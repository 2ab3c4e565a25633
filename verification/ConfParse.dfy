/** ParseServerConf (internal/awg/import_parse.go): reading a server awg-quick file. */
module ConfParse {
  import opened Text
  import opened ConfModel
  import R = ConfRender

  /** The value of an interface field, in the type the parser stores it with. */
  datatype Setting = Txt(text: string) | Num(number: int64) | Flag(on: bool)

  datatype ServerPeer = ServerPeer(
    name: string, publicKey: string, psk: string, allowedIPs: string, endpoint: string,
    keepalive: string, suspended: bool, origIPs: string, expiry: int64)

  const NO_PEER := ServerPeer("", "", "", "", "", "", false, "", 0)

  /** Fields never assigned keep their zero value, so they are not stored. */
  datatype ServerConf = ServerConf(fields: map<Key, Setting>, peers: seq<ServerPeer>, version: Version)

  datatype State = State(
    section: string, fields: map<Key, Setting>, peer: ServerPeer, named: bool, peers: seq<ServerPeer>)

  const START := State("", map[], NO_PEER, false, [])

  function Zero(k: Key): Setting {
    if IsNumber(k) then Num(0) else if IsFlag(k) then Flag(false) else Txt("")
  }

  function Get(fields: map<Key, Setting>, k: Key): Setting {
    if k in fields then fields[k] else Zero(k)
  }

  function ParseConfBool(s: string): bool {
    ToLower(Trim(s)) in ["true", "yes", "1", "on"]
  }

  function Convert(k: Key, val: string): Setting {
    if IsNumber(k) then Num(ParseInt(val).value)
    else if IsFlag(k) then Flag(ParseConfBool(val))
    else if k == DNS && ',' in val then Txt(Trim(Cut(val, ',').0))
    else Txt(val)
  }

  function ApplyInterfaceKey(fields: map<Key, Setting>, key: string, val: string): map<Key, Setting> {
    match KeyOf(key)
    case None => fields
    case Some(k) => fields[k := Convert(k, val)]
  }

  function ApplyPeerKey(p: ServerPeer, key: string, val: string): ServerPeer {
    if key == "PublicKey" then p.(publicKey := val)
    else if key == "PresharedKey" then p.(psk := val)
    else if key == "AllowedIPs" then p.(allowedIPs := val)
    else if key == "Endpoint" then p.(endpoint := val)
    else if key == "PersistentKeepalive" then p.(keepalive := val)
    else p
  }

  /** strings.Contains. */
  predicate Contains(s: string, sub: string) {
    sub <= s || (s != [] && Contains(s[1..], sub))
  }

  const SUSPEND_IP := "127.0.0.2"

  /** flushPeer: a block without a public key is forgotten. */
  function Flush(st: State): State {
    var peer := if Contains(st.peer.allowedIPs, SUSPEND_IP) then st.peer.(suspended := true) else st.peer;
    st.(peer := NO_PEER, named := false, peers := if st.peer.publicKey == "" then st.peers else st.peers + [peer])
  }

  function LeaveSection(st: State): State {
    if st.section == "peer" then Flush(st) else st
  }

  function TrimLeftSet(s: string, cut: set<char>): string {
    if s != [] && s[0] in cut then TrimLeftSet(s[1..], cut) else s
  }

  function TrimRightSet(s: string, cut: set<char>): string {
    if s != [] && s[|s| - 1] in cut then TrimRightSet(s[..|s| - 1], cut) else s
  }

  function SectionName(line: string): string {
    ToLower(TrimRightSet(TrimLeftSet(line, {'[', ']'}), {'[', ']'}))
  }

  /** strings.EqualFold against an ASCII word without 'k' and 's', where folding is plain ASCII folding. */
  predicate FoldEq(s: string, word: string) {
    |s| == |word| && forall i :: 0 <= i < |s| ==> AsciiLower(s[i]) == AsciiLower(word[i])
  }

  function AsciiLower(c: char): char { if 'A' <= c <= 'Z' then c - 'A' + 'a' else c }

  function After(prefix: string, s: string): string
    requires prefix <= s
  {
    s[|prefix|..]
  }

  function ParseComment(st: State, line: string): State {
    var comment := Trim(TrimLeftSet(line, {'#', ';'}));
    if st.section != "peer" || comment == "" || FoldEq(comment, "Managed by x-ui - do not edit") then st
    else if "expires=" <= comment then
      var ts := ParseInt(After("expires=", comment));
      if ts.ok then st.(peer := st.peer.(expiry := ts.value)) else st
    else if "orig_ips=" <= comment then st.(peer := st.peer.(origIPs := Trim(After("orig_ips=", comment))))
    else if !st.named then st.(peer := st.peer.(name := comment), named := true)
    else st
  }

  function ApplyKey(st: State, key: string, val: string): State {
    if st.section == "interface" then st.(fields := ApplyInterfaceKey(st.fields, key, val))
    else if st.section == "peer" then st.(peer := ApplyPeerKey(st.peer, key, val))
    else st
  }

  function ParseLine(st: State, raw: string): State {
    var line := Trim(raw);
    if line == "" then st
    else if line[0] == '[' then LeaveSection(st).(section := SectionName(line))
    else if line[0] == '#' || line[0] == ';' then ParseComment(st, line)
    else
      var (key, val, ok) := Cut(line, '=');
      if ok then ApplyKey(st, Trim(key), Trim(val)) else st
  }

  function ParseLines(st: State, lines: seq<string>): State
    decreases |lines|
  {
    if lines == [] then st else ParseLines(ParseLine(st, lines[0]), lines[1..])
  }

  predicate HasDash(fields: map<Key, Setting>, k: Key) {
    var s := Get(fields, k);
    s.Txt? && '-' in s.text
  }

  predicate NonBlank(fields: map<Key, Setting>, k: Key) { Get(fields, k) != Txt("") }

  predicate TimerSet(fields: map<Key, Setting>, k: Key) {
    var s := Get(fields, k);
    s.Txt? && !R.IsZeroTimer(s.text)
  }

  predicate Marks31(f: map<Key, Setting>) {
    Get(f, RandomTrailers) == Flag(true) || Get(f, DisableCookies) == Flag(true)
  }

  predicate Marks3(f: map<Key, Setting>) {
    NonBlank(f, HeaderProtectionKey) || TimerSet(f, ContentPaddingAddition) || TimerSet(f, RekeyAfterTime)
    || TimerSet(f, RekeyTimeout) || TimerSet(f, RejectAfterTime) || TimerSet(f, KeepaliveTimeout)
    || TimerSet(f, MaxHandshakeAttempts)
  }

  predicate Marks2(f: map<Key, Setting>) {
    Get(f, S3) != Num(0) || Get(f, S4) != Num(0)
    || NonBlank(f, I1) || NonBlank(f, I2) || NonBlank(f, I3) || NonBlank(f, I4) || NonBlank(f, I5)
  }

  predicate HeaderRange(f: map<Key, Setting>) {
    HasDash(f, H1) || HasDash(f, H2) || HasDash(f, H3) || HasDash(f, H4)
  }

  function DetectVersion(f: map<Key, Setting>): Version {
    if Marks31(f) then V31
    else if Marks3(f) then V3
    else if Marks2(f) || HeaderRange(f) then V2
    else V15
  }

  /** Only the first of several comma-separated addresses is kept. */
  function FirstAddress(s: string): string {
    if ',' in s then Trim(Cut(s, ',').0) else s
  }

  function KeepFirstAddress(fields: map<Key, Setting>): map<Key, Setting> {
    if Address in fields && fields[Address].Txt?
    then fields[Address := Txt(FirstAddress(fields[Address].text))]
    else fields
  }

  function Finish(st: State): ServerConf {
    ServerConf(KeepFirstAddress(st.fields), LeaveSection(st).peers, DetectVersion(st.fields))
  }

  function Parse(text: string): ServerConf {
    Finish(ParseLines(START, Split(text, '\n')))
  }

  lemma {:induction false} ParseLinesAppend(st: State, a: seq<string>, b: seq<string>)
    ensures ParseLines(st, a + b) == ParseLines(ParseLines(st, a), b)
    decreases |a|
  {
    if a == [] {
      assert a + b == b;
    } else {
      assert (a + b)[1..] == a[1..] + b;
      ParseLinesAppend(ParseLine(st, a[0]), a[1..], b);
    }
  }

  /** ParseServerConf walks the lines once, updating the section, the open peer and the configuration. */
  method ParseServerConf(text: string) returns (conf: ServerConf)
    ensures conf == Parse(text)
  {
    var lines := Split(text, '\n');
    var st := START;
    for i := 0 to |lines|
      invariant ParseLines(START, lines) == ParseLines(st, lines[i..])
    {
      st := ParseLine(st, lines[i]);
      assert lines[i..][1..] == lines[i + 1..];
    }
    st := LeaveSection(st);
    conf := ServerConf(KeepFirstAddress(st.fields), st.peers, DetectVersion(st.fields));
  }
}
