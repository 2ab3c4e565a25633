/** Parsing a rendered server file gives back what was rendered. */
module ConfRoundTrip {
  import opened Text
  import opened ConfModel
  import opened ConfRender
  import opened ConfParse

  predicate PlainKey(key: string) {
    key != [] && IsTrimmed(key) && Free(key, '=') && Free(key, '\n') && key[0] !in {'[', '#', ';'}
  }

  /** A "key = value" line is read as that key and the trimmed value, whatever the value holds. */
  lemma KvParsed(st: State, key: string, v: string)
    requires PlainKey(key)
    ensures ParseLine(st, KvLine(key, v)) == ApplyKey(st, key, Trim(v))
  {
    var w := TrimRight(" " + v);
    var line := key + " " + ['='] + w;
    KvTrimmed(key, v);
    KvValue(v);
    assert line[0] == key[0];
    CutAt(key + " ", '=', w);
    TrimPadded("", key, " ");
    assert "" + key + " " == key + " ";
    TrimOfTrimmed(key);
  }

  lemma KvTrimmed(key: string, v: string)
    requires PlainKey(key)
    ensures Trim(KvLine(key, v)) == key + " " + ['='] + TrimRight(" " + v)
  {
    var w := TrimRight(" " + v);
    var line := key + " " + ['='] + w;
    assert KvLine(key, v) == key + (" = " + v);
    TrimLeftAppend(key, " = " + v);
    assert KvLine(key, v) == (key + " =") + (" " + v);
    TrimRightAppend(key + " =", " " + v);
    assert key + " =" == key + " " + ['='];
    if w == [] {
      assert line == key + " =";
    }
  }

  lemma KvValue(v: string)
    ensures Trim(TrimRight(" " + v)) == Trim(v)
  {
    var w := TrimRight(" " + v);
    TrimRightFirst(" " + v);
    TrimCommutes(w);
    TrimCommutes(" " + v);
    TrimPadded(" ", v, "");
    assert " " + v + "" == " " + v;
  }

  lemma NamePlain(k: Key)
    ensures PlainKey(Name(k))
  {
    NameShape(k);
    NameLetters(k);
  }

  predicate Letters(s: string) {
    forall i :: 0 <= i < |s| ==> s[i] != '=' && s[i] != '#' && s[i] != '\n'
  }

  lemma NameLetters(k: Key)
    ensures Letters(Name(k))
  {
    NameShape(k);
    if |Name(k)| <= 4 {
      ShortLetters(k);
    } else if |Name(k)| <= 12 {
      MiddleLetters(k);
    } else if |Name(k)| <= 14 {
      LongLetters(k);
    } else if |Name(k)| <= 16 {
      LongerLetters(k);
    } else if |Name(k)| <= 20 {
      LongestLetters(k);
    } else {
      assert k == ContentPaddingAddition;
    }
  }

  lemma ShortLetters(k: Key)
    requires Shape(k).0 <= 4
    ensures Letters(Name(k))
  {
  }

  lemma MiddleLetters(k: Key)
    requires 4 < Shape(k).0 <= 12
    ensures Letters(Name(k))
  {
  }

  lemma LongLetters(k: Key)
    requires 12 < Shape(k).0 <= 14
    ensures Letters(Name(k))
  {
  }

  lemma LongerLetters(k: Key)
    requires 14 < Shape(k).0 <= 16
    ensures Letters(Name(k))
  {
  }

  lemma LongestLetters(k: Key)
    requires 16 < Shape(k).0 <= 20
    ensures Letters(Name(k))
  {
  }

  // ---------------------------------------------------------------- the interface block

  function ApplyField(fields: map<Key, Setting>, inst: Instance, host: Host, k: Key): map<Key, Setting> {
    if Emits(inst, host, k) && Known(k) then fields[k := Convert(k, Trim(Value(inst, host, k)))] else fields
  }

  function ApplyFields(fields: map<Key, Setting>, inst: Instance, host: Host, keys: seq<Key>): map<Key, Setting>
    decreases |keys|
  {
    if keys == [] then fields
    else ApplyFields(ApplyField(fields, inst, host, keys[0]), inst, host, keys[1..])
  }

  lemma FieldParsed(st: State, inst: Instance, host: Host, k: Key)
    requires st.section == "interface"
    ensures ParseLines(st, FieldLine(inst, host, k)) == st.(fields := ApplyField(st.fields, inst, host, k))
  {
    if Emits(inst, host, k) {
      var line := KvLine(Name(k), Value(inst, host, k));
      NamePlain(k);
      KvParsed(st, Name(k), Value(inst, host, k));
      KeyOfName(k);
      assert ParseLines(ParseLine(st, line), []) == ParseLine(st, line);
    }
  }

  lemma {:induction false} FieldsParsed(st: State, inst: Instance, host: Host, keys: seq<Key>)
    requires st.section == "interface"
    ensures ParseLines(st, FieldLines(inst, host, keys)) == st.(fields := ApplyFields(st.fields, inst, host, keys))
    decreases |keys|
  {
    if keys != [] {
      ParseLinesAppend(st, FieldLine(inst, host, keys[0]), FieldLines(inst, host, keys[1..]));
      FieldParsed(st, inst, host, keys[0]);
      FieldsParsed(st.(fields := ApplyField(st.fields, inst, host, keys[0])), inst, host, keys[1..]);
    }
  }

  /** The setting the parser ends up with for a key: the written value, or zero where the line is left out. */
  function Written(inst: Instance, host: Host, k: Key): Setting {
    if Emits(inst, host, k) && Known(k) then Convert(k, Trim(Value(inst, host, k))) else Zero(k)
  }

  lemma {:induction false} GetApplied(fields: map<Key, Setting>, inst: Instance, host: Host, keys: seq<Key>, k: Key)
    ensures Get(ApplyFields(fields, inst, host, keys), k)
         == if k in keys && Emits(inst, host, k) && Known(k) then Written(inst, host, k) else Get(fields, k)
    decreases |keys|
  {
    if keys != [] {
      var h := keys[0];
      var next := ApplyField(fields, inst, host, h);
      GetApplied(next, inst, host, keys[1..], k);
      assert keys == [h] + keys[1..];
    }
  }

  function DeviceFields(inst: Instance, host: Host): map<Key, Setting> {
    ApplyFields(map[], inst, host, RENDER_ORDER)
  }

  lemma DeviceFieldsWritten(inst: Instance, host: Host, k: Key)
    ensures Get(DeviceFields(inst, host), k) == Written(inst, host, k)
  {
    GetApplied(map[], inst, host, RENDER_ORDER, k);
    RenderOrderComplete(k);
  }

  lemma HeaderParsed()
    ensures ParseLines(START, [MARKER, "[Interface]"]) == START.(section := "interface")
  {
    TrimOfTrimmed(MARKER);
    assert ParseLine(START, MARKER) == START;
    TrimOfTrimmed("[Interface]");
    InterfaceSection();
    assert ParseLine(START, "[Interface]") == START.(section := "interface");
    assert [MARKER, "[Interface]"][1..] == ["[Interface]"];
    assert ParseLines(START, ["[Interface]"]) == ParseLines(START.(section := "interface"), []);
  }

  lemma InterfaceSection()
    ensures SectionName("[Interface]") == "interface"
  {
    assert TrimLeftSet("[Interface]", {'[', ']'}) == "Interface]";
    assert TrimRightSet("Interface]", {'[', ']'}) == "Interface";
  }

  lemma PeerSection()
    ensures SectionName("[Peer]") == "peer"
  {
    assert TrimLeftSet("[Peer]", {'[', ']'}) == "Peer]";
    assert TrimRightSet("Peer]", {'[', ']'}) == "Peer";
  }

  // ---------------------------------------------------------------- the peers

  function KeptValue(v: string): string {
    if Trim(v) != "" then Trim(ConfValue(Trim(v))) else ""
  }

  function ReadPeer(p: Peer): ServerPeer {
    NO_PEER.(publicKey := Trim(ConfValue(p.publicKey)), psk := KeptValue(p.psk), allowedIPs := KeptValue(p.allowedIPs))
  }

  function RecoveredPeer(p: Peer): ServerPeer {
    ReadPeer(p).(suspended := Contains(KeptValue(p.allowedIPs), SUSPEND_IP))
  }

  function Recovered(p: Peer): seq<ServerPeer> {
    if Trim(ConfValue(p.publicKey)) == "" then [] else [RecoveredPeer(p)]
  }

  /** The rendered peers in order, without those whose public key is blank. */
  function RecoveredPeers(peers: seq<Peer>): seq<ServerPeer> {
    if peers == [] then [] else Recovered(peers[0]) + RecoveredPeers(peers[1..])
  }

  predicate Between(st: State) { st.section != "peer" ==> st.peer == NO_PEER && !st.named }

  lemma PeerHeaderParsed(st: State)
    requires Between(st)
    ensures ParseLines(st, PEER_HEADER) == LeaveSection(st).(section := "peer")
  {
    PeerSection();
    TrimOfTrimmed("[Peer]");
    assert PEER_HEADER[1..] == ["[Peer]"];
    assert ParseLine(st, "") == st;
    assert ParseLines(ParseLine(st, "[Peer]"), []) == ParseLine(st, "[Peer]");
  }

  lemma OptionalParsed(st: State, key: string, present: bool, v: string)
    requires PlainKey(key)
    ensures ParseLines(st, if present then [KvLine(key, v)] else []) == if present then ApplyKey(st, key, Trim(v)) else st
  {
    if present {
      KvParsed(st, key, v);
      assert ParseLines(ParseLine(st, KvLine(key, v)), []) == ParseLine(st, KvLine(key, v));
    }
  }

  lemma PeerKeys(p: ServerPeer, v: string)
    ensures ApplyPeerKey(p, "PublicKey", v) == p.(publicKey := v)
    ensures ApplyPeerKey(p, "PresharedKey", v) == p.(psk := v)
    ensures ApplyPeerKey(p, "AllowedIPs", v) == p.(allowedIPs := v)
    ensures PlainKey("PublicKey") && PlainKey("PresharedKey") && PlainKey("AllowedIPs")
  {
    assert |"PublicKey"| == 9 && |"PresharedKey"| == 12 && |"AllowedIPs"| == 10;
  }

  lemma BlocksParsed(st: State, a: seq<string>, b: seq<string>, c: seq<string>, d: seq<string>)
    ensures ParseLines(st, a + b + c + d) == ParseLines(ParseLines(ParseLines(ParseLines(st, a), b), c), d)
  {
    ParseLinesAppend(st, a + b + c, d);
    ParseLinesAppend(st, a + b, c);
    ParseLinesAppend(st, a, b);
  }

  lemma PeerKeyParsed(st: State, key: string, present: bool, v: string)
    requires st.section == "peer" && PlainKey(key)
    ensures ParseLines(st, if present then [KvLine(key, v)] else [])
         == st.(peer := if present then ApplyPeerKey(st.peer, key, Trim(v)) else st.peer)
  {
    OptionalParsed(st, key, present, v);
  }

  lemma PeerParsed(st: State, p: Peer)
    requires Between(st)
    ensures ParseLines(st, PeerLines(p)) == Opened(st, p)
  {
    var open := LeaveSection(st).(section := "peer");
    var pub := [KvLine("PublicKey", ConfValue(p.publicKey))];
    var hasPsk, hasIPs := Trim(p.psk) != "", Trim(p.allowedIPs) != "";
    var psk := if hasPsk then [KvLine("PresharedKey", ConfValue(Trim(p.psk)))] else [];
    var ips := if hasIPs then [KvLine("AllowedIPs", ConfValue(Trim(p.allowedIPs)))] else [];
    BlocksParsed(st, PEER_HEADER, pub, psk, ips);
    PeerHeaderParsed(st);
    PeerKeys(open.peer, Trim(ConfValue(p.publicKey)));
    PeerKeyParsed(open, "PublicKey", true, ConfValue(p.publicKey));
    var st1 := open.(peer := NO_PEER.(publicKey := Trim(ConfValue(p.publicKey))));
    PeerKeys(st1.peer, Trim(ConfValue(Trim(p.psk))));
    PeerKeyParsed(st1, "PresharedKey", hasPsk, ConfValue(Trim(p.psk)));
    var st2 := st1.(peer := st1.peer.(psk := KeptValue(p.psk)));
    PeerKeys(st2.peer, Trim(ConfValue(Trim(p.allowedIPs))));
    PeerKeyParsed(st2, "AllowedIPs", hasIPs, ConfValue(Trim(p.allowedIPs)));
  }

  function Opened(st: State, p: Peer): State { LeaveSection(st).(section := "peer", peer := ReadPeer(p)) }

  lemma PeerFlushed(st: State, p: Peer)
    ensures LeaveSection(Opened(st, p)).peers == LeaveSection(st).peers + Recovered(p)
    ensures Opened(st, p).fields == st.fields && Between(Opened(st, p))
  {
  }

  function AfterPeers(st: State, peers: seq<Peer>): State
    decreases |peers|
  {
    if peers == [] then st else AfterPeers(Opened(st, peers[0]), peers[1..])
  }

  lemma BlockParsed(st: State, p: Peer, rest: seq<string>)
    requires Between(st)
    ensures ParseLines(st, PeerLines(p) + rest) == ParseLines(Opened(st, p), rest)
  {
    PeerParsed(st, p);
    ParseLinesAppend(st, PeerLines(p), rest);
  }

  lemma {:induction false} PeersParsed(st: State, peers: seq<Peer>)
    requires Between(st)
    ensures ParseLines(st, PeersLines(peers)) == AfterPeers(st, peers)
    decreases |peers|
  {
    if peers != [] {
      BlockParsed(st, peers[0], PeersLines(peers[1..]));
      PeersParsed(Opened(st, peers[0]), peers[1..]);
    }
  }

  /** Every block is flushed into the list exactly once, in order. */
  lemma {:induction false} PeersRecovered(st: State, peers: seq<Peer>)
    requires Between(st)
    ensures LeaveSection(AfterPeers(st, peers)).peers == LeaveSection(st).peers + RecoveredPeers(peers)
    ensures AfterPeers(st, peers).fields == st.fields
    decreases |peers|
  {
    if peers != [] {
      var p := peers[0];
      PeerFlushed(st, p);
      var next := Opened(st, p);
      PeersRecovered(next, peers[1..]);
      Assoc(LeaveSection(st).peers, Recovered(p), RecoveredPeers(peers[1..]));
    }
  }

  lemma Assoc<T>(a: seq<T>, b: seq<T>, c: seq<T>)
    ensures (a + b) + c == a + (b + c)
  {
  }

  // ---------------------------------------------------------------- lines and text

  lemma {:induction false} SplitUnlines(lines: seq<string>)
    requires AllFree(lines, '\n')
    ensures Split(Unlines(lines), '\n') == lines + [""]
  {
    if lines != [] {
      assert Free(lines[0], '\n');
      SplitHead(lines[0], '\n', Unlines(lines[1..]));
      SplitUnlines(lines[1..]);
      assert lines == [lines[0]] + lines[1..];
    }
  }

  lemma ValueFree(inst: Instance, host: Host, k: Key)
    requires HooksOnOneLine(host)
    ensures Free(Value(inst, host, k), '\n')
  {
    ItoaPlain(NumberField(inst, k));
  }

  lemma {:induction false} FieldLinesFree(inst: Instance, host: Host, keys: seq<Key>)
    requires HooksOnOneLine(host)
    ensures AllFree(FieldLines(inst, host, keys), '\n')
  {
    if keys != [] {
      ValueFree(inst, host, keys[0]);
      NamePlain(keys[0]);
      FieldLinesFree(inst, host, keys[1..]);
    }
  }

  lemma {:induction false} PeersLinesFree(peers: seq<Peer>)
    ensures AllFree(PeersLines(peers), '\n')
  {
    if peers != [] {
      PeersLinesFree(peers[1..]);
      assert AllFree(PeerLines(peers[0]), '\n');
    }
  }

  lemma RenderedLines(inst: Instance, host: Host)
    requires HooksOnOneLine(host)
    ensures Render(inst, host) == Unlines(DeviceLines(inst, host) + PeersLines(inst.peers))
    ensures Split(Render(inst, host), '\n') == DeviceLines(inst, host) + PeersLines(inst.peers) + [""]
  {
    DeviceLinesFree(inst, host);
    PeersLinesFree(inst.peers);
    TwoBlocks(DeviceLines(inst, host), PeersLines(inst.peers));
  }

  lemma DeviceLinesFree(inst: Instance, host: Host)
    requires HooksOnOneLine(host)
    ensures AllFree(DeviceLines(inst, host), '\n')
  {
    FieldLinesFree(inst, host, RENDER_ORDER);
    assert Free(MARKER, '\n') && Free("[Interface]", '\n');
  }

  lemma TwoBlocks(a: seq<string>, b: seq<string>)
    requires AllFree(a, '\n') && AllFree(b, '\n')
    ensures Unlines(a) + Unlines(b) == Unlines(a + b) && Split(Unlines(a + b), '\n') == a + b + [""]
  {
    UnlinesAppend(a, b);
    SplitUnlines(a + b);
  }

  // ---------------------------------------------------------------- the round trip

  /** The lines of a file that writes these keys. */
  function FileLines(inst: Instance, host: Host, keys: seq<Key>): seq<string> {
    [MARKER, "[Interface]"] + FieldLines(inst, host, keys) + PeersLines(inst.peers)
  }

  /** What the parser makes of them. */
  lemma FileParsed(inst: Instance, host: Host, keys: seq<Key>)
    ensures var last := ParseLines(START, FileLines(inst, host, keys) + [""]);
            && last.fields == ApplyFields(map[], inst, host, keys)
            && LeaveSection(last).peers == RecoveredPeers(inst.peers)
  {
    var head := [MARKER, "[Interface]"];
    var fields := FieldLines(inst, host, keys);
    ParseLinesAppend(START, FileLines(inst, host, keys), [""]);
    ParseLinesAppend(START, head + fields, PeersLines(inst.peers));
    ParseLinesAppend(START, head, fields);
    HeaderParsed();
    FieldsParsed(START.(section := "interface"), inst, host, keys);
    var mid := ParseLines(START, head + fields);
    PeersParsed(mid, inst.peers);
    PeersRecovered(mid, inst.peers);
    var last := ParseLines(mid, PeersLines(inst.peers));
    assert ParseLines(last, [""]) == last by {
      assert ParseLine(last, "") == last;
    }
  }

  lemma RenderedState(inst: Instance, host: Host)
    requires HooksOnOneLine(host)
    ensures var last := ParseLines(START, Split(Render(inst, host), '\n'));
            last.fields == DeviceFields(inst, host) && LeaveSection(last).peers == RecoveredPeers(inst.peers)
  {
    RenderedLines(inst, host);
    FileParsed(inst, host, RENDER_ORDER);
  }

  lemma FirstAddressKept(fields: map<Key, Setting>, k: Key)
    requires Get(fields, Address).Txt?
    ensures Get(KeepFirstAddress(fields), k)
         == if k == Address then Txt(FirstAddress(Get(fields, Address).text)) else Get(fields, k)
  {
  }

  lemma AddressWritten(inst: Instance, host: Host)
    ensures Written(inst, host, Address) == Txt(Trim(ConfValue(inst.address)))
  {
  }

  /** Parsing a rendered file: every interface field is the written one, or zero where its line is gated out,
      an address list keeps its first entry, and the peers come back whole and in order. */
  lemma RoundTrip(inst: Instance, host: Host)
    requires HooksOnOneLine(host)
    ensures var conf := Parse(Render(inst, host));
            && conf.peers == RecoveredPeers(inst.peers)
            && (forall k :: k != Address ==> Get(conf.fields, k) == Written(inst, host, k))
            && Get(conf.fields, Address) == Txt(FirstAddress(Trim(ConfValue(inst.address))))
            && conf.version == DetectVersion(DeviceFields(inst, host))
  {
    RenderedState(inst, host);
    DeviceFieldsWritten(inst, host, Address);
    AddressWritten(inst, host);
    forall k ensures Get(KeepFirstAddress(DeviceFields(inst, host)), k)
                  == if k == Address then Txt(FirstAddress(Trim(ConfValue(inst.address)))) else Written(inst, host, k)
    {
      DeviceFieldsWritten(inst, host, k);
      FirstAddressKept(DeviceFields(inst, host), k);
    }
  }

  // ---------------------------------------------------------------- instances without stray white space

  /** A value without white space at its ends and without the characters confValue drops. */
  predicate Clean(v: string) {
    IsTrimmed(v) && NoControl(v)
  }

  predicate NoControl(v: string) {
    forall i :: 0 <= i < |v| ==> v[i] != '\n' && v[i] != '\r' && v[i] as int != 0
  }

  lemma {:induction false} ConfValueKeeps(v: string)
    requires NoControl(v)
    ensures ConfValue(v) == v
  {
    if v != [] {
      ConfValueKeeps(v[1..]);
      assert v == [v[0]] + v[1..];
    }
  }

  lemma CleanKept(v: string)
    requires Clean(v)
    ensures Trim(ConfValue(v)) == v && KeptValue(v) == v
  {
    ConfValueKeeps(v);
    TrimOfTrimmed(v);
  }

  predicate CleanPeer(p: Peer) { Clean(p.publicKey) && p.publicKey != "" && Clean(p.psk) && Clean(p.allowedIPs) }

  function PeerOf(p: Peer): ServerPeer {
    NO_PEER.(publicKey := p.publicKey, psk := p.psk, allowedIPs := p.allowedIPs,
             suspended := Contains(p.allowedIPs, SUSPEND_IP))
  }

  lemma {:induction false} CleanPeersRecovered(peers: seq<Peer>)
    requires forall p <- peers :: CleanPeer(p)
    ensures |RecoveredPeers(peers)| == |peers|
    ensures forall i :: 0 <= i < |peers| ==> RecoveredPeers(peers)[i] == PeerOf(peers[i])
  {
    if peers != [] {
      var p := peers[0];
      assert CleanPeer(p);
      CleanKept(p.publicKey);
      CleanKept(p.psk);
      CleanKept(p.allowedIPs);
      CleanPeersRecovered(peers[1..]);
    }
  }

  lemma OnIsTrue()
    ensures ParseConfBool(Trim("on"))
  {
    TrimOfTrimmed("on");
    assert ToLower("on") == "on";
    assert "on" == ["true", "yes", "1", "on"][3];
  }

  // ---------------------------------------------------------------- the detected version

  predicate AnyDash(inst: Instance) {
    '-' in inst.h1 || '-' in inst.h2 || '-' in inst.h3 || '-' in inst.h4
  }

  lemma {:induction false} ConfValueDash(v: string)
    ensures '-' in ConfValue(v) <==> '-' in v
  {
    if v != [] {
      ConfValueDash(v[1..]);
      assert v == [v[0]] + v[1..];
    }
  }

  lemma HeaderDash(h: string)
    ensures '-' in Trim(ConfValue(h)) <==> '-' in h
    ensures '-' in h ==> Trim(h) != ""
  {
    ConfValueDash(h);
    TrimIsTrimmed(ConfValue(h));
    if '-' in h {
      TrimKeeps(ConfValue(h), '-');
      TrimKeeps(h, '-');
    }
  }

  predicate FieldsOf(f: map<Key, Setting>, inst: Instance, host: Host) {
    forall k :: Get(f, k) == Written(inst, host, k)
  }

  lemma HeaderFieldDash(f: map<Key, Setting>, inst: Instance, host: Host, k: Key)
    requires FieldsOf(f, inst, host) && GateOf(k).Header?
    ensures HasDash(f, k) <==> '-' in TextField(inst, k)
  {
    HeaderDash(TextField(inst, k));
    HeaderWritten(inst, host, k);
    assert Get(f, k) == Written(inst, host, k);
  }

  lemma HeaderWritten(inst: Instance, host: Host, k: Key)
    requires GateOf(k).Header?
    ensures Written(inst, host, k)
         == Txt(if Trim(TextField(inst, k)) != "" then Trim(ConfValue(TextField(inst, k))) else "")
  {
    assert Known(k) && !IsNumber(k) && !IsFlag(k);
    assert Value(inst, host, k) == ConfValue(TextField(inst, k));
  }

  lemma HeadersDash(f: map<Key, Setting>, inst: Instance, host: Host)
    requires FieldsOf(f, inst, host)
    ensures HeaderRange(f) <==> AnyDash(inst)
  {
    HeaderFieldDash(f, inst, host, H1);
    HeaderFieldDash(f, inst, host, H2);
    HeaderFieldDash(f, inst, host, H3);
    HeaderFieldDash(f, inst, host, H4);
  }

  /** The lowest version whose files may hold a line. */
  function Since(k: Key): nat {
    match GateOf(k)
    case Since31 => 3
    case ProtectionKey | Timer => 2
    case SinceV2 | Packet => 1
    case _ => 0
  }

  lemma GatedZero(f: map<Key, Setting>, inst: Instance, host: Host)
    requires FieldsOf(f, inst, host)
    ensures ZeroAbove(f, Rank(NormalizeVersion(inst.awgVersion)))
  {
    forall k | Rank(NormalizeVersion(inst.awgVersion)) < Since(k)
      ensures Get(f, k) == Zero(k)
    {
      assert Get(f, k) == Written(inst, host, k);
    }
  }

  predicate ZeroAbove(f: map<Key, Setting>, v: nat) {
    forall k :: v < Since(k) ==> Get(f, k) == Zero(k)
  }

  lemma No31Marks(f: map<Key, Setting>, v: nat)
    requires ZeroAbove(f, v) && v < 3
    ensures !Marks31(f)
  {
    assert Since(RandomTrailers) == Since(DisableCookies) == 3;
  }

  lemma No3Mark(f: map<Key, Setting>, v: nat, k: Key)
    requires ZeroAbove(f, v) && v < 2 && Since(k) == 2
    ensures !NonBlank(f, k) && !TimerSet(f, k)
  {
    assert Get(f, k) == Txt("");
    TrimOfTrimmed("");
  }

  lemma No3Marks(f: map<Key, Setting>, v: nat)
    requires ZeroAbove(f, v) && v < 2
    ensures !Marks3(f)
  {
    No3Mark(f, v, HeaderProtectionKey);
    No3Mark(f, v, ContentPaddingAddition);
    No3Mark(f, v, RekeyAfterTime);
    No3Mark(f, v, RekeyTimeout);
    No3Mark(f, v, RejectAfterTime);
    No3Mark(f, v, KeepaliveTimeout);
    No3Mark(f, v, MaxHandshakeAttempts);
  }

  lemma No2Marks(f: map<Key, Setting>, v: nat)
    requires ZeroAbove(f, v) && v < 1
    ensures !Marks2(f)
  {
    forall k | GateOf(k).SinceV2? || GateOf(k).Packet?
      ensures Get(f, k) == Zero(k)
    {
      assert Since(k) == 1;
    }
  }

  /** The version detected in a rendered file exceeds the instance's own exactly when
      a 1.5 instance carries a range in one of its H fields. */
  lemma DetectedVersionNotAbove(inst: Instance, host: Host)
    requires HooksOnOneLine(host)
    ensures Rank(Parse(Render(inst, host)).version) <= Rank(NormalizeVersion(inst.awgVersion))
       <==> !(NormalizeVersion(inst.awgVersion).V15? && AnyDash(inst))
    ensures NormalizeVersion(inst.awgVersion).V15? && AnyDash(inst) ==> Parse(Render(inst, host)).version == V2
  {
    RoundTrip(inst, host);
    var f := DeviceFields(inst, host);
    forall k ensures Get(f, k) == Written(inst, host, k) {
      DeviceFieldsWritten(inst, host, k);
    }
    HeadersDash(f, inst, host);
    GatedZero(f, inst, host);
    DetectBound(f, Rank(NormalizeVersion(inst.awgVersion)));
  }

  /** Any instance declared as 1.5 with the header range 1-2 reads back as version 2. */
  lemma RangeRaisesVersion(inst: Instance, host: Host)
    requires HooksOnOneLine(host)
    ensures var raised := inst.(awgVersion := "1.5", h1 := "1-2"); Parse(Render(raised, host)).version == V2
  {
    var raised := inst.(awgVersion := "1.5", h1 := "1-2");
    assert "1-2"[1] == '-';
    DetectedVersionNotAbove(raised, host);
  }

  /** A file in which every line newer than version v is absent is detected as v at most, header ranges aside. */
  lemma DetectBound(f: map<Key, Setting>, v: nat)
    requires ZeroAbove(f, v)
    ensures Rank(DetectVersion(f)) <= v <==> !(v == 0 && HeaderRange(f))
    ensures v == 0 && HeaderRange(f) ==> DetectVersion(f) == V2
  {
    if v < 3 { No31Marks(f, v); }
    if v < 2 { No3Marks(f, v); }
    if v < 1 { No2Marks(f, v); }
  }

  /** awgHFieldRe: an integer or a lo-hi range. */
  predicate HFieldSyntax(h: string) {
    var (lo, hi, range) := Cut(h, '-');
    lo != "" && AllDigits(lo) && (range ==> hi != "" && AllDigits(hi))
  }

  /** ValidateObfuscationFields for one header. */
  predicate ValidHeader(version: string, obfuscated: bool, h: string) {
    if Trim(h) == "" then !obfuscated
    else HFieldSyntax(Trim(h)) && !(NormalizeVersion(version).V15? && '-' in Trim(h))
  }

  /** With headers that pass validation the file never reads back as a higher version. */
  lemma ValidHeadersNotAbove(inst: Instance, host: Host)
    requires HooksOnOneLine(host)
    requires var o := inst.jc > 0 || inst.s1 > 0;
             && ValidHeader(inst.awgVersion, o, inst.h1) && ValidHeader(inst.awgVersion, o, inst.h2)
             && ValidHeader(inst.awgVersion, o, inst.h3) && ValidHeader(inst.awgVersion, o, inst.h4)
    ensures Rank(Parse(Render(inst, host)).version) <= Rank(NormalizeVersion(inst.awgVersion))
  {
    DetectedVersionNotAbove(inst, host);
    if NormalizeVersion(inst.awgVersion).V15? {
      DashTrimmed(inst.h1); DashTrimmed(inst.h2); DashTrimmed(inst.h3); DashTrimmed(inst.h4);
    }
  }

  lemma DashTrimmed(h: string)
    ensures '-' in h ==> '-' in Trim(h)
  {
    if '-' in h {
      TrimKeeps(h, '-');
    }
  }
}
