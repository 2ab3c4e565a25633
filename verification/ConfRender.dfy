/** renderServerConf (internal/awg/manager.go): the awg-quick file of one inbound. */
module ConfRender {
  import opened Text
  import opened ConfModel

  const MARKER := "# Managed by x-ui - do not edit"

  datatype Instance = Instance(
    port: int64, mtu: int64, address: string, privateKey: string,
    jc: int64, jmin: int64, jmax: int64, s1: int64, s2: int64, s3: int64, s4: int64,
    h1: string, h2: string, h3: string, h4: string,
    i1: string, i2: string, i3: string, i4: string, i5: string,
    headerProtectionKey: string, contentPaddingAddition: string, rekeyAfterTime: string,
    rekeyTimeout: string, rejectAfterTime: string, keepaliveTimeout: string, maxHandshakeAttempts: string,
    randomTrailers: bool, disableCookies: bool, awgVersion: string, peers: seq<Peer>)

  /** What the renderer asks of the host: the module probes, and the routing hooks of the interface. */
  datatype Host = Host(awg3: bool, awg31: bool, postUp: string, postDown: string)

  /** The hook builders write single shell lines. */
  predicate HooksOnOneLine(host: Host) {
    Free(host.postUp, '\n') && Free(host.postDown, '\n')
  }

  /** confValue: drops newlines, carriage returns and NUL. */
  function ConfValue(v: string): (r: string)
    ensures Free(r, '\n') && Free(r, '\r')
    ensures forall c <- r :: c in v
  {
    if v == [] then []
    else (if v[0] == '\n' || v[0] == '\r' || v[0] as int == 0 then [] else [v[0]]) + ConfValue(v[1..])
  }

  /** AwgTimer.IsZero. */
  predicate IsZeroTimer(t: string) {
    Trim(t) == "" || Trim(t) == "0" || Trim(t) == "0-0"
  }

  /** Go's len counts bytes. */
  function Utf8Bytes(s: string): nat {
    if s == [] then 0
    else
      var n := s[0] as int;
      (if n < 0x80 then 1 else if n < 0x800 then 2 else if n < 0x1_0000 then 3 else 4) + Utf8Bytes(s[1..])
  }

  /** nlaBytes: NLA_ALIGN(4 + len + 1), a header and a terminated string rounded up to whole words. */
  function NlaBytes(v: string): nat { (Utf8Bytes(v) + 8) / 4 * 4 }

  lemma NlaBytesMeans(v: string)
    ensures NlaBytes(v) % 4 == 0 && 4 + Utf8Bytes(v) + 1 <= NlaBytes(v) < 4 + Utf8Bytes(v) + 1 + 4
    ensures |v| <= Utf8Bytes(v) <= 4 * |v|
  {
    Utf8Bound(v);
  }

  lemma {:induction false} Utf8Bound(v: string)
    ensures |v| <= Utf8Bytes(v) <= 4 * |v|
  {
    if v != [] { Utf8Bound(v[1..]); }
  }

  function IFieldBytes(v: string): nat {
    if Trim(v) == "" then 0 else NlaBytes(Trim(v))
  }

  function IBytes(inst: Instance): nat {
    IFieldBytes(inst.i1) + IFieldBytes(inst.i2) + IFieldBytes(inst.i3) + IFieldBytes(inst.i4) + IFieldBytes(inst.i5)
  }

  /** WorstCaseIBytesBudget: a 20-byte interface name attribute, minus the header-protection key if any. */
  function WorstCaseIBytesBudget(hasKey: bool): int {
    4096 - 296 - (20 - 12) - 4 - 256 - 40 - (if hasKey then 36 else 0)
  }

  function NumberField(inst: Instance, k: Key): int64 {
    match k
    case ListenPort => inst.port case MTU => inst.mtu
    case Jc => inst.jc case Jmin => inst.jmin case Jmax => inst.jmax
    case S1 => inst.s1 case S2 => inst.s2 case S3 => inst.s3 case S4 => inst.s4
    case _ => 0
  }

  predicate FlagField(inst: Instance, k: Key) {
    if k.RandomTrailers? then inst.randomTrailers else k.DisableCookies? && inst.disableCookies
  }

  function TextField(inst: Instance, k: Key): string {
    match k
    case PrivateKey => inst.privateKey case Address => inst.address
    case H1 => inst.h1 case H2 => inst.h2 case H3 => inst.h3 case H4 => inst.h4
    case HeaderProtectionKey => inst.headerProtectionKey
    case ContentPaddingAddition => inst.contentPaddingAddition
    case RekeyAfterTime => inst.rekeyAfterTime case RekeyTimeout => inst.rekeyTimeout
    case RejectAfterTime => inst.rejectAfterTime case KeepaliveTimeout => inst.keepaliveTimeout
    case MaxHandshakeAttempts => inst.maxHandshakeAttempts
    case I1 => inst.i1 case I2 => inst.i2 case I3 => inst.i3 case I4 => inst.i4 case I5 => inst.i5
    case _ => ""
  }

  predicate PacketsFit(inst: Instance) {
    IBytes(inst) <= WorstCaseIBytesBudget(Trim(inst.headerProtectionKey) != "")
  }

  /** Whether the line of a key is written at all. */
  predicate Emits(inst: Instance, host: Host, k: Key) {
    var version := Rank(NormalizeVersion(inst.awgVersion));
    match GateOf(k)
    case Always => true
    case Never => false
    case IfAddress => inst.address != ""
    case SinceV2 => version >= 1
    case Header => Trim(TextField(inst, k)) != ""
    case ProtectionKey => version >= 2 && host.awg3 && Trim(TextField(inst, k)) != ""
    case Timer => version >= 2 && host.awg3 && !IsZeroTimer(TextField(inst, k))
    case Since31 => version >= 3 && host.awg31 && FlagField(inst, k)
    case Packet => version >= 1 && PacketsFit(inst) && Trim(TextField(inst, k)) != ""
    case Hook => host.postUp != ""
  }

  function Value(inst: Instance, host: Host, k: Key): string {
    if IsNumber(k) then Itoa(NumberField(inst, k))
    else if IsFlag(k) then "on"
    else if k.Table? then "off"
    else if k.PostUp? then host.postUp
    else if k.PostDown? then host.postDown
    else ConfValue(TextField(inst, k))
  }

  // The order of the Fprintf calls.
  const LEADING: seq<Key> := [PrivateKey, ListenPort, Address, MTU, Table, Jc, Jmin, Jmax]
  const PADDINGS: seq<Key> := [S1, S2, S3, S4, H1, H2, H3, H4]
  const AWG3: seq<Key> := [HeaderProtectionKey, ContentPaddingAddition, RekeyAfterTime, RekeyTimeout, RejectAfterTime,
                           KeepaliveTimeout, MaxHandshakeAttempts, RandomTrailers, DisableCookies]
  const TRAILING: seq<Key> := [I1, I2, I3, I4, I5, PostUp, PostDown]
  const RENDER_ORDER: seq<Key> := LEADING + PADDINGS + AWG3 + TRAILING

  lemma RenderOrderComplete(k: Key)
    ensures k in RENDER_ORDER <==> k != DNS
  {
  }

  function KvLine(key: string, value: string): string { key + " = " + value }

  function FieldLine(inst: Instance, host: Host, k: Key): seq<string> {
    if Emits(inst, host, k) then [KvLine(Name(k), Value(inst, host, k))] else []
  }

  function FieldLines(inst: Instance, host: Host, keys: seq<Key>): seq<string> {
    if keys == [] then [] else FieldLine(inst, host, keys[0]) + FieldLines(inst, host, keys[1..])
  }

  function DeviceLines(inst: Instance, host: Host): seq<string> {
    [MARKER, "[Interface]"] + FieldLines(inst, host, RENDER_ORDER)
  }

  const PEER_HEADER: seq<string> := ["", "[Peer]"]

  function PeerLines(p: Peer): seq<string> {
    PEER_HEADER + [KvLine("PublicKey", ConfValue(p.publicKey))]
    + (if Trim(p.psk) != "" then [KvLine("PresharedKey", ConfValue(Trim(p.psk)))] else [])
    + (if Trim(p.allowedIPs) != "" then [KvLine("AllowedIPs", ConfValue(Trim(p.allowedIPs)))] else [])
  }

  function PeersLines(peers: seq<Peer>): seq<string> {
    if peers == [] then [] else PeerLines(peers[0]) + PeersLines(peers[1..])
  }

  /** Every line followed by a newline. */
  function Unlines(lines: seq<string>): string {
    if lines == [] then [] else lines[0] + "\n" + Unlines(lines[1..])
  }

  function DeviceText(inst: Instance, host: Host): string { Unlines(DeviceLines(inst, host)) }

  function Render(inst: Instance, host: Host): string {
    DeviceText(inst, host) + Unlines(PeersLines(inst.peers))
  }

  lemma {:induction false} UnlinesAppend(a: seq<string>, b: seq<string>)
    ensures Unlines(a + b) == Unlines(a) + Unlines(b)
  {
    if a == [] {
      assert a + b == b;
    } else {
      assert (a + b)[1..] == a[1..] + b;
      UnlinesAppend(a[1..], b);
    }
  }

  lemma {:induction false} FieldLinesAppend(inst: Instance, host: Host, a: seq<Key>, b: seq<Key>)
    ensures FieldLines(inst, host, a + b) == FieldLines(inst, host, a) + FieldLines(inst, host, b)
  {
    if a == [] {
      assert a + b == b;
    } else {
      assert (a + b)[1..] == a[1..] + b;
      FieldLinesAppend(inst, host, a[1..], b);
    }
  }

  lemma {:induction false} PeersLinesAppend(a: seq<Peer>, b: seq<Peer>)
    ensures PeersLines(a + b) == PeersLines(a) + PeersLines(b)
  {
    if a == [] {
      assert a + b == b;
    } else {
      assert (a + b)[1..] == a[1..] + b;
      PeersLinesAppend(a[1..], b);
    }
  }

  // ---------------------------------------------------------------- the lines, word for word

  /** The module knows the lines of version 3, and the instance asks for them. */
  predicate Awg3Ok(inst: Instance, host: Host) { (inst.awgVersion == "3" || inst.awgVersion == "3.1") && host.awg3 }

  /** All of I1 to I5 or none: not for version 1.5, and not past one netlink message. */
  predicate PacketsWritten(inst: Instance) {
    && inst.awgVersion != "1.5"
    && IFieldBytes(inst.i1) + IFieldBytes(inst.i2) + IFieldBytes(inst.i3) + IFieldBytes(inst.i4) + IFieldBytes(inst.i5)
         <= if Trim(inst.headerProtectionKey) != "" then 3456 else 3492
  }

  lemma PacketsGate(inst: Instance)
    ensures PacketsWritten(inst) == (Rank(NormalizeVersion(inst.awgVersion)) >= 1 && PacketsFit(inst))
  {
  }

  function When(present: bool, key: string, value: string): seq<string> {
    if present then [key + " = " + value] else []
  }

  function TimerLine(ok: bool, key: string, timer: string): seq<string> {
    When(ok && !IsZeroTimer(timer), key, ConfValue(timer))
  }

  /** The line of every key, word for word. */
  function ExpectedLine(inst: Instance, host: Host, k: Key): seq<string> {
    match k
    case DNS => []
    case PrivateKey => When(true, "PrivateKey", ConfValue(inst.privateKey))
    case ListenPort => When(true, "ListenPort", Itoa(inst.port))
    case Address => When(inst.address != "", "Address", ConfValue(inst.address))
    case MTU => When(true, "MTU", Itoa(inst.mtu))
    case Table => When(true, "Table", "off")
    case Jc => When(true, "Jc", Itoa(inst.jc))
    case Jmin => When(true, "Jmin", Itoa(inst.jmin))
    case Jmax => When(true, "Jmax", Itoa(inst.jmax))
    case S1 => When(true, "S1", Itoa(inst.s1))
    case S2 => When(true, "S2", Itoa(inst.s2))
    case S3 => When(inst.awgVersion != "1.5", "S3", Itoa(inst.s3))
    case S4 => When(inst.awgVersion != "1.5", "S4", Itoa(inst.s4))
    case H1 => When(Trim(inst.h1) != "", "H1", ConfValue(inst.h1))
    case H2 => When(Trim(inst.h2) != "", "H2", ConfValue(inst.h2))
    case H3 => When(Trim(inst.h3) != "", "H3", ConfValue(inst.h3))
    case H4 => When(Trim(inst.h4) != "", "H4", ConfValue(inst.h4))
    case HeaderProtectionKey => When(Awg3Ok(inst, host) && Trim(inst.headerProtectionKey) != "",
                                     "HeaderProtectionKey", ConfValue(inst.headerProtectionKey))
    case ContentPaddingAddition => TimerLine(Awg3Ok(inst, host), "ContentPaddingAddition", inst.contentPaddingAddition)
    case RekeyAfterTime => TimerLine(Awg3Ok(inst, host), "RekeyAfterTime", inst.rekeyAfterTime)
    case RekeyTimeout => TimerLine(Awg3Ok(inst, host), "RekeyTimeout", inst.rekeyTimeout)
    case RejectAfterTime => TimerLine(Awg3Ok(inst, host), "RejectAfterTime", inst.rejectAfterTime)
    case KeepaliveTimeout => TimerLine(Awg3Ok(inst, host), "KeepaliveTimeout", inst.keepaliveTimeout)
    case MaxHandshakeAttempts => TimerLine(Awg3Ok(inst, host), "MaxHandshakeAttempts", inst.maxHandshakeAttempts)
    case RandomTrailers => When(inst.awgVersion == "3.1" && host.awg31 && inst.randomTrailers, "RandomTrailers", "on")
    case DisableCookies => When(inst.awgVersion == "3.1" && host.awg31 && inst.disableCookies, "DisableCookies", "on")
    case I1 => When(PacketsWritten(inst) && Trim(inst.i1) != "", "I1", ConfValue(inst.i1))
    case I2 => When(PacketsWritten(inst) && Trim(inst.i2) != "", "I2", ConfValue(inst.i2))
    case I3 => When(PacketsWritten(inst) && Trim(inst.i3) != "", "I3", ConfValue(inst.i3))
    case I4 => When(PacketsWritten(inst) && Trim(inst.i4) != "", "I4", ConfValue(inst.i4))
    case I5 => When(PacketsWritten(inst) && Trim(inst.i5) != "", "I5", ConfValue(inst.i5))
    case PostUp => When(host.postUp != "", "PostUp", host.postUp)
    case PostDown => When(host.postUp != "", "PostDown", host.postDown)
  }

  lemma PlainLine(inst: Instance, host: Host, k: Key)
    requires GateOf(k).Always? || GateOf(k).IfAddress?
    ensures FieldLine(inst, host, k) == ExpectedLine(inst, host, k)
  {
  }

  lemma LateLine(inst: Instance, host: Host, k: Key)
    requires GateOf(k).SinceV2?
    ensures FieldLine(inst, host, k) == ExpectedLine(inst, host, k)
  {
    assert (Rank(NormalizeVersion(inst.awgVersion)) >= 1) == (inst.awgVersion != "1.5");
  }

  lemma HeaderLine(inst: Instance, host: Host, k: Key)
    requires GateOf(k).Header?
    ensures FieldLine(inst, host, k) == ExpectedLine(inst, host, k)
  {
  }

  lemma Awg3Line(inst: Instance, host: Host, k: Key)
    requires GateOf(k).ProtectionKey? || GateOf(k).Timer?
    ensures FieldLine(inst, host, k) == ExpectedLine(inst, host, k)
  {
    assert Awg3Ok(inst, host) == (Rank(NormalizeVersion(inst.awgVersion)) >= 2 && host.awg3);
  }

  lemma PacketLine(inst: Instance, host: Host, k: Key)
    requires GateOf(k).Packet?
    ensures FieldLine(inst, host, k) == ExpectedLine(inst, host, k)
  {
    PacketsGate(inst);
  }

  lemma LastLine(inst: Instance, host: Host, k: Key)
    requires GateOf(k).Since31? || GateOf(k).Hook? || GateOf(k).Never?
    ensures FieldLine(inst, host, k) == ExpectedLine(inst, host, k)
  {
  }

  lemma LineExpected(inst: Instance, host: Host, k: Key)
    ensures FieldLine(inst, host, k) == ExpectedLine(inst, host, k)
  {
    match GateOf(k) {
      case Header => HeaderLine(inst, host, k);
      case ProtectionKey => Awg3Line(inst, host, k);
      case Timer => Awg3Line(inst, host, k);
      case Packet => PacketLine(inst, host, k);
      case Always => PlainLine(inst, host, k);
      case SinceV2 => LateLine(inst, host, k);
      case IfAddress => PlainLine(inst, host, k);
      case _ => LastLine(inst, host, k);
    }
  }

  function ExpectedLines(inst: Instance, host: Host, keys: seq<Key>): seq<string> {
    if keys == [] then [] else ExpectedLine(inst, host, keys[0]) + ExpectedLines(inst, host, keys[1..])
  }

  lemma {:induction false} LinesExpected(inst: Instance, host: Host, keys: seq<Key>)
    ensures FieldLines(inst, host, keys) == ExpectedLines(inst, host, keys)
  {
    if keys != [] {
      LineExpected(inst, host, keys[0]);
      LinesExpected(inst, host, keys[1..]);
    }
  }

  lemma OrderInFile()
    ensures RENDER_ORDER == [
      PrivateKey, ListenPort, Address, MTU, Table, Jc, Jmin, Jmax, S1, S2, S3, S4, H1, H2, H3, H4,
      HeaderProtectionKey, ContentPaddingAddition, RekeyAfterTime, RekeyTimeout, RejectAfterTime, KeepaliveTimeout,
      MaxHandshakeAttempts, RandomTrailers, DisableCookies, I1, I2, I3, I4, I5, PostUp, PostDown]
  {
  }

  // ---------------------------------------------------------------- the renderer

  /** The [Interface] block, key by key. */
  method RenderInterface(inst: Instance, host: Host) returns (conf: string)
    ensures conf == DeviceText(inst, host)
    ensures conf == Unlines([MARKER, "[Interface]"] + ExpectedLines(inst, host, RENDER_ORDER))
  {
    ghost var head := [MARKER, "[Interface]"];
    conf := Unlines([MARKER, "[Interface]"]);
    assert head + FieldLines(inst, host, []) == head;
    for i := 0 to |RENDER_ORDER|
      invariant conf == Unlines(head + FieldLines(inst, host, RENDER_ORDER[..i]))
    {
      var k := RENDER_ORDER[i];
      if Emits(inst, host, k) {
        conf := conf + KvLine(Name(k), Value(inst, host, k)) + "\n";
      }
      FieldStep(inst, host, head, RENDER_ORDER, i);
    }
    assert RENDER_ORDER[..|RENDER_ORDER|] == RENDER_ORDER;
    LinesExpected(inst, host, RENDER_ORDER);
  }

  lemma FieldStep(inst: Instance, host: Host, head: seq<string>, order: seq<Key>, i: nat)
    requires i < |order|
    ensures Unlines(head + FieldLines(inst, host, order[..i + 1]))
         == Unlines(head + FieldLines(inst, host, order[..i])) + Unlines(FieldLine(inst, host, order[i]))
  {
    var k := order[i];
    var done := FieldLines(inst, host, order[..i]);
    assert order[..i + 1] == order[..i] + [k];
    FieldLinesAppend(inst, host, order[..i], [k]);
    assert FieldLines(inst, host, [k]) == FieldLine(inst, host, k);
    assert head + (done + FieldLine(inst, host, k)) == (head + done) + FieldLine(inst, host, k);
    UnlinesAppend(head + done, FieldLine(inst, host, k));
  }

  /** One [Peer] block; an absent preshared key or address is left out, never written empty. */
  method RenderPeer(p: Peer) returns (block: string)
    ensures block == Unlines(PeerLines(p))
  {
    PeerHeaderText();
    PeerText(p);
    block := "\n[Peer]\n" + KvLine("PublicKey", ConfValue(p.publicKey)) + "\n";
    if Trim(p.psk) != "" {
      block := block + (KvLine("PresharedKey", ConfValue(Trim(p.psk))) + "\n");
    }
    if Trim(p.allowedIPs) != "" {
      block := block + (KvLine("AllowedIPs", ConfValue(Trim(p.allowedIPs))) + "\n");
    }
  }

  /** renderServerConf: the interface block, then one block per peer. */
  method RenderServerConf(inst: Instance, host: Host) returns (conf: string)
    ensures conf == Render(inst, host)
    ensures conf == Unlines([MARKER, "[Interface]"] + ExpectedLines(inst, host, RENDER_ORDER))
                    + Unlines(PeersLines(inst.peers))
  {
    var device := RenderInterface(inst, host);
    var blocks := "";
    for i := 0 to |inst.peers|
      invariant blocks == Unlines(PeersLines(inst.peers[..i]))
    {
      var block := RenderPeer(inst.peers[i]);
      PeersStep(inst.peers, i);
      blocks := blocks + block;
    }
    assert inst.peers[..|inst.peers|] == inst.peers;
    conf := device + blocks;
  }

  lemma PeersStep(peers: seq<Peer>, i: nat)
    requires i < |peers|
    ensures Unlines(PeersLines(peers[..i + 1])) == Unlines(PeersLines(peers[..i])) + Unlines(PeerLines(peers[i]))
  {
    assert peers[..i + 1] == peers[..i] + [peers[i]];
    PeersLinesAppend(peers[..i], [peers[i]]);
    assert [peers[i]][1..] == [];
    assert PeersLines([peers[i]]) == PeerLines(peers[i]) + [] == PeerLines(peers[i]);
    UnlinesAppend(PeersLines(peers[..i]), PeerLines(peers[i]));
  }

  lemma PeerHeaderText()
    ensures Unlines(PEER_HEADER) == "\n[Peer]\n"
  {
    assert PEER_HEADER[1..] == ["[Peer]"];
    assert Unlines(["[Peer]"]) == "[Peer]\n";
  }

  lemma PeerText(p: Peer)
    ensures Unlines(PeerLines(p))
         == Unlines(PEER_HEADER) + KvLine("PublicKey", ConfValue(p.publicKey)) + "\n"
            + (if Trim(p.psk) != "" then KvLine("PresharedKey", ConfValue(Trim(p.psk))) + "\n" else [])
            + (if Trim(p.allowedIPs) != "" then KvLine("AllowedIPs", ConfValue(Trim(p.allowedIPs))) + "\n" else [])
  {
    var pub := [KvLine("PublicKey", ConfValue(p.publicKey))];
    var psk := if Trim(p.psk) != "" then [KvLine("PresharedKey", ConfValue(Trim(p.psk)))] else [];
    var ips := if Trim(p.allowedIPs) != "" then [KvLine("AllowedIPs", ConfValue(Trim(p.allowedIPs)))] else [];
    BlocksText(PEER_HEADER, pub, psk, ips);
  }

  lemma BlocksText(a: seq<string>, b: seq<string>, c: seq<string>, d: seq<string>)
    requires |b| == 1 && |c| <= 1 && |d| <= 1
    ensures Unlines(a + b + c + d)
         == Unlines(a) + b[0] + "\n" + (if c == [] then [] else c[0] + "\n") + (if d == [] then [] else d[0] + "\n")
  {
    UnlinesAppend(a + b + c, d);
    UnlinesAppend(a + b, c);
    UnlinesAppend(a, b);
  }
}
