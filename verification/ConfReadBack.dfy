/** What the parser reads from a rendered server file, field by field. */
module ConfReadBack {
  import opened Text
  import opened ConfModel
  import opened ConfRender
  import opened ConfParse
  import opened ConfRoundTrip

  /** A text as the file holds it and the parser returns it. */
  function Stored(v: string): string { Trim(ConfValue(v)) }

  function StoredTimer(ok: bool, timer: string): string { if ok && !IsZeroTimer(timer) then Stored(timer) else "" }

  function StoredPacket(inst: Instance, packet: string): string {
    if PacketsWritten(inst) then Stored(packet) else ""
  }

  /** The setting of every key in terms of the instance alone. */
  function Expected(inst: Instance, host: Host, k: Key): Setting {
    match k
    case PrivateKey => Txt(Stored(inst.privateKey))
    case Address => Txt(FirstAddress(Stored(inst.address)))
    case ListenPort => Num(inst.port)
    case MTU => Num(inst.mtu)
    case DNS | Table | PostUp | PostDown => Txt("")
    case Jc => Num(inst.jc)
    case Jmin => Num(inst.jmin)
    case Jmax => Num(inst.jmax)
    case S1 => Num(inst.s1)
    case S2 => Num(inst.s2)
    case S3 => Num(if inst.awgVersion != "1.5" then inst.s3 else 0)
    case S4 => Num(if inst.awgVersion != "1.5" then inst.s4 else 0)
    case H1 => Txt(Stored(inst.h1))
    case H2 => Txt(Stored(inst.h2))
    case H3 => Txt(Stored(inst.h3))
    case H4 => Txt(Stored(inst.h4))
    case HeaderProtectionKey => Txt(if Awg3Ok(inst, host) then Stored(inst.headerProtectionKey) else "")
    case ContentPaddingAddition => Txt(StoredTimer(Awg3Ok(inst, host), inst.contentPaddingAddition))
    case RekeyAfterTime => Txt(StoredTimer(Awg3Ok(inst, host), inst.rekeyAfterTime))
    case RekeyTimeout => Txt(StoredTimer(Awg3Ok(inst, host), inst.rekeyTimeout))
    case RejectAfterTime => Txt(StoredTimer(Awg3Ok(inst, host), inst.rejectAfterTime))
    case KeepaliveTimeout => Txt(StoredTimer(Awg3Ok(inst, host), inst.keepaliveTimeout))
    case MaxHandshakeAttempts => Txt(StoredTimer(Awg3Ok(inst, host), inst.maxHandshakeAttempts))
    case RandomTrailers => Flag(inst.awgVersion == "3.1" && host.awg31 && inst.randomTrailers)
    case DisableCookies => Flag(inst.awgVersion == "3.1" && host.awg31 && inst.disableCookies)
    case I1 => Txt(StoredPacket(inst, inst.i1))
    case I2 => Txt(StoredPacket(inst, inst.i2))
    case I3 => Txt(StoredPacket(inst, inst.i3))
    case I4 => Txt(StoredPacket(inst, inst.i4))
    case I5 => Txt(StoredPacket(inst, inst.i5))
  }

  lemma BlankStored(v: string)
    requires Trim(v) == ""
    ensures Stored(v) == ""
  {
    TrimRightFirst(TrimLeft(v));
    TrimEmptyBothSides(TrimLeft(v));
    TrimLeftFirst(v);
    TrimEmptyBothSides(v);
    assert TrimLeft(v) == [];
    TrimEmptyBothSides(ConfValue(v));
  }

  lemma NumberExpected(inst: Instance, host: Host, k: Key)
    requires IsNumber(k)
    ensures Written(inst, host, k) == Expected(inst, host, k)
  {
    ItoaPlain(NumberField(inst, k));
    ParseItoa(NumberField(inst, k));
  }

  lemma FlagExpected(inst: Instance, host: Host, k: Key)
    requires IsFlag(k)
    ensures Written(inst, host, k) == Expected(inst, host, k)
  {
    OnIsTrue();
  }

  predicate IsText(k: Key) { !IsNumber(k) && !IsFlag(k) && Known(k) && k != DNS && k != Address }

  lemma TextWritten(inst: Instance, host: Host, k: Key, v: string)
    requires IsText(k) && v == TextField(inst, k)
    ensures Written(inst, host, k) == Txt(if Emits(inst, host, k) then Stored(v) else "")
  {
  }

  /** A blank text is left out, and would have been read as blank. */
  lemma BlankOrNot(inst: Instance, host: Host, k: Key, v: string, allowed: bool)
    requires IsText(k) && v == TextField(inst, k) && Emits(inst, host, k) == (allowed && Trim(v) != "")
    ensures Written(inst, host, k) == Txt(if allowed then Stored(v) else "")
  {
    TextWritten(inst, host, k, v);
    if Trim(v) == "" { BlankStored(v); }
  }

  lemma TimerExpected(inst: Instance, host: Host, k: Key)
    requires GateOf(k).Timer?
    ensures Written(inst, host, k) == Txt(StoredTimer(Awg3Ok(inst, host), TextField(inst, k)))
  {
    TextWritten(inst, host, k, TextField(inst, k));
    assert (Rank(NormalizeVersion(inst.awgVersion)) >= 2) == (inst.awgVersion == "3" || inst.awgVersion == "3.1");
  }

  lemma PacketExpected(inst: Instance, host: Host, k: Key)
    requires GateOf(k).Packet?
    ensures Written(inst, host, k) == Txt(StoredPacket(inst, TextField(inst, k)))
  {
    PacketsGate(inst);
    BlankOrNot(inst, host, k, TextField(inst, k), PacketsWritten(inst));
  }

  lemma HeaderExpected(inst: Instance, host: Host, k: Key)
    requires GateOf(k).Header?
    ensures Written(inst, host, k) == Txt(Stored(TextField(inst, k)))
  {
    BlankOrNot(inst, host, k, TextField(inst, k), true);
  }

  lemma KeyExpected(inst: Instance, host: Host)
    ensures Written(inst, host, HeaderProtectionKey)
         == Txt(if Awg3Ok(inst, host) then Stored(inst.headerProtectionKey) else "")
  {
    assert (Rank(NormalizeVersion(inst.awgVersion)) >= 2) == (inst.awgVersion == "3" || inst.awgVersion == "3.1");
    BlankOrNot(inst, host, HeaderProtectionKey, inst.headerProtectionKey, Awg3Ok(inst, host));
  }

  lemma WrittenExpected(inst: Instance, host: Host, k: Key)
    requires k != Address
    ensures Written(inst, host, k) == Expected(inst, host, k)
  {
    match GateOf(k) {
      case Timer => TimerExpected(inst, host, k);
      case Packet => PacketExpected(inst, host, k);
      case Header => HeaderExpected(inst, host, k);
      case ProtectionKey => KeyExpected(inst, host);
      case Since31 => FlagExpected(inst, host, k);
      case SinceV2 => NumberExpected(inst, host, k);
      case _ =>
        if IsNumber(k) {
          NumberExpected(inst, host, k);
        } else if k == PrivateKey {
          TextWritten(inst, host, k, inst.privateKey);
        }
    }
  }

  predicate ReadsAs(f: map<Key, Setting>, inst: Instance, host: Host) {
    forall k :: Get(f, k) == Expected(inst, host, k)
  }

  /** Reading a rendered file: every key has the setting that the instance's own field calls for. */
  lemma ReadBack(inst: Instance, host: Host)
    requires HooksOnOneLine(host)
    ensures ReadsAs(Parse(Render(inst, host)).fields, inst, host)
  {
    RoundTrip(inst, host);
    forall k | k != Address ensures Written(inst, host, k) == Expected(inst, host, k) {
      WrittenExpected(inst, host, k);
    }
  }

  // ---------------------------------------------------------------- instances without stray white space

  /** A clean text comes back as it is, and so does a single address. */
  lemma CleanStored(v: string)
    requires Clean(v)
    ensures Stored(v) == v && (',' !in v ==> FirstAddress(Stored(v)) == v)
  {
    CleanKept(v);
  }

  /** A clean text that is in the file is read back as it is. */
  lemma TextReadBack(inst: Instance, host: Host, k: Key, v: string)
    requires HooksOnOneLine(host) && Expected(inst, host, k) == Txt(Stored(v)) && Clean(v)
    ensures Get(Parse(Render(inst, host)).fields, k) == Txt(v)
  {
    ReadBack(inst, host);
    CleanStored(v);
  }

  /** Clean peers come back whole and in order. */
  lemma RoundTripClean(inst: Instance, host: Host)
    requires HooksOnOneLine(host) && forall p <- inst.peers :: CleanPeer(p)
    ensures |Parse(Render(inst, host)).peers| == |inst.peers|
    ensures forall i :: 0 <= i < |inst.peers| ==> Parse(Render(inst, host)).peers[i] == PeerOf(inst.peers[i])
    ensures ReadsAs(Parse(Render(inst, host)).fields, inst, host)
  {
    RoundTrip(inst, host);
    CleanPeersRecovered(inst.peers);
    ReadBack(inst, host);
  }

  // ---------------------------------------------------------------- the lines of the file

  /** The lines of a rendered file: the marker, the section, the expected line of every key in turn, the peers. */
  lemma FileLinesExpected(inst: Instance, host: Host)
    requires HooksOnOneLine(host)
    ensures Split(Render(inst, host), '\n')
         == [MARKER, "[Interface]"] + ExpectedLines(inst, host, RENDER_ORDER) + PeersLines(inst.peers) + [""]
  {
    RenderedLines(inst, host);
    LinesExpected(inst, host, RENDER_ORDER);
  }

  lemma {:induction false} ListedLine(inst: Instance, host: Host, keys: seq<Key>, k: Key, line: string)
    requires k in keys && ExpectedLine(inst, host, k) == [line]
    ensures line in ExpectedLines(inst, host, keys)
  {
    if keys[0] != k { ListedLine(inst, host, keys[1..], k, line); }
  }

  lemma InFile(inst: Instance, host: Host, k: Key, line: string)
    requires HooksOnOneLine(host) && ExpectedLine(inst, host, k) == [line]
    ensures line in Split(Render(inst, host), '\n')
  {
    RenderOrderComplete(k);
    ListedLine(inst, host, RENDER_ORDER, k, line);
    FileLinesExpected(inst, host);
  }

  /** So the paddings stand under their own names. */
  lemma PaddingsInFile(inst: Instance, host: Host)
    requires HooksOnOneLine(host)
    ensures "S1" + " = " + Itoa(inst.s1) in Split(Render(inst, host), '\n')
    ensures "S2" + " = " + Itoa(inst.s2) in Split(Render(inst, host), '\n')
  {
    InFile(inst, host, S1, "S1" + " = " + Itoa(inst.s1));
    InFile(inst, host, S2, "S2" + " = " + Itoa(inst.s2));
  }

  lemma LatePaddingsInFile(inst: Instance, host: Host)
    requires HooksOnOneLine(host) && inst.awgVersion != "1.5"
    ensures "S3" + " = " + Itoa(inst.s3) in Split(Render(inst, host), '\n')
    ensures "S4" + " = " + Itoa(inst.s4) in Split(Render(inst, host), '\n')
  {
    InFile(inst, host, S3, "S3" + " = " + Itoa(inst.s3));
    InFile(inst, host, S4, "S4" + " = " + Itoa(inst.s4));
  }
}
