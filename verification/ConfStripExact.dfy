/** What stripAwgQuick (internal/awg/manager.go) leaves: of a rendered file, exactly the lines awg understands; of any
    text, what the parser can still find of the keys it should have lost. */
module ConfStripExact {
  import opened Text
  import opened ConfModel
  import opened ConfRender
  import opened ConfParse
  import opened ConfRoundTrip
  import opened ConfStrip

  // ---------------------------------------------------------------- rendered files

  /** The keys of the renderer only awg-quick understands. */
  predicate Quick(k: Key) { k in {Address, MTU, DNS, Table, PostUp, PostDown} }

  lemma QuickLowered()
    ensures QuickKey("Address") && QuickKey("MTU") && QuickKey("DNS")
    ensures QuickKey("Table") && QuickKey("PostUp") && QuickKey("PostDown")
  {
    assert ToLower("Address") == "address" && ToLower("MTU") == "mtu" && ToLower("DNS") == "dns";
    assert ToLower("Table") == "table" && ToLower("PostUp") == "postup" && ToLower("PostDown") == "postdown";
  }

  lemma QuickNameIff(k: Key)
    ensures QuickKey(Name(k)) <==> Quick(k)
  {
    if Quick(k) {
      QuickLowered();
    } else if QuickKey(Name(k)) {
      QuickNames(k);
    }
  }

  /** The stripper reads a rendered line as its key. */
  lemma StripKeyOfField(k: Key, v: string)
    ensures StripKey(KvLine(Name(k), v)) == Name(k)
  {
    var key, line := Name(k), KvLine(Name(k), v);
    NamePlain(k);
    NameLetters(k);
    KvTrimmed(key, v);
    CutAt(key + " ", '=', TrimRight(" " + v));
    assert Trim(line) == (key + " ") + ['='] + TrimRight(" " + v);
    TrimPadded("", key, " ");
    assert "" + key + " " == key + " ";
    TrimOfTrimmed(key);
    SameKey(line);
  }

  function KeptKeys(keys: seq<Key>): seq<Key> {
    if keys == [] then [] else (if Quick(keys[0]) then [] else [keys[0]]) + KeptKeys(keys[1..])
  }

  lemma StripField(inst: Instance, host: Host, k: Key)
    ensures StripLines(true, FieldLine(inst, host, k)) == if Quick(k) then [] else FieldLine(inst, host, k)
    ensures Final(true, FieldLine(inst, host, k))
  {
    if Emits(inst, host, k) {
      var line := KvLine(Name(k), Value(inst, host, k));
      StripKeyOfField(k, Value(inst, host, k));
      QuickNameIff(k);
      NameShape(k);
      NamePlain(k);
      DroppedIs(true, line);
      StripOne(true, line);
    }
  }

  lemma {:induction false} StripFields(inst: Instance, host: Host, keys: seq<Key>)
    ensures StripLines(true, FieldLines(inst, host, keys)) == FieldLines(inst, host, KeptKeys(keys))
    ensures Final(true, FieldLines(inst, host, keys))
  {
    if keys != [] {
      StripLinesAppend(true, FieldLine(inst, host, keys[0]), FieldLines(inst, host, keys[1..]));
      FinalAppend(true, FieldLine(inst, host, keys[0]), FieldLines(inst, host, keys[1..]));
      StripField(inst, host, keys[0]);
      StripFields(inst, host, keys[1..]);
      if !Quick(keys[0]) {
        FieldLinesAppend(inst, host, [keys[0]], KeptKeys(keys[1..]));
        assert FieldLines(inst, host, [keys[0]]) == FieldLine(inst, host, keys[0]);
      } else {
        assert [] + KeptKeys(keys[1..]) == KeptKeys(keys[1..]);
      }
    }
  }

  /** Outside [Interface] nothing goes. */
  lemma {:induction false} StripOutside(lines: seq<string>)
    requires NoHeader(lines)
    ensures StripLines(false, lines) == lines && !Final(false, lines)
  {
    if lines != [] {
      StripOutside(lines[1..]);
      assert lines == [lines[0]] + lines[1..];
    }
  }

  lemma PlainNoHeader(key: string, v: string)
    requires PlainKey(key)
    ensures !IsHeader(StripKey(KvLine(key, v)))
  {
    KvTrimmed(key, v);
    HeadersAgree(KvLine(key, v));
    assert Trim(KvLine(key, v))[0] == key[0];
  }

  /** A line without comment or value is its own key; a comment has none. */
  lemma StripKeyOfWord(l: string)
    requires IsTrimmed(l) && Free(l, '#') && Free(l, '=')
    ensures StripKey(l) == l
  {
    CutMissing(l, '#');
    TrimOfTrimmed(l);
  }

  lemma StripKeyOfComment(l: string)
    requires l != [] && l[0] == '#'
    ensures StripKey(l) == ""
  {
    assert Trim("") == "";
  }

  lemma BlankIsNoKey()
    ensures !QuickKey("") && StripKey("") == ""
  {
    assert ToLower("") == "";
    assert Trim("") == "";
  }

  predicate NoHeader(lines: seq<string>) { forall l <- lines :: !IsHeader(StripKey(l)) }

  function KeyLine(p: Peer): string { KvLine("PublicKey", ConfValue(p.publicKey)) }
  function PskLine(p: Peer): string { KvLine("PresharedKey", ConfValue(Trim(p.psk))) }
  function IPsLine(p: Peer): string { KvLine("AllowedIPs", ConfValue(Trim(p.allowedIPs))) }

  /** A peer block after its header. */
  function PeerBody(p: Peer): seq<string> {
    [KeyLine(p)] + (if Trim(p.psk) != "" then [PskLine(p)] else []) + (if Trim(p.allowedIPs) != "" then [IPsLine(p)] else [])
  }

  lemma PeerBodyPlain(p: Peer)
    ensures NoHeader(PeerBody(p))
  {
    PeerNoHeaders(p);
    NoHeaders(KeyLine(p), PskLine(p), IPsLine(p), if Trim(p.psk) != "" then [PskLine(p)] else [],
              if Trim(p.allowedIPs) != "" then [IPsLine(p)] else []);
  }

  lemma PeerNoHeaders(p: Peer)
    ensures !IsHeader(StripKey(KeyLine(p))) && !IsHeader(StripKey(PskLine(p))) && !IsHeader(StripKey(IPsLine(p)))
  {
    PeerKeysPlain();
    PlainNoHeader("PublicKey", ConfValue(p.publicKey));
    PlainNoHeader("PresharedKey", ConfValue(Trim(p.psk)));
    PlainNoHeader("AllowedIPs", ConfValue(Trim(p.allowedIPs)));
  }

  lemma PeerKeysPlain()
    ensures PlainKey("PublicKey") && PlainKey("PresharedKey") && PlainKey("AllowedIPs")
  {
  }

  lemma NoHeaders(a: string, b: string, c: string, bs: seq<string>, cs: seq<string>)
    requires !IsHeader(StripKey(a)) && !IsHeader(StripKey(b)) && !IsHeader(StripKey(c))
    requires bs in {[], [b]} && cs in {[], [c]}
    ensures NoHeader([a] + bs + cs)
  {
  }

  lemma StripPeer(inInterface: bool, p: Peer)
    ensures StripLines(inInterface, PeerLines(p)) == PeerLines(p) && !Final(inInterface, PeerLines(p))
  {
    PeerBodyPlain(p);
    assert PeerLines(p) == PEER_HEADER + PeerBody(p);
    StripBlock(inInterface, PeerBody(p));
  }

  lemma StripBlock(inInterface: bool, body: seq<string>)
    requires NoHeader(body)
    ensures StripLines(inInterface, PEER_HEADER + body) == PEER_HEADER + body && !Final(inInterface, PEER_HEADER + body)
  {
    StripPeerHeader(inInterface);
    StripLinesAppend(inInterface, PEER_HEADER, body);
    FinalAppend(inInterface, PEER_HEADER, body);
    StripOutside(body);
  }

  lemma StripPeerHeader(inInterface: bool)
    ensures StripLines(inInterface, PEER_HEADER) == PEER_HEADER && !Final(inInterface, PEER_HEADER)
  {
    BlankIsNoKey();
    StripKeyOfWord("[Peer]");
    StripTwo(inInterface, "", "[Peer]");
  }

  lemma StripTwo(inInterface: bool, a: string, b: string)
    requires !Dropped(inInterface, a) && !Dropped(NextInInterface(inInterface, a), b)
    ensures StripLines(inInterface, [a, b]) == [a, b]
    ensures Final(inInterface, [a, b]) == NextInInterface(NextInInterface(inInterface, a), b)
  {
    assert [a, b] == [a] + [b];
    StripOne(inInterface, a);
    StripOne(NextInInterface(inInterface, a), b);
    StripLinesAppend(inInterface, [a], [b]);
    FinalAppend(inInterface, [a], [b]);
  }

  lemma {:induction false} StripPeers(inInterface: bool, peers: seq<Peer>)
    ensures StripLines(inInterface, PeersLines(peers)) == PeersLines(peers)
  {
    if peers != [] {
      StripLinesAppend(inInterface, PeerLines(peers[0]), PeersLines(peers[1..]));
      StripPeer(inInterface, peers[0]);
      StripPeers(false, peers[1..]);
    }
  }

  lemma StripHead()
    ensures StripLines(false, [MARKER, "[Interface]"]) == [MARKER, "[Interface]"]
    ensures Final(false, [MARKER, "[Interface]"])
  {
    StripKeyOfComment(MARKER);
    StripKeyOfWord("[Interface]");
    StripTwo(false, MARKER, "[Interface]");
  }

  lemma StripBlank(inInterface: bool)
    ensures StripLines(inInterface, [""]) == [""]
  {
    BlankIsNoKey();
    StripOne(inInterface, "");
  }

  lemma StripFile(inst: Instance, host: Host, keys: seq<Key>)
    ensures StripLines(false, FileLines(inst, host, keys) + [""]) == FileLines(inst, host, KeptKeys(keys)) + [""]
  {
    var head := [MARKER, "[Interface]"];
    var fields, peers := FieldLines(inst, host, keys), PeersLines(inst.peers);
    StripLinesAppend(false, head + fields + peers, [""]);
    StripLinesAppend(false, head + fields, peers);
    StripLinesAppend(false, head, fields);
    FinalAppend(false, head, fields);
    StripHead();
    StripFields(inst, host, keys);
    StripPeers(true, inst.peers);
    StripBlank(Final(false, head + fields + peers));
  }

  /** What the renderer writes apart from Address, MTU, Table, PostUp and PostDown. */
  const KEPT_LEADING: seq<Key> := [PrivateKey, ListenPort, Jc, Jmin, Jmax]
  const KEPT_TRAILING: seq<Key> := [I1, I2, I3, I4, I5]
  const KEPT_ORDER: seq<Key> := KEPT_LEADING + PADDINGS + AWG3 + KEPT_TRAILING

  lemma {:induction false} KeptKeysAppend(a: seq<Key>, b: seq<Key>)
    ensures KeptKeys(a + b) == KeptKeys(a) + KeptKeys(b)
  {
    if a == [] {
      assert a + b == b;
    } else {
      assert (a + b)[1..] == a[1..] + b;
      KeptKeysAppend(a[1..], b);
    }
  }

  lemma {:induction false} KeptWhole(keys: seq<Key>)
    requires forall k <- keys :: !Quick(k)
    ensures KeptKeys(keys) == keys
  {
    if keys != [] {
      KeptWhole(keys[1..]);
      assert keys == [keys[0]] + keys[1..];
    }
  }

  lemma {:induction false} KeptNone(keys: seq<Key>)
    requires forall k <- keys :: Quick(k)
    ensures KeptKeys(keys) == []
  {
    if keys != [] { KeptNone(keys[1..]); }
  }

  lemma KeptLeading()
    ensures KeptKeys(LEADING) == KEPT_LEADING
  {
    KeptAround([PrivateKey, ListenPort], [Address, MTU, Table], [Jc, Jmin, Jmax]);
    assert LEADING == [PrivateKey, ListenPort] + [Address, MTU, Table] + [Jc, Jmin, Jmax];
  }

  lemma KeptAround(a: seq<Key>, b: seq<Key>, c: seq<Key>)
    requires (forall k <- a :: !Quick(k)) && (forall k <- b :: Quick(k)) && (forall k <- c :: !Quick(k))
    ensures KeptKeys(a + b + c) == a + c
  {
    KeptWhole(a);
    KeptNone(b);
    KeptWhole(c);
    KeptThree(a, b, c);
    assert a + [] == a;
  }

  lemma KeptThree(a: seq<Key>, b: seq<Key>, c: seq<Key>)
    ensures KeptKeys(a + b + c) == KeptKeys(a) + KeptKeys(b) + KeptKeys(c)
  {
    KeptKeysAppend(a + b, c);
    KeptKeysAppend(a, b);
  }

  lemma KeptTrailing()
    ensures KeptKeys(TRAILING) == KEPT_TRAILING
  {
    KeptAround(KEPT_TRAILING, [PostUp, PostDown], []);
    assert TRAILING == KEPT_TRAILING + [PostUp, PostDown] + [];
  }

  lemma KeptFour(a: seq<Key>, b: seq<Key>, c: seq<Key>, d: seq<Key>, ka: seq<Key>, kd: seq<Key>)
    requires KeptKeys(a) == ka && KeptKeys(d) == kd && (forall k <- b :: !Quick(k)) && (forall k <- c :: !Quick(k))
    ensures KeptKeys(a + b + c + d) == ka + b + c + kd
  {
    KeptKeysAppend(a + b + c, d);
    KeptThree(a, b, c);
    KeptWhole(b);
    KeptWhole(c);
  }

  lemma NoQuickPaddings()
    ensures forall k <- PADDINGS :: !Quick(k)
  {
  }

  lemma NoQuickAwg3()
    ensures forall k <- AWG3 :: !Quick(k)
  {
  }

  lemma KeptRendered()
    ensures KeptKeys(RENDER_ORDER) == KEPT_ORDER
  {
    KeptLeading();
    KeptTrailing();
    NoQuickPaddings();
    NoQuickAwg3();
    KeptFour(LEADING, PADDINGS, AWG3, TRAILING, KEPT_LEADING, KEPT_TRAILING);
  }

  lemma {:induction false} JoinIsUnlines(lines: seq<string>)
    requires AllFree(lines, '\n')
    ensures Join(lines + [""], '\n') == Unlines(lines)
  {
    SplitUnlines(lines);
    JoinSplit(Unlines(lines), '\n');
  }

  lemma FileLinesFree(inst: Instance, host: Host, keys: seq<Key>)
    requires HooksOnOneLine(host)
    ensures AllFree(FileLines(inst, host, keys), '\n')
  {
    FieldLinesFree(inst, host, keys);
    PeersLinesFree(inst.peers);
    assert Free(MARKER, '\n') && Free("[Interface]", '\n');
    AllFreeThree([MARKER, "[Interface]"], FieldLines(inst, host, keys), PeersLines(inst.peers));
  }

  lemma AllFreeThree(a: seq<string>, b: seq<string>, c: seq<string>)
    requires AllFree(a, '\n') && AllFree(b, '\n') && AllFree(c, '\n')
    ensures AllFree(a + b + c, '\n')
  {
  }

  /** For every instance and host, a stripped server file is the rendered one without the lines of Address, MTU, Table,
      PostUp and PostDown; every other line stays, in order. */
  lemma StrippedRendering(inst: Instance, host: Host)
    requires HooksOnOneLine(host)
    ensures Strip(Render(inst, host)) == Unlines(FileLines(inst, host, KEPT_ORDER))
  {
    RenderedLines(inst, host);
    StripFile(inst, host, RENDER_ORDER);
    KeptRendered();
    FileLinesFree(inst, host, KEPT_ORDER);
    JoinIsUnlines(FileLines(inst, host, KEPT_ORDER));
  }

  lemma KeptListed(k: Key)
    ensures k in KEPT_ORDER <==> !Quick(k)
  {
  }

  lemma KeptFields(inst: Instance, host: Host, k: Key)
    ensures Get(ApplyFields(map[], inst, host, KEPT_ORDER), k) == if Lost(k) then Zero(k) else Written(inst, host, k)
  {
    GetApplied(map[], inst, host, KEPT_ORDER, k);
    KeptListed(k);
  }

  /** And it reads back with no address, no MTU and no DNS server, with everything else as written. */
  lemma StrippedRenderingParses(inst: Instance, host: Host)
    requires HooksOnOneLine(host)
    ensures var conf := Parse(Strip(Render(inst, host)));
            && conf.peers == RecoveredPeers(inst.peers)
            && conf.version == Parse(Render(inst, host)).version
            && forall k :: Get(conf.fields, k) == if Lost(k) then Zero(k) else Written(inst, host, k)
  {
    StrippedRendering(inst, host);
    StripPreserves(Render(inst, host));
    FileLinesFree(inst, host, KEPT_ORDER);
    SplitUnlines(FileLines(inst, host, KEPT_ORDER));
    FileParsed(inst, host, KEPT_ORDER);
    KeptFirst(inst, host);
  }

  lemma KeptFirst(inst: Instance, host: Host)
    ensures var fields := KeepFirstAddress(ApplyFields(map[], inst, host, KEPT_ORDER));
            forall k :: Get(fields, k) == if Lost(k) then Zero(k) else Written(inst, host, k)
  {
    var fields := ApplyFields(map[], inst, host, KEPT_ORDER);
    KeptFields(inst, host, Address);
    forall k ensures Get(KeepFirstAddress(fields), k) == if Lost(k) then Zero(k) else Written(inst, host, k) {
      KeptFields(inst, host, k);
      FirstAddressKept(fields, k);
    }
  }

  // ---------------------------------------------------------------- any text

  /** A line the parser takes as an assignment to the key, when in [Interface]. */
  predicate Assigns(line: string, k: Key) {
    var t := Trim(line);
    t != "" && t[0] !in {'[', '#', ';'} && '=' in t && KeyOf(Trim(Cut(t, '=').0)) == Some(k)
  }

  lemma AssignsIs(st: State, line: string, k: Key)
    ensures k in ParseLine(st, line).fields <==> k in st.fields || (st.section == "interface" && Assigns(line, k))
  {
    var t := Trim(line);
    if t != "" && t[0] !in {'[', '#', ';'} {
      CutParts(t, '=');
      var (key, val, ok) := Cut(t, '=');
      if ok { ApplyDomain(st, Trim(key), Trim(val), k); }
    }
  }

  lemma ApplyDomain(st: State, key: string, val: string, k: Key)
    ensures k in ApplyKey(st, key, val).fields <==> k in st.fields || (st.section == "interface" && KeyOf(key) == Some(k))
  {
  }

  /** A line that assigns one of the three keys is one the stripper knows. */
  lemma AssignmentIsQuick(line: string, k: Key)
    requires Lost(k) && Assigns(line, k)
    ensures QuickKey(StripKey(line))
  {
    var t := Trim(line);
    var kb := Cut(t, '=').0;
    FindOnlyName(Trim(kb), KNOWN_KEYS);
    NameLetters(k);
    if '#' in kb { TrimKeeps(kb, '#'); }
    SameKey(line);
    QuickNameIff(k);
  }

  /** The section the parser believes to be in after a header line. */
  function SectionAfter(lines: seq<string>): string {
    if LastHeader(lines).None? then "" else SectionName(Trim(LastHeader(lines).value))
  }

  lemma SectionStep(st: State, line: string)
    ensures ParseLine(st, line).section == if IsHeader(StripKey(line)) then SectionName(Trim(line)) else st.section
  {
    HeadersAgree(line);
  }

  lemma {:induction false} SectionIs(lines: seq<string>)
    ensures ParseLines(START, lines).section == SectionAfter(lines)
  {
    if lines != [] {
      var n := |lines| - 1;
      SectionIs(lines[..n]);
      assert lines == lines[..n] + [lines[n]];
      ParseLinesAppend(START, lines[..n], [lines[n]]);
      ParseOne(ParseLines(START, lines[..n]), lines[n]);
      SectionStep(ParseLines(START, lines[..n]), lines[n]);
    }
  }

  lemma ParseOne(st: State, line: string)
    ensures ParseLines(st, [line]) == ParseLine(st, line)
  {
    assert [line][1..] == [];
    assert ParseLines(ParseLine(st, line), []) == ParseLine(st, line);
  }

  /** The line assigns the key under a header only the parser takes for [Interface]. */
  predicate LeaksAt(lines: seq<string>, k: Key, i: nat) {
    && i < |lines| && Assigns(lines[i], k)
    && SectionAfter(lines[..i]) == "interface" && !UnderInterface(lines[..i])
  }

  predicate Leaks(lines: seq<string>, k: Key) {
    lines != [] && (Leaks(lines[..|lines| - 1], k) || LeaksAt(lines, k, |lines| - 1))
  }

  lemma LeaksSame(lines: seq<string>, k: Key, i: nat)
    requires i < |lines| - 1
    ensures LeaksAt(lines, k, i) <==> LeaksAt(lines[..|lines| - 1], k, i)
  {
    assert lines[..|lines| - 1][..i] == lines[..i];
  }

  lemma {:induction false} LeaksFound(lines: seq<string>, k: Key) returns (i: nat)
    requires Leaks(lines, k)
    ensures LeaksAt(lines, k, i)
  {
    i := |lines| - 1;
    if Leaks(lines[..|lines| - 1], k) {
      i := LeaksFound(lines[..|lines| - 1], k);
      LeaksSame(lines, k, i);
    }
  }

  lemma {:induction false} LeaksHas(lines: seq<string>, k: Key, i: nat)
    requires LeaksAt(lines, k, i)
    ensures Leaks(lines, k)
  {
    if i < |lines| - 1 {
      LeaksSame(lines, k, i);
      LeaksHas(lines[..|lines| - 1], k, i);
    }
  }

  /** What one more line of the text adds to the fields of the stripped text. */
  lemma LeakStep(pre: seq<string>, x: string, k: Key)
    requires Lost(k)
    ensures var st := ParseLines(START, StripLines(false, pre));
            k in ParseLines(START, StripLines(false, pre + [x])).fields
            <==> k in st.fields || (st.section == "interface" && Assigns(x, k) && !Final(false, pre))
  {
    var st := ParseLines(START, StripLines(false, pre));
    DroppedIs(Final(false, pre), x);
    StripLinesAppend(false, pre, [x]);
    StripOne(Final(false, pre), x);
    if Assigns(x, k) { AssignmentIsQuick(x, k); }
    if Dropped(Final(false, pre), x) {
      assert StripLines(false, pre + [x]) == StripLines(false, pre);
    } else {
      assert StripLines(false, pre + [x]) == StripLines(false, pre) + [x];
      ParseLinesAppend(START, StripLines(false, pre), [x]);
      ParseOne(st, x);
      AssignsIs(st, x, k);
    }
  }

  /** The parser is in the same section over the kept lines. */
  lemma KeptSection(pre: seq<string>)
    ensures ParseLines(START, StripLines(false, pre)).section == SectionAfter(pre)
  {
    LinesSim(false, START, START, pre);
    SectionIs(pre);
  }

  lemma LeaksSnoc(pre: seq<string>, x: string, k: Key)
    ensures Leaks(pre + [x], k)
       <==> Leaks(pre, k) || (SectionAfter(pre) == "interface" && Assigns(x, k) && !UnderInterface(pre))
  {
    var lines := pre + [x];
    assert lines[..|lines| - 1] == pre && lines[|pre|] == x;
  }

  lemma {:induction false} LeakedFields(lines: seq<string>, k: Key)
    requires Lost(k)
    ensures k in ParseLines(START, StripLines(false, lines)).fields <==> Leaks(lines, k)
  {
    if lines != [] {
      var pre, x := lines[..|lines| - 1], lines[|lines| - 1];
      LeakedFields(pre, k);
      KeptSection(pre);
      FlagIsSection(pre);
      LeakStep(pre, x, k);
      LeaksSnoc(pre, x, k);
      assert lines == pre + [x];
    }
  }

  /** For every text: stripping loses the address, the MTU and the DNS server, unless a line assigns them under a header
      that the parser takes for [Interface] and the stripper does not. */
  lemma StripLeavesIff(conf: string, k: Key)
    requires Lost(k)
    ensures k in Parse(Strip(conf)).fields <==> exists i: nat :: LeaksAt(Split(conf, '\n'), k, i)
  {
    var lines := Split(conf, '\n');
    SplitStrip(conf);
    LeakedFields(lines, k);
    if Leaks(lines, k) {
      var i := LeaksFound(lines, k);
    } else if i: nat :| LeaksAt(lines, k, i) {
      LeaksHas(lines, k, i);
    }
  }

  lemma KvAssigns(k: Key, v: string)
    requires Known(k)
    ensures Assigns(KvLine(Name(k), v), k)
  {
    var key := Name(k);
    NamePlain(k);
    KvTrimmed(key, v);
    CutAt(key + " ", '=', TrimRight(" " + v));
    TrimPadded("", key, " ");
    assert "" + key + " " == key + " ";
    TrimOfTrimmed(key);
    KeyOfName(k);
    assert Trim(KvLine(key, v))[0] == key[0];
  }

  /** Under a header with a second bracket every value gets through. */
  lemma DoubledBracketLeaks(h: string, k: Key, v: string)
    requires h == "[[Interface]]" && Lost(k) && Free(v, '\n')
    ensures k in Parse(Strip(Join([h, KvLine(Name(k), v)], '\n'))).fields
  {
    DoubledHeader(h);
    KvAssigns(k, v);
    KvLineFree(k, v);
    UnderOddHeader(h, KvLine(Name(k), v), k);
  }

  lemma KvLineFree(k: Key, v: string)
    requires Free(v, '\n')
    ensures Free(KvLine(Name(k), v), '\n')
  {
    NameLetters(k);
  }

  lemma UnderOddHeader(h: string, line: string, k: Key)
    requires Lost(k) && Free(h, '\n') && Free(line, '\n') && Assigns(line, k)
    requires SectionAfter([h]) == "interface" && !UnderInterface([h])
    ensures k in Parse(Strip(Join([h, line], '\n'))).fields
  {
    var lines := [h, line];
    SplitJoin(lines, '\n');
    assert lines[..1] == [h];
    assert LeaksAt(lines, k, 1);
    StripLeavesIff(Join(lines, '\n'), k);
  }

  lemma DoubledPlain(h: string)
    requires h == "[[Interface]]"
    ensures IsTrimmed(h) && Free(h, '#') && Free(h, '=') && Free(h, '\n') && |h| == 13 && h[0] == '['
  {
  }

  lemma DoubledHeader(h: string)
    requires h == "[[Interface]]"
    ensures SectionAfter([h]) == "interface" && !UnderInterface([h]) && Free(h, '\n')
  {
    DoubledPlain(h);
    DoubledSection(h);
    OddHeader(h);
  }

  lemma OddHeader(h: string)
    requires IsTrimmed(h) && Free(h, '#') && Free(h, '=') && |h| == 13 && h[0] == '[' && SectionName(h) == "interface"
    ensures SectionAfter([h]) == "interface" && !UnderInterface([h])
  {
    StripKeyOfWord(h);
    OnlyHeader(h);
    TrimOfTrimmed(h);
    assert |"[Interface]"| == 11;
  }

  lemma OnlyHeader(h: string)
    requires IsHeader(StripKey(h))
    ensures LastHeader([h]) == Some(h)
  {
  }

  lemma DoubledSection(h: string)
    requires h == "[[Interface]]"
    ensures SectionName(h) == "interface"
  {
    var cut := {'[', ']'};
    assert TrimLeftSet("[[Interface]]", cut) == TrimLeftSet("[Interface]]", cut) == "Interface]]";
    assert "Interface]]"[..10] == "Interface]" && "Interface]"[..9] == "Interface";
    assert TrimRightSet("Interface]]", cut) == TrimRightSet("Interface]", cut) == "Interface";
  }
}
