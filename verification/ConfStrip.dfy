/** stripAwgQuick (internal/awg/manager.go): the file handed to `awg syncconf`, without the keys
    only awg-quick understands. */
module ConfStrip {
  import opened Text
  import opened ConfModel
  import opened ConfParse
  import opened ConfRoundTrip

  /** awgQuickIfaceKeys. */
  predicate QuickKey(key: string) {
    ToLower(key) in {"address", "mtu", "dns", "table", "preup", "predown", "postup", "postdown", "saveconfig"}
  }

  /** The key of a line: comment cut off first, then the value. */
  function StripKey(line: string): string {
    var key := Trim(Cut(line, '#').0);
    if '=' in key then Trim(Cut(key, '=').0) else key
  }

  predicate IsHeader(key: string) { key != [] && key[0] == '[' }

  function NextInInterface(inInterface: bool, line: string): bool {
    if IsHeader(StripKey(line)) then FoldEq(StripKey(line), "[Interface]") else inInterface
  }

  predicate Dropped(inInterface: bool, line: string) {
    !IsHeader(StripKey(line)) && inInterface && QuickKey(StripKey(line))
  }

  function KeptOf(inInterface: bool, line: string): seq<string> { if Dropped(inInterface, line) then [] else [line] }

  function StripLines(inInterface: bool, lines: seq<string>): seq<string>
    decreases |lines|
  {
    if lines == [] then []
    else KeptOf(inInterface, lines[0]) + StripLines(NextInInterface(inInterface, lines[0]), lines[1..])
  }

  function Strip(conf: string): string { Join(StripLines(false, Split(conf, '\n')), '\n') }

  lemma {:induction false} JoinSnoc(parts: seq<string>, last: string, c: char)
    requires parts != []
    ensures Join(parts + [last], c) == Join(parts, c) + [c] + last
  {
    assert (parts + [last])[1..] == parts[1..] + [last];
    if |parts| > 1 {
      JoinSnoc(parts[1..], last, c);
    } else {
      assert parts + [last] == [parts[0], last];
    }
  }

  lemma StripUnfold(inInterface: bool, lines: seq<string>, i: nat)
    requires i < |lines|
    ensures StripLines(inInterface, lines[i..])
         == KeptOf(inInterface, lines[i]) + StripLines(NextInInterface(inInterface, lines[i]), lines[i + 1..])
  {
    assert lines[i..][0] == lines[i] && lines[i..][1..] == lines[i + 1..];
  }

  // ---------------------------------------------------------------- which lines that removes

  /** The last line that opens a section. */
  function LastHeader(lines: seq<string>): Option<string> {
    if lines == [] then None
    else if IsHeader(StripKey(lines[|lines| - 1])) then Some(lines[|lines| - 1])
    else LastHeader(lines[..|lines| - 1])
  }

  predicate UnderInterface(lines: seq<string>) {
    LastHeader(lines).Some? && FoldEq(StripKey(LastHeader(lines).value), "[Interface]")
  }

  /** All lines in order, but for the awg-quick keys in an [Interface] section. */
  function Remaining(lines: seq<string>): seq<string> {
    if lines == [] then []
    else
      var n := |lines| - 1;
      Remaining(lines[..n]) + (if QuickKey(StripKey(lines[n])) && UnderInterface(lines[..n]) then [] else [lines[n]])
  }

  lemma {:induction false} FinalAppend(inInterface: bool, a: seq<string>, b: seq<string>)
    ensures Final(inInterface, a + b) == Final(Final(inInterface, a), b)
    decreases |a|
  {
    if a == [] {
      assert a + b == b;
    } else {
      assert (a + b)[0] == a[0] && (a + b)[1..] == a[1..] + b;
      FinalAppend(NextInInterface(inInterface, a[0]), a[1..], b);
    }
  }

  lemma {:induction false} StripLinesAppend(inInterface: bool, a: seq<string>, b: seq<string>)
    ensures StripLines(inInterface, a + b) == StripLines(inInterface, a) + StripLines(Final(inInterface, a), b)
    decreases |a|
  {
    if a == [] {
      assert a + b == b;
    } else {
      var next := NextInInterface(inInterface, a[0]);
      assert (a + b)[0] == a[0] && (a + b)[1..] == a[1..] + b;
      StripLinesAppend(next, a[1..], b);
      Assoc(KeptOf(inInterface, a[0]), StripLines(next, a[1..]), StripLines(Final(next, a[1..]), b));
    }
  }

  lemma DroppedIs(inInterface: bool, line: string)
    ensures Dropped(inInterface, line) <==> inInterface && QuickKey(StripKey(line))
  {
    if QuickKey(StripKey(line)) { QuickFirstChar(StripKey(line)); }
  }

  lemma StripOne(inInterface: bool, line: string)
    ensures StripLines(inInterface, [line]) == KeptOf(inInterface, line)
    ensures Final(inInterface, [line]) == NextInInterface(inInterface, line)
  {
    assert [line][1..] == [];
    assert StripLines(NextInInterface(inInterface, line), []) == [];
  }

  /** The flag the loop carries says which section the line is in. */
  lemma {:induction false} FlagIsSection(lines: seq<string>)
    ensures Final(false, lines) == UnderInterface(lines)
  {
    if lines != [] {
      var n := |lines| - 1;
      FlagIsSection(lines[..n]);
      assert lines == lines[..n] + [lines[n]];
      FinalAppend(false, lines[..n], [lines[n]]);
      StripOne(Final(false, lines[..n]), lines[n]);
    }
  }

  /** Exactly the awg-quick keys of [Interface] sections go. */
  lemma {:induction false} StripIsRemaining(lines: seq<string>)
    ensures StripLines(false, lines) == Remaining(lines)
  {
    if lines != [] {
      var n := |lines| - 1;
      StripIsRemaining(lines[..n]);
      FlagIsSection(lines[..n]);
      DroppedIs(Final(false, lines[..n]), lines[n]);
      assert lines == lines[..n] + [lines[n]];
      StripLinesAppend(false, lines[..n], [lines[n]]);
      StripOne(Final(false, lines[..n]), lines[n]);
    }
  }

  // ---------------------------------------------------------------- the loop

  /** stripAwgQuick copies the kept lines; a dropped line takes its newline with it. What is left is every line but the
      awg-quick keys of [Interface] sections. */
  method StripAwgQuick(conf: string) returns (out: string)
    ensures out == Strip(conf)
    ensures Split(out, '\n') == Remaining(Split(conf, '\n'))
  {
    var lines := Split(conf, '\n');
    var inInterface, i := false, 0;
    out := "";
    ghost var kept: seq<string> := [];
    assert lines[0..] == lines;
    while i < |lines|
      invariant 0 <= i <= |lines|
      invariant kept == [] <==> i == 0
      invariant i == 0 ==> !inInterface
      invariant out == Join(kept, '\n')
      invariant StripLines(false, lines) == kept + StripLines(inInterface, lines[i..])
    {
      StripUnfold(inInterface, lines, i);
      KeepStep(kept, lines[i], StripLines(NextInInterface(inInterface, lines[i]), lines[i + 1..]));
      if !Dropped(inInterface, lines[i]) {
        out := Appended(out, lines[i], i > 0);
        kept := kept + [lines[i]];
      }
      inInterface, i := NextInInterface(inInterface, lines[i]), i + 1;
    }
    assert kept + StripLines(inInterface, lines[i..]) == kept;
    SplitStrip(conf);
    StripIsRemaining(lines);
  }

  lemma KeepStep(kept: seq<string>, line: string, rest: seq<string>)
    ensures kept + ([line] + rest) == (kept + [line]) + rest && kept + ([] + rest) == kept + rest
    ensures Join(kept + [line], '\n') == Appended(Join(kept, '\n'), line, kept != [])
  {
    if kept != [] {
      JoinSnoc(kept, line, '\n');
    }
  }

  function Appended(out: string, line: string, separate: bool): string {
    if separate then out + ['\n'] + line else out + line
  }

  // ---------------------------------------------------------------- idempotence

  lemma {:induction false} StripLinesIdempotent(inInterface: bool, lines: seq<string>)
    ensures StripLines(inInterface, StripLines(inInterface, lines)) == StripLines(inInterface, lines)
    decreases |lines|
  {
    if lines != [] {
      var next := NextInInterface(inInterface, lines[0]);
      var rest := StripLines(next, lines[1..]);
      StripLinesIdempotent(next, lines[1..]);
      if Dropped(inInterface, lines[0]) {
        assert StripLines(inInterface, lines) == rest;
      } else {
        assert StripLines(inInterface, lines) == [lines[0]] + rest;
        assert ([lines[0]] + rest)[1..] == rest;
      }
    }
  }

  lemma {:induction false} StripLinesFree(inInterface: bool, lines: seq<string>)
    requires AllFree(lines, '\n')
    ensures AllFree(StripLines(inInterface, lines), '\n')
    decreases |lines|
  {
    if lines != [] {
      assert Free(lines[0], '\n');
      StripLinesFree(NextInInterface(inInterface, lines[0]), lines[1..]);
    }
  }

  lemma SplitStrip(conf: string)
    ensures Split(Strip(conf), '\n') == StripLines(false, Split(conf, '\n'))
  {
    SplitPartsFree(conf, '\n');
    StripLinesFree(false, Split(conf, '\n'));
    SplitJoin(StripLines(false, Split(conf, '\n')), '\n');
  }

  /** Stripping a stripped file changes nothing, for every text. */
  lemma StripIdempotent(conf: string)
    ensures Strip(Strip(conf)) == Strip(conf)
  {
    SplitStrip(conf);
    StripLinesIdempotent(false, Split(conf, '\n'));
  }

  // ---------------------------------------------------------------- how the two readers see one line

  lemma {:induction false} CutAfter(a: string, b: string, c: char)
    requires c !in a
    ensures Cut(a + b, c).0 == a + Cut(b, c).0
  {
    if a == [] {
      assert a + b == b;
    } else {
      assert (a + b)[0] == a[0] && (a + b)[1..] == a[1..] + b;
      CutAfter(a[1..], b, c);
      Assoc([a[0]], a[1..], Cut(b, c).0);
      assert a == [a[0]] + a[1..];
    }
  }

  lemma {:induction false} TrimLeftSplit(s: string) returns (l: string)
    ensures s == l + TrimLeft(s) && forall c <- l :: IsSpace(c)
  {
    l := [];
    if s != [] && IsSpace(s[0]) {
      var rest := TrimLeftSplit(s[1..]);
      l := [s[0]] + rest;
      assert s == [s[0]] + s[1..];
    }
  }

  lemma {:induction false} TrimRightReaches(s: string, i: nat)
    requires i < |s| && !IsSpace(s[i])
    ensures |TrimRight(s)| > i && TrimRight(s) <= s
  {
    if IsSpace(s[|s| - 1]) {
      TrimRightReaches(s[..|s| - 1], i);
    }
  }

  /** The stripper's key is a prefix of the line without its leading white space. */
  lemma StripKeyPrefix(line: string)
    ensures StripKey(line) <= TrimLeft(line)
  {
    CutParts(line, '#');
    var p := Cut(line, '#').0;
    var r := line[|p|..];
    assert line == p + r;
    TrimLeftAppend(p, r);
    TrimRightFirst(TrimLeft(p));
    var key := Trim(p);
    assert key <= TrimLeft(line) by {
      if TrimLeft(p) != [] {
        assert TrimLeft(line) == TrimLeft(p) + r;
      } else {
        assert key == [];
      }
    }
    if '=' in key {
      CutParts(key, '=');
      TrimIsTrimmed(p);
      var u := Cut(key, '=').0;
      assert u <= key;
      if u != [] {
        assert TrimLeft(u) == u;
      }
      TrimRightFirst(u);
    }
  }

  lemma FirstCharKept(line: string)
    requires TrimLeft(line) != []
    ensures Trim(line) != [] && Trim(line)[0] == TrimLeft(line)[0]
    ensures !IsSpace(TrimLeft(line)[0])
  {
    TrimLeftFirst(line);
    TrimRightReaches(TrimLeft(line), 0);
  }

  /** The part before a '#', of a line whose first '=' comes before it. */
  lemma BeforeComment(l: string, kb: string, z: string)
    requires (forall c <- l :: IsSpace(c)) && '#' !in kb
    requires kb != [] ==> !IsSpace(kb[0])
    ensures exists w :: Trim(Cut(l + (kb + ['='] + z), '#').0) == kb + ['='] + w
  {
    var head := kb + ['='];
    var p := Cut(z, '#').0;
    assert '#' !in l + head;
    assert l + (head + z) == (l + head) + z;
    CutAfter(l + head, z, '#');
    assert (l + head) + p == l + (head + p);
    TrimEmptyBothSides(l);
    TrimLeftAppend(l, head + p);
    assert !IsSpace((head + p)[0]);
    TrimRightAppend(head, p);
    assert TrimRight(head) == head;
    if TrimRight(p) == [] {
      assert head == kb + ['='] + [];
    }
  }

  /** A line with an '=' that the parser reads as (before, after): unless a '#' stands before the '=',
      the stripper sees the same key. */
  lemma SameKey(line: string)
    requires Trim(line) != [] && '=' in Trim(line) && '#' !in Cut(Trim(line), '=').0
    ensures StripKey(line) == Trim(Cut(Trim(line), '=').0)
  {
    var t := TrimLeft(line);
    var kb := Cut(Trim(line), '=').0;
    CutParts(Trim(line), '=');
    TrimRightFirst(t);
    TrimLeftFirst(line);
    assert kb + ['='] <= t;
    var z := t[|kb| + 1..];
    assert t == kb + ['='] + z;
    var l := TrimLeftSplit(line);
    BeforeComment(l, kb, z);
    var w :| Trim(Cut(line, '#').0) == kb + ['='] + w;
    CutAt(kb, '=', w);
  }

  // ---------------------------------------------------------------- which lines are dropped

  lemma QuickNames(k: Key)
    requires Known(k) && QuickKey(Name(k))
    ensures k in {Address, MTU, DNS}
  {
    NameShape(k);
    var low := ToLower(Name(k));
    assert |low| == Shape(k).0 && low[0] == LowerChar(Shape(k).1);
    assert |low| in {3, 5, 6, 7, 8, 10};
  }

  lemma QuickFirstChar(key: string)
    requires QuickKey(key)
    ensures key != [] && key[0] !in {'[', '#', ';'}
  {
    var low := ToLower(key);
    assert |low| == |key|;
    assert |low| > 0 && 'a' <= low[0] <= 'z';
  }

  /** The interface fields a stripped file may lose. */
  predicate Lost(k: Key) { k.Address? || k.MTU? || k.DNS? }

  predicate SameBut(f: map<Key, Setting>, g: map<Key, Setting>) {
    forall k :: !Lost(k) ==> Get(f, k) == Get(g, k)
  }

  /** The parser state over the whole file against its state over the kept lines. */
  predicate Sim(inInterface: bool, whole: State, kept: State) {
    && whole.section == kept.section && whole.peer == kept.peer && whole.named == kept.named
    && whole.peers == kept.peers && SameBut(whole.fields, kept.fields)
    && (inInterface ==> whole.section != "peer")
  }

  lemma DroppedLine(inInterface: bool, whole: State, kept: State, line: string)
    requires Sim(inInterface, whole, kept) && Dropped(inInterface, line)
    ensures Sim(inInterface, ParseLine(whole, line), kept)
  {
    var key := StripKey(line);
    QuickFirstChar(key);
    StripKeyPrefix(line);
    FirstCharKept(line);
    var t := Trim(line);
    assert t[0] == key[0];
    if '=' in t {
      CutParts(t, '=');
      var (kb, val, ok) := Cut(t, '=');
      FindOnlyName(Trim(kb), KNOWN_KEYS);
      if KeyOf(Trim(kb)).Some? {
        var k := KeyOf(Trim(kb)).value;
        KnownListed(k);
        NameLetters(k);
        if '#' in kb {
          TrimKeeps(kb, '#');
          assert false;
        }
        SameKey(line);
        QuickNames(k);
      }
    } else {
      CutMissing(t, '=');
    }
  }

  lemma InterfaceNotPeer(line: string)
    requires FoldEq(StripKey(line), "[Interface]")
    ensures Trim(line) != [] && Trim(line)[0] == '['
    ensures SectionName(Trim(line)) != "peer"
  {
    var key := StripKey(line);
    var t := TrimLeft(line);
    StripKeyPrefix(line);
    assert key[0] == '[' by { assert AsciiLower(key[0]) == '['; }
    assert key[1] == 'I' || key[1] == 'i' by { assert AsciiLower(key[1]) == 'i'; }
    assert t[0] == key[0] && t[1] == key[1];
    TrimRightReaches(t, 1);
    SectionFirst(Trim(line));
  }

  lemma SectionFirst(line: string)
    requires |line| >= 2 && line[0] == '[' && line[1] in {'I', 'i'}
    ensures SectionName(line) != [] && SectionName(line)[0] == 'i'
  {
    assert TrimLeftSet(line, {'[', ']'}) == line[1..];
    TrimRightSetReaches(line[1..], {'[', ']'});
  }

  lemma {:induction false} TrimRightSetReaches(s: string, cut: set<char>)
    requires s != [] && s[0] !in cut
    ensures TrimRightSet(s, cut) != [] && TrimRightSet(s, cut)[0] == s[0]
  {
    if s[|s| - 1] in cut {
      TrimRightSetReaches(s[..|s| - 1], cut);
    }
  }

  /** Both readers agree on which lines open a section. */
  lemma HeadersAgree(line: string)
    ensures IsHeader(StripKey(line)) <==> (Trim(line) != [] && Trim(line)[0] == '[')
  {
    StripKeyPrefix(line);
    var t := TrimLeft(line);
    if t != [] {
      FirstCharKept(line);
      if t[0] == '[' {
        BracketKept(line);
      }
    } else {
      assert Trim(line) == [];
    }
  }

  lemma BracketKept(line: string)
    requires TrimLeft(line) != [] && TrimLeft(line)[0] == '['
    ensures IsHeader(StripKey(line))
  {
    var t := TrimLeft(line);
    var l := TrimLeftSplit(line);
    assert line == (l + ['[']) + t[1..];
    CutAfter(l + ['['], t[1..], '#');
    var p := Cut(t[1..], '#').0;
    assert Cut(line, '#').0 == l + (['['] + p);
    TrimEmptyBothSides(l);
    TrimLeftAppend(l, ['['] + p);
    TrimRightReaches(['['] + p, 0);
    BracketBeforeValue(Trim(Cut(line, '#').0));
  }

  lemma BracketBeforeValue(key: string)
    requires key != [] && key[0] == '['
    ensures IsHeader(if '=' in key then Trim(Cut(key, '=').0) else key)
  {
    if '=' in key {
      assert key == ['['] + key[1..];
      CutAfter(['['], key[1..], '=');
      TrimRightReaches(Cut(key, '=').0, 0);
    }
  }

  lemma ApplyKeySim(inInterface: bool, whole: State, kept: State, key: string, val: string)
    requires Sim(inInterface, whole, kept)
    ensures Sim(inInterface, ApplyKey(whole, key, val), ApplyKey(kept, key, val))
  {
  }

  lemma KeptLine(inInterface: bool, whole: State, kept: State, line: string)
    requires Sim(inInterface, whole, kept)
    ensures Sim(NextInInterface(inInterface, line), ParseLine(whole, line), ParseLine(kept, line))
  {
    HeadersAgree(line);
    if IsHeader(StripKey(line)) && FoldEq(StripKey(line), "[Interface]") {
      InterfaceNotPeer(line);
    }
    var t := Trim(line);
    if t != [] && t[0] !in {'[', '#', ';'} {
      var (key, val, ok) := Cut(t, '=');
      ApplyKeySim(inInterface, whole, kept, Trim(key), Trim(val));
    }
  }

  function Final(inInterface: bool, lines: seq<string>): bool
    decreases |lines|
  {
    if lines == [] then inInterface else Final(NextInInterface(inInterface, lines[0]), lines[1..])
  }

  lemma {:induction false} LinesSim(inInterface: bool, whole: State, kept: State, lines: seq<string>)
    requires Sim(inInterface, whole, kept)
    ensures Sim(Final(inInterface, lines), ParseLines(whole, lines), ParseLines(kept, StripLines(inInterface, lines)))
    decreases |lines|
  {
    if lines != [] {
      var next := NextInInterface(inInterface, lines[0]);
      var rest := StripLines(next, lines[1..]);
      if Dropped(inInterface, lines[0]) {
        DroppedLine(inInterface, whole, kept, lines[0]);
        assert StripLines(inInterface, lines) == rest;
        LinesSim(next, ParseLine(whole, lines[0]), kept, lines[1..]);
      } else {
        KeptLine(inInterface, whole, kept, lines[0]);
        ParseLinesAppend(kept, [lines[0]], rest);
        LinesSim(next, ParseLine(whole, lines[0]), ParseLine(kept, lines[0]), lines[1..]);
      }
    }
  }

  lemma SameMarks(f: map<Key, Setting>, g: map<Key, Setting>, k: Key)
    requires SameBut(f, g) && !Lost(k)
    ensures NonBlank(f, k) == NonBlank(g, k) && TimerSet(f, k) == TimerSet(g, k) && HasDash(f, k) == HasDash(g, k)
  {
    assert Get(f, k) == Get(g, k);
  }

  lemma SameMarks3(f: map<Key, Setting>, g: map<Key, Setting>)
    requires SameBut(f, g)
    ensures Marks3(f) == Marks3(g)
  {
    SameMarks(f, g, HeaderProtectionKey); SameMarks(f, g, ContentPaddingAddition); SameMarks(f, g, RekeyAfterTime);
    SameMarks(f, g, RekeyTimeout); SameMarks(f, g, RejectAfterTime); SameMarks(f, g, KeepaliveTimeout);
    SameMarks(f, g, MaxHandshakeAttempts);
  }

  lemma SameMarks2(f: map<Key, Setting>, g: map<Key, Setting>)
    requires SameBut(f, g)
    ensures Marks2(f) == Marks2(g) && HeaderRange(f) == HeaderRange(g)
  {
    SameMarks(f, g, I1); SameMarks(f, g, I2); SameMarks(f, g, I3); SameMarks(f, g, I4); SameMarks(f, g, I5);
    SameMarks(f, g, H1); SameMarks(f, g, H2); SameMarks(f, g, H3); SameMarks(f, g, H4);
    assert Get(f, S3) == Get(g, S3) && Get(f, S4) == Get(g, S4);
  }

  lemma SameVersion(f: map<Key, Setting>, g: map<Key, Setting>)
    requires SameBut(f, g)
    ensures DetectVersion(f) == DetectVersion(g)
  {
    SameMarks3(f, g);
    SameMarks2(f, g);
    assert Get(f, RandomTrailers) == Get(g, RandomTrailers) && Get(f, DisableCookies) == Get(g, DisableCookies);
  }

  /** For every text, stripping keeps the peers, the detected version and every interface field
      but the tunnel address, the MTU and the DNS server. */
  lemma StripPreserves(conf: string)
    ensures var whole := Parse(conf); var kept := Parse(Strip(conf));
            && kept.peers == whole.peers
            && kept.version == whole.version
            && SameBut(whole.fields, kept.fields)
  {
    SplitStrip(conf);
    var lines := Split(conf, '\n');
    LinesSim(false, START, START, lines);
    var whole, kept := ParseLines(START, lines), ParseLines(START, StripLines(false, lines));
    SameVersion(whole.fields, kept.fields);
  }
}
