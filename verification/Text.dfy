/** The parts of Go's `strings` and `strconv` packages that the modelled code relies on,
    over strings seen as sequences of code points. */
module Text {

  datatype Option<+T> = None | Some(value: T)

  // ---------------------------------------------------------------- elements of a sequence

  function Elems<T>(s: seq<T>): set<T> { set x <- s :: x }

  lemma ElemsHas<T>(s: seq<T>, i: nat)
    requires i < |s|
    ensures s[i] in Elems(s)
  {
    assert s[i] in s;
  }

  lemma ElemsSnoc<T>(s: seq<T>, e: T)
    ensures Elems(s + [e]) == Elems(s) + {e}
  {
    var t := s + [e];
    forall x | x in Elems(s) + {e} ensures x in Elems(t) {
      if x in s {
        var i :| 0 <= i < |s| && s[i] == x;
        ElemsHas(t, i);
      } else {
        ElemsHas(t, |s|);
      }
    }
  }

  lemma ElemsCons<T>(e: T, s: seq<T>)
    ensures Elems([e] + s) == {e} + Elems(s)
  {
    var t := [e] + s;
    forall x | x in Elems(s) + {e} ensures x in Elems(t) {
      if x in s {
        var i :| 0 <= i < |s| && s[i] == x;
        ElemsHas(t, i + 1);
      } else {
        ElemsHas(t, 0);
      }
    }
  }

  /** The unspecified order of a map range. */
  method PickAny<T>(s: set<T>) returns (x: T)
    requires s != {}
    ensures x in s
  {
    x :| x in s;
  }

  // ---------------------------------------------------------------- white space

  /** unicode.IsSpace. */
  predicate IsSpace(c: char) {
    var n := c as int;
    9 <= n <= 13 || n == 32 || n == 0x85 || n == 0xA0 || n == 0x1680 || 0x2000 <= n <= 0x200A
    || n == 0x2028 || n == 0x2029 || n == 0x202F || n == 0x205F || n == 0x3000
  }

  function TrimLeft(s: string): string {
    if s != [] && IsSpace(s[0]) then TrimLeft(s[1..]) else s
  }

  function TrimRight(s: string): string {
    if s != [] && IsSpace(s[|s| - 1]) then TrimRight(s[..|s| - 1]) else s
  }

  /** strings.TrimSpace. */
  function Trim(s: string): string {
    TrimRight(TrimLeft(s))
  }

  lemma {:induction false} TrimLeftAppend(a: string, b: string)
    ensures TrimLeft(a + b) == if TrimLeft(a) == [] then TrimLeft(b) else TrimLeft(a) + b
  {
    if a == [] {
      assert a + b == b;
    } else if IsSpace(a[0]) {
      assert (a + b)[1..] == a[1..] + b;
      TrimLeftAppend(a[1..], b);
    }
  }

  lemma {:induction false} TrimRightAppend(a: string, b: string)
    ensures TrimRight(a + b) == if TrimRight(b) == [] then TrimRight(a) else a + TrimRight(b)
  {
    if b == [] {
      assert a + b == a;
    } else if IsSpace(b[|b| - 1]) {
      assert (a + b)[..|a + b| - 1] == a + b[..|b| - 1];
      TrimRightAppend(a, b[..|b| - 1]);
    }
  }

  /** Trimming one side leaves the string empty exactly when trimming the other side does. */
  lemma {:induction false} TrimEmptyBothSides(s: string)
    ensures TrimLeft(s) == [] <==> forall c <- s :: IsSpace(c)
    ensures TrimRight(s) == [] <==> forall c <- s :: IsSpace(c)
  {
    if s != [] {
      TrimEmptyBothSides(s[1..]);
      assert s == [s[0]] + s[1..];
      TrimRightAppend([s[0]], s[1..]);
      assert TrimRight([s[0]]) == if IsSpace(s[0]) then [] else [s[0]] by {
        assert [s[0]][..0] == [];
      }
    }
  }

  /** TrimSpace may trim the right end first. */
  lemma {:induction false} TrimCommutes(s: string)
    ensures Trim(s) == TrimLeft(TrimRight(s))
  {
    if s != [] && IsSpace(s[0]) {
      TrimCommutes(s[1..]);
      assert s == [s[0]] + s[1..];
      TrimRightAppend([s[0]], s[1..]);
      TrimEmptyBothSides(s[1..]);
      assert [s[0]][..0] == [];
      if TrimRight(s[1..]) != [] {
        assert ([s[0]] + TrimRight(s[1..]))[1..] == TrimRight(s[1..]);
      }
    } else if s != [] {
      assert s == [s[0]] + s[1..];
      TrimRightAppend([s[0]], s[1..]);
    }
  }

  predicate IsTrimmed(s: string) {
    s == [] || (!IsSpace(s[0]) && !IsSpace(s[|s| - 1]))
  }

  lemma {:induction false} TrimRightFirst(s: string)
    ensures TrimRight(s) <= s
    ensures TrimRight(s) == [] || !IsSpace(TrimRight(s)[|TrimRight(s)| - 1])
  {
    if s != [] && IsSpace(s[|s| - 1]) {
      TrimRightFirst(s[..|s| - 1]);
    }
  }

  lemma {:induction false} TrimLeftFirst(s: string)
    ensures TrimLeft(s) == [] || !IsSpace(TrimLeft(s)[0])
    ensures forall c <- TrimLeft(s) :: c in s
  {
    if s != [] && IsSpace(s[0]) {
      TrimLeftFirst(s[1..]);
    }
  }

  /** The result of TrimSpace has no white space at either end, and trimming it again changes nothing. */
  lemma TrimIsTrimmed(s: string)
    ensures IsTrimmed(Trim(s))
    ensures Trim(Trim(s)) == Trim(s)
    ensures forall c <- Trim(s) :: c in s
  {
    TrimLeftFirst(s);
    TrimRightFirst(TrimLeft(s));
  }

  lemma TrimOfTrimmed(s: string)
    requires IsTrimmed(s)
    ensures Trim(s) == s
  {
  }

  /** Characters that are not white space survive TrimSpace. */
  lemma {:induction false} TrimKeeps(s: string, c: char)
    requires c in s && !IsSpace(c)
    ensures c in Trim(s)
  {
    TrimLeftKeeps(s, c);
    TrimRightKeeps(TrimLeft(s), c);
  }

  lemma {:induction false} TrimLeftKeeps(s: string, c: char)
    requires c in s && !IsSpace(c)
    ensures c in TrimLeft(s)
  {
    if IsSpace(s[0]) {
      TrimLeftKeeps(s[1..], c);
    }
  }

  lemma {:induction false} TrimRightKeeps(s: string, c: char)
    requires c in s && !IsSpace(c)
    ensures c in TrimRight(s)
  {
    if IsSpace(s[|s| - 1]) {
      assert s == s[..|s| - 1] + [s[|s| - 1]];
      TrimRightKeeps(s[..|s| - 1], c);
    }
  }

  /** White space put around a string disappears again. */
  lemma TrimPadded(l: string, s: string, r: string)
    requires forall c <- l :: IsSpace(c)
    requires forall c <- r :: IsSpace(c)
    ensures Trim(l + s + r) == Trim(s)
  {
    TrimEmptyBothSides(l);
    TrimEmptyBothSides(r);
    assert l + s + r == l + (s + r);
    TrimLeftAppend(l, s + r);
    TrimLeftAppend(s, r);
    TrimRightAppend(TrimLeft(s), r);
    if TrimLeft(s) == [] {
      assert TrimLeft(r) == [];
    }
  }

  // ---------------------------------------------------------------- cutting and splitting

  /** strings.Cut at a single character: text before, text after, found. */
  function Cut(s: string, c: char): (r: (string, string, bool))
  {
    if s == [] then ([], [], false)
    else if s[0] == c then ([], s[1..], true)
    else var (b, a, ok) := Cut(s[1..], c); ([s[0]] + b, a, ok)
  }

  lemma {:induction false} CutAt(b: string, c: char, a: string)
    requires c !in b
    ensures Cut(b + [c] + a, c) == (b, a, true)
  {
    var s := b + [c] + a;
    if b == [] {
      assert s[1..] == a;
    } else {
      assert s[1..] == b[1..] + [c] + a;
      CutAt(b[1..], c, a);
      assert b == [b[0]] + b[1..];
    }
  }

  lemma {:induction false} CutMissing(s: string, c: char)
    requires c !in s
    ensures Cut(s, c) == (s, [], false)
  {
    if s != [] {
      CutMissing(s[1..], c);
      assert s == [s[0]] + s[1..];
    }
  }

  /** What Cut returns always reassembles the input, and the first part never holds the separator. */
  lemma {:induction false} CutParts(s: string, c: char)
    ensures c !in Cut(s, c).0
    ensures Cut(s, c).2 <==> c in s
    ensures s == Cut(s, c).0 + (if Cut(s, c).2 then [c] + Cut(s, c).1 else [])
    ensures !Cut(s, c).2 ==> Cut(s, c).1 == []
  {
    if s != [] {
      CutParts(s[1..], c);
      assert s == [s[0]] + s[1..];
    }
  }

  /** strings.Split on a single character. */
  function Split(s: string, c: char): (r: seq<string>)
    ensures r != []
  {
    if s == [] then [[]]
    else
      var rest := Split(s[1..], c);
      if s[0] == c then [[]] + rest else [[s[0]] + rest[0]] + rest[1..]
  }

  /** strings.Join with a single-character separator. */
  function Join(parts: seq<string>, c: char): string {
    if parts == [] then []
    else if |parts| == 1 then parts[0]
    else parts[0] + [c] + Join(parts[1..], c)
  }

  predicate Free(s: string, c: char) { c !in s }

  predicate AllFree(parts: seq<string>, c: char) {
    forall p <- parts :: Free(p, c)
  }

  lemma {:induction false} SplitFree(s: string, c: char)
    requires c !in s
    ensures Split(s, c) == [s]
  {
    if s != [] {
      SplitFree(s[1..], c);
      assert [s[0]] + s[1..] == s;
    }
  }

  lemma {:induction false} SplitHead(line: string, c: char, rest: string)
    requires c !in line
    ensures Split(line + [c] + rest, c) == [line] + Split(rest, c)
  {
    var s := line + [c] + rest;
    if line == [] {
      assert s[1..] == rest;
    } else {
      assert s[1..] == line[1..] + [c] + rest;
      SplitHead(line[1..], c, rest);
      assert [line[0]] + line[1..] == line;
    }
  }

  /** Splitting what Join built gives the parts back. */
  lemma {:induction false} SplitJoin(parts: seq<string>, c: char)
    requires parts != [] && AllFree(parts, c)
    ensures Split(Join(parts, c), c) == parts
  {
    assert Free(parts[0], c);
    if |parts| == 1 {
      SplitFree(parts[0], c);
    } else {
      SplitHead(parts[0], c, Join(parts[1..], c));
      SplitJoin(parts[1..], c);
      assert parts == [parts[0]] + parts[1..];
    }
  }

  lemma {:induction false} SplitPartsFree(s: string, c: char)
    ensures AllFree(Split(s, c), c)
  {
    if s != [] {
      SplitPartsFree(s[1..], c);
      var rest := Split(s[1..], c);
      assert Free(rest[0], c);
    }
  }

  lemma {:induction false} JoinSplit(s: string, c: char)
    ensures Join(Split(s, c), c) == s
  {
    if s != [] {
      JoinSplit(s[1..], c);
      var rest := Split(s[1..], c);
      assert s == [s[0]] + s[1..];
      if s[0] == c {
        assert ([[]] + rest)[1..] == rest;
      } else if |rest| > 1 {
        assert ([[s[0]] + rest[0]] + rest[1..])[1..] == rest[1..];
      }
    }
  }

  // ---------------------------------------------------------------- decimal numbers

  function DigitChar(d: nat): char
    requires d < 10
  {
    '0' + d as char
  }

  predicate IsDigit(c: char) { '0' <= c <= '9' }

  predicate AllDigits(s: string) { forall c <- s :: IsDigit(c) }

  function DigitValue(c: char): (d: nat)
    requires IsDigit(c)
    ensures d < 10
  {
    c as int - '0' as int
  }

  function NatToString(n: nat): (s: string)
    ensures s != [] && AllDigits(s)
  {
    if n < 10 then [DigitChar(n)] else NatToString(n / 10) + [DigitChar(n % 10)]
  }

  /** strconv.Itoa, and fmt's %d. */
  function Itoa(n: int): string {
    if n < 0 then "-" + NatToString(0 - n) else NatToString(n)
  }

  function DigitsValue(s: string): nat
    requires AllDigits(s)
  {
    if s == [] then 0
    else
      assert IsDigit(s[|s| - 1]);
      10 * DigitsValue(s[..|s| - 1]) + DigitValue(s[|s| - 1])
  }

  const MAX_INT64: int := 0x7FFF_FFFF_FFFF_FFFF
  const MIN_INT64: int := -0x8000_0000_0000_0000

  type int64 = n: int | MIN_INT64 <= n <= MAX_INT64

  /** What strconv.ParseInt(s, 10, 64) returns: on a range error the value is the nearest bound. */
  datatype Parsed = Parsed(value: int64, ok: bool)

  function ParseDigits(s: string, negative: bool): Parsed {
    if s == [] || !AllDigits(s) then Parsed(0, false)
    else
      var n: int := if negative then 0 - DigitsValue(s) else DigitsValue(s);
      if n > MAX_INT64 then Parsed(MAX_INT64, false)
      else if n < MIN_INT64 then Parsed(MIN_INT64, false)
      else Parsed(n, true)
  }

  function ParseInt(s: string): Parsed {
    if s != [] && s[0] == '-' then ParseDigits(s[1..], true)
    else if s != [] && s[0] == '+' then ParseDigits(s[1..], false)
    else ParseDigits(s, false)
  }

  lemma {:induction false} DigitsRoundTrip(n: nat)
    ensures DigitsValue(NatToString(n)) == n
  {
    var s := NatToString(n);
    assert IsDigit(s[|s| - 1]);
    if n < 10 {
      assert s[..0] == [];
    } else {
      assert s[..|s| - 1] == NatToString(n / 10);
      DigitsRoundTrip(n / 10);
    }
  }

  /** Parsing a printed integer gives it back. */
  lemma ParseItoa(n: int64)
    ensures ParseInt(Itoa(n)) == Parsed(n, true)
  {
    if n < 0 {
      var m: nat := 0 - n;
      DigitsRoundTrip(m);
      assert Itoa(n)[1..] == NatToString(m);
    } else {
      DigitsRoundTrip(n);
      assert IsDigit(Itoa(n)[0]);
    }
  }

  /** Printing is injective on the naturals. */
  lemma NatToStringInjective(a: nat, b: nat)
    requires NatToString(a) == NatToString(b)
    ensures a == b
  {
    DigitsRoundTrip(a);
    DigitsRoundTrip(b);
  }

  lemma ItoaPlain(n: int)
    ensures Itoa(n) != []
    ensures forall c <- Itoa(n) :: c == '-' || IsDigit(c)
    ensures n >= 0 ==> AllDigits(Itoa(n))
    ensures IsTrimmed(Itoa(n)) && Trim(Itoa(n)) == Itoa(n)
  {
    var s := Itoa(n);
    assert s[0] in s && s[|s| - 1] in s;
  }

  // ---------------------------------------------------------------- case folding

  /** unicode.ToLower for every character whose lower case is ASCII; other characters are kept,
      which no comparison against an ASCII word can tell apart. */
  function LowerChar(c: char): char {
    if 'A' <= c <= 'Z' then c - 'A' + 'a'
    else if c as int == 0x130 then 'i'
    else if c as int == 0x212A then 'k'
    else c
  }

  /** strings.ToLower. */
  function ToLower(s: string): (r: string)
    ensures |r| == |s|
    ensures forall i :: 0 <= i < |s| ==> r[i] == LowerChar(s[i])
  {
    seq(|s|, i requires 0 <= i < |s| => LowerChar(s[i]))
  }
}
