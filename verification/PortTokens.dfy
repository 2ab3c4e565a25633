/** What forwarded-port tokens and lists of them mean (internal/amneziawg/portfwd.go). */
module PortTokens {
  import opened Text
  import opened Ports

  /** A decimal number as strconv.Atoi reads it. */
  predicate Decimal(s: string, n: int) { ParseInt(s).ok && ParseInt(s).value == n }

  lemma DecimalIsDigits(s: string, n: int)
    requires 1 <= n <= 65535
    ensures var digits := if s != [] && s[0] == '+' then s[1..] else s;
            Decimal(s, n) <==> digits != [] && AllDigits(digits) && DigitsValue(digits) == n
  {
    if s != [] { assert s[0] in s; }
  }

  /** A token names a port or a range of ports: "n" or "a-b" with a not above b, and white space around either part. */
  predicate Names(tok: string, start: int, end: int) {
    1 <= start <= end <= 65535
    && if '-' in tok then Decimal(Trim(Cut(tok, '-').0), start) && Decimal(Trim(Cut(tok, '-').1), end)
       else Decimal(tok, start) && start == end
  }

  /** A token is accepted exactly when it names ports, and as what it names. */
  lemma TokenMeans(tok: string, start: int, end: int)
    ensures ParseToken(tok) == Some(PortSpec(start, end)) <==> Names(tok, start, end)
  {
    CutParts(tok, '-');
  }

  lemma PortIsDecimal(n: int)
    requires 1 <= n <= 65535
    ensures Decimal(Itoa(n), n) && '-' !in Itoa(n) && IsTrimmed(Itoa(n)) && Trim(Itoa(n)) == Itoa(n)
    ensures AllDigits(Itoa(n)) && Itoa(n) != []
  {
    ItoaPlain(n);
    ParseItoa(n);
    assert forall c <- Itoa(n) :: IsDigit(c);
  }

  predicate Blank(s: string) { forall c <- s :: IsSpace(c) }

  /** A printed port is read as itself. */
  lemma PrintedPort(n: int)
    requires 1 <= n <= 65535
    ensures ParseToken(Itoa(n)) == Some(PortSpec(n, n))
  {
    PortIsDecimal(n);
    TokenMeans(Itoa(n), n, n);
  }

  /** A printed range is read as itself, with or without white space around its ends. */
  lemma PrintedRange(a: int, b: int, before: string, left: string, right: string, after: string)
    requires 1 <= a <= b <= 65535 && Blank(before) && Blank(left) && Blank(right) && Blank(after)
    ensures ParseToken((before + Itoa(a) + left) + ['-'] + (right + Itoa(b) + after)) == Some(PortSpec(a, b))
  {
    PortIsDecimal(a);
    PortIsDecimal(b);
    var head, tail := before + Itoa(a) + left, right + Itoa(b) + after;
    NoDash(before, Itoa(a), left);
    CutAt(head, '-', tail);
    TrimPadded(before, Itoa(a), left);
    TrimPadded(right, Itoa(b), after);
    var tok := head + ['-'] + tail;
    assert tok[|head|] == '-';
    TokenMeans(tok, a, b);
  }

  lemma NoDash(l: string, s: string, r: string)
    requires Blank(l) && Blank(r) && '-' !in s
    ensures '-' !in l + s + r
  {
    assert !IsSpace('-');
  }

  ghost predicate NamesPort(tok: string, p: int) { exists a, b :: Names(tok, a, b) && a <= p <= b }

  predicate InSpec(spec: Option<PortSpec>, p: int) { spec.Some? && spec.value.start <= p <= spec.value.end }

  lemma TokenNames(tok: string, p: int)
    ensures NamesPort(tok, p) <==> InSpec(ParseToken(tok), p)
  {
    if ParseToken(tok).Some? {
      var spec := ParseToken(tok).value;
      TokenMeans(tok, spec.start, spec.end);
    }
    if NamesPort(tok, p) {
      var a, b :| Names(tok, a, b) && a <= p <= b;
      TokenMeans(tok, a, b);
    }
  }

  ghost predicate SomeNames(tokens: seq<string>, p: int) {
    exists i :: 0 <= i < |tokens| && NamesPort(Trim(tokens[i]), p)
  }

  lemma SomeNamesSnoc(init: seq<string>, tok: string, p: int)
    ensures SomeNames(init + [tok], p) <==> SomeNames(init, p) || NamesPort(Trim(tok), p)
  {
    var all := init + [tok];
    if SomeNames(init, p) {
      var i :| 0 <= i < |init| && NamesPort(Trim(init[i]), p);
      assert all[i] == init[i];
    }
    assert all[|init|] == tok;
    if SomeNames(all, p) {
      var i :| 0 <= i < |all| && NamesPort(Trim(all[i]), p);
      assert i < |init| ==> init[i] == all[i];
    }
  }

  /** Leaving out invalid tokens and repeated specs loses no port. */
  lemma {:induction false} SpecsCover(tokens: seq<string>, p: int)
    ensures Covers(SpecsOf(tokens), p) <==> SomeNames(tokens, p)
  {
    if tokens != [] {
      var init, tok := tokens[..|tokens| - 1], tokens[|tokens| - 1];
      assert tokens == init + [tok];
      SomeNamesSnoc(init, tok, p);
      SpecsCover(init, p);
      CoversSnoc(tokens, p);
      TokenNames(Trim(tok), p);
    }
  }

  lemma CoversSnoc(tokens: seq<string>, p: int)
    requires tokens != []
    ensures Covers(SpecsOf(tokens), p)
       <==> Covers(SpecsOf(tokens[..|tokens| - 1]), p) || InSpec(ParseToken(Trim(tokens[|tokens| - 1])), p)
  {
    var before := SpecsOf(tokens[..|tokens| - 1]);
    var spec := ParseToken(Trim(tokens[|tokens| - 1]));
    if spec.Some? && spec.value !in before {
      assert forall s :: s in before + [spec.value] <==> s in before || s == spec.value;
    }
  }

  /** Tokens joined by commas or semicolons. */
  function Listed(tokens: seq<string>, seps: seq<char>): string
    requires |tokens| == |seps| + 1
  {
    if seps == [] then tokens[0] else tokens[0] + [seps[0]] + Listed(tokens[1..], seps[1..])
  }

  predicate Plain(tok: string) { ',' !in tok && ';' !in tok }

  predicate AllPlain(tokens: seq<string>) { forall i :: 0 <= i < |tokens| ==> Plain(tokens[i]) }

  predicate Separators(seps: seq<char>) { forall i :: 0 <= i < |seps| ==> seps[i] == ',' || seps[i] == ';' }

  lemma {:induction false} CommasPlain(tok: string)
    requires Plain(tok)
    ensures Commas(tok) == tok
  {
    if tok != [] {
      CommasPlain(tok[1..]);
      assert tok == [tok[0]] + tok[1..];
    }
  }

  lemma {:induction false} CommasAppend(a: string, b: string)
    ensures Commas(a + b) == Commas(a) + Commas(b)
  {
    if a == [] {
      assert a + b == b;
    } else {
      assert (a + b)[1..] == a[1..] + b;
      CommasAppend(a[1..], b);
    }
  }

  lemma CommasOne(sep: char)
    requires sep == ',' || sep == ';'
    ensures Commas([sep]) == [',']
  {
    assert [sep][1..] == [];
  }

  lemma CommasJoined(tok: string, sep: char, rest: string)
    requires Plain(tok) && (sep == ',' || sep == ';')
    ensures Commas(tok + [sep] + rest) == tok + [','] + Commas(rest)
  {
    CommasAppend(tok + [sep], rest);
    CommasAppend(tok, [sep]);
    CommasPlain(tok);
    CommasOne(sep);
  }

  /** The list is taken apart where it was put together, whichever separators it uses. */
  lemma {:induction false} TokensOfListed(tokens: seq<string>, seps: seq<char>)
    requires |tokens| == |seps| + 1 && AllPlain(tokens) && Separators(seps)
    ensures Tokens(Listed(tokens, seps)) == tokens
  {
    CommasPlain(tokens[0]);
    if seps == [] {
      SplitFree(tokens[0], ',');
      assert tokens == [tokens[0]];
    } else {
      var rest := Listed(tokens[1..], seps[1..]);
      TokensOfListed(tokens[1..], seps[1..]);
      CommasJoined(tokens[0], seps[0], rest);
      SplitHead(tokens[0], ',', Commas(rest));
      assert tokens == [tokens[0]] + tokens[1..];
    }
  }

  /** A list includes a port exactly when one of its tokens names it. */
  lemma ListMeans(tokens: seq<string>, seps: seq<char>, p: int)
    requires |tokens| == |seps| + 1 && AllPlain(tokens) && Separators(seps)
    ensures Covers(Specs(Listed(tokens, seps)), p) <==> SomeNames(tokens, p)
  {
    TokensOfListed(tokens, seps);
    SpecsCover(tokens, p);
  }
}
