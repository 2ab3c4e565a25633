/** Forwarded-port specifications (internal/amneziawg/portfwd.go): parsing, membership, and capped expansion. */
module Ports {
  import opened Text

  const MAX_PORTS := 100

  /** A single port (start == end) or an inclusive range. */
  datatype PortSpec = PortSpec(start: int, end: int)

  predicate ValidSpec(s: PortSpec) { 1 <= s.start <= s.end <= 65535 }

  // ---------------------------------------------------------------- parsing

  function ParsePort(s: string): (n: Option<int>)
    ensures n.Some? ==> 1 <= n.value <= 65535
  {
    var p := ParseInt(s);
    if !p.ok || p.value < 1 || p.value > 65535 then None else Some(p.value)
  }

  function ParseToken(tok: string): (r: Option<PortSpec>)
    ensures r.Some? ==> ValidSpec(r.value)
  {
    var (before, after, isRange) := Cut(tok, '-');
    if isRange then
      var start, end := ParsePort(Trim(before)), ParsePort(Trim(after));
      if start.None? || end.None? || start.value > end.value then None else Some(PortSpec(start.value, end.value))
    else
      var p := ParsePort(tok);
      if p.None? then None else Some(PortSpec(p.value, p.value))
  }

  function Commas(s: string): string {
    if s == [] then [] else [if s[0] == ';' then ',' else s[0]] + Commas(s[1..])
  }

  function Tokens(input: string): seq<string> { Split(Commas(input), ',') }

  /** The specs of the valid tokens, each once, in order of first appearance. */
  function SpecsOf(tokens: seq<string>): (specs: seq<PortSpec>)
    ensures forall s <- specs :: ValidSpec(s)
  {
    if tokens == [] then []
    else
      var before := SpecsOf(tokens[..|tokens| - 1]);
      var spec := ParseToken(Trim(tokens[|tokens| - 1]));
      if spec.None? || spec.value in before then before else before + [spec.value]
  }

  function Specs(input: string): seq<PortSpec> { SpecsOf(Tokens(input)) }

  /** The text under which parsed specs are remembered. */
  function SpecKey(s: PortSpec): string { Itoa(s.start) + "-" + Itoa(s.end) }

  lemma SpecKeyInjective(a: PortSpec, b: PortSpec)
    requires ValidSpec(a) && ValidSpec(b) && SpecKey(a) == SpecKey(b)
    ensures a == b
  {
    ItoaPlain(a.start);
    ItoaPlain(b.start);
    assert '-' !in Itoa(a.start) && '-' !in Itoa(b.start);
    CutAt(Itoa(a.start), '-', Itoa(a.end));
    CutAt(Itoa(b.start), '-', Itoa(b.end));
    NatToStringInjective(a.start, b.start);
    NatToStringInjective(a.end, b.end);
  }

  lemma BlankToken()
    ensures ParseToken("").None?
  {
    assert ParseInt("") == Parsed(0, false);
  }

  lemma NoTokens()
    ensures Specs("") == []
  {
    BlankToken();
    assert Commas("") == "";
    assert Tokens("") == [""];
    assert SpecsOf([""][..0]) == [];
    assert Trim("") == "";
  }

  function KeysOf(specs: seq<PortSpec>): set<string> { set s <- specs :: SpecKey(s) }

  lemma KeysSnoc(specs: seq<PortSpec>, s: PortSpec)
    ensures KeysOf(specs + [s]) == KeysOf(specs) + {SpecKey(s)}
  {
    assert forall t :: t in specs + [s] <==> t in specs || t == s;
  }

  lemma KeySeen(specs: seq<PortSpec>, s: PortSpec)
    requires ValidSpec(s) && forall t <- specs :: ValidSpec(t)
    ensures SpecKey(s) in KeysOf(specs) <==> s in specs
  {
    if SpecKey(s) in KeysOf(specs) {
      var t :| t in specs && SpecKey(t) == SpecKey(s);
      SpecKeyInjective(t, s);
    }
  }

  /** parseForwardedPorts: remembering printed keys is remembering specs. */
  method ParseForwardedPorts(input: string) returns (specs: seq<PortSpec>)
    ensures specs == Specs(input)
  {
    if input == "" { NoTokens(); return []; }
    var tokens := Tokens(input);
    specs := [];
    var seen: set<string> := {};
    for i := 0 to |tokens|
      invariant specs == SpecsOf(tokens[..i])
      invariant seen == KeysOf(specs)
    {
      assert tokens[..i + 1][..i] == tokens[..i];
      var tok := Trim(tokens[i]);
      if tok == "" { BlankToken(); continue; }
      var spec := ParseToken(tok);
      if spec.None? { continue; }
      var key := SpecKey(spec.value);
      KeySeen(specs, spec.value);
      if key in seen { continue; }
      KeysSnoc(specs, spec.value);
      seen := seen + {key};
      specs := specs + [spec.value];
    }
    assert tokens[..|tokens|] == tokens;
  }

  // ---------------------------------------------------------------- membership

  predicate Covers(specs: seq<PortSpec>, port: int) { exists s <- specs :: s.start <= port <= s.end }

  /** ForwardedPortsInclude. */
  method Includes(input: string, port: int) returns (r: bool)
    ensures r <==> Covers(Specs(input), port)
  {
    var specs := ParseForwardedPorts(input);
    r := Search(specs, port);
  }

  method Search(specs: seq<PortSpec>, port: int) returns (r: bool)
    ensures r <==> Covers(specs, port)
  {
    for i := 0 to |specs|
      invariant forall k :: 0 <= k < i ==> !(specs[k].start <= port <= specs[k].end)
    {
      if port >= specs[i].start && port <= specs[i].end { return true; }
    }
    r := false;
  }

  /** All ports a specification covers. */
  function Covered(specs: seq<PortSpec>): set<int> { set p | 1 <= p <= 65535 && Covers(specs, p) }

  lemma CoveredIsCovers(specs: seq<PortSpec>, p: int)
    requires forall s <- specs :: ValidSpec(s)
    ensures p in Covered(specs) <==> Covers(specs, p)
  {
  }

  // ---------------------------------------------------------------- expansion, the simple way

  function Range(start: int, end: int): seq<int>
    decreases end - start
  {
    if start > end then [] else Range(start, end - 1) + [end]
  }

  lemma {:induction false} RangeMeans(start: int, end: int, p: int)
    ensures p in Range(start, end) <==> start <= p <= end
    decreases end - start
  {
    if start <= end { RangeMeans(start, end - 1, p); }
  }

  function Flatten(specs: seq<PortSpec>): seq<int> {
    if specs == [] then [] else Flatten(specs[..|specs| - 1]) + Range(specs[|specs| - 1].start, specs[|specs| - 1].end)
  }

  /** Keeps the first occurrence of every number. */
  function Dedup(s: seq<int>): seq<int> {
    if s == [] then []
    else
      var before := Dedup(s[..|s| - 1]);
      if s[|s| - 1] in before then before else before + [s[|s| - 1]]
  }

  function Take(limit: nat, s: seq<int>): seq<int> { if |s| <= limit then s else s[..limit] }

  function Insert(x: int, s: seq<int>): seq<int> {
    if s == [] || x <= s[0] then [x] + s else [s[0]] + Insert(x, s[1..])
  }

  /** sort.Ints. */
  function Sort(s: seq<int>): seq<int> { if s == [] then [] else Insert(s[0], Sort(s[1..])) }

  /** Everything the specs name, without repetition, cut at the limit, in order. */
  function Expanded(specs: seq<PortSpec>, limit: nat): seq<int> { Sort(Take(limit, Dedup(Flatten(specs)))) }

  // ---------------------------------------------------------------- expansion, stopping at the limit

  lemma DedupSnoc(s: seq<int>, x: int)
    ensures Dedup(s + [x]) == if x in Dedup(s) then Dedup(s) else Dedup(s) + [x]
  {
    assert (s + [x])[..|s|] == s;
  }

  lemma {:induction false} DedupPrefix(s: seq<int>, t: seq<int>)
    ensures Dedup(s) <= Dedup(s + t)
    decreases |t|
  {
    if t == [] {
      assert s + t == s;
    } else {
      var n := |t| - 1;
      DedupPrefix(s, t[..n]);
      assert s + t == (s + t[..n]) + [t[n]];
      DedupSnoc(s + t[..n], t[n]);
    }
  }

  lemma {:induction false} FlattenPrefix(specs: seq<PortSpec>, i: nat)
    requires i <= |specs|
    ensures Flatten(specs[..i]) <= Flatten(specs)
    decreases |specs|
  {
    if i == |specs| {
      assert specs[..i] == specs;
    } else {
      var n := |specs| - 1;
      assert specs[..n][..i] == specs[..i];
      FlattenPrefix(specs[..n], i);
    }
  }

  /** Once the limit is reached, nothing later can change the outcome. */
  lemma FullIsFinal(specs: seq<PortSpec>, seenSoFar: seq<int>, limit: nat)
    requires seenSoFar <= Flatten(specs) && |Dedup(seenSoFar)| >= limit
    ensures Take(limit, Dedup(Flatten(specs))) == Dedup(seenSoFar)[..limit]
  {
    var all := Flatten(specs);
    assert all == seenSoFar + all[|seenSoFar|..];
    DedupPrefix(seenSoFar, all[|seenSoFar|..]);
  }

  lemma RangeNext(before: seq<int>, start: int, p: int)
    requires start <= p
    ensures before + Range(start, p) == (before + Range(start, p - 1)) + [p]
  {
  }

  /** The inner loop: one spec, until the limit is reached with ports still to come. */
  method AddRange(ghost before: seq<int>, start: int, end: int, limit: nat, seen0: set<int>, found0: seq<int>)
    returns (seen: set<int>, found: seq<int>, full: bool, ghost stop: int)
    requires found0 == Dedup(before) && |found0| <= limit && seen0 == Elems(found0) && start <= end
    ensures seen == Elems(found) && |found| <= limit
    ensures !full ==> found == Dedup(before + Range(start, end))
    ensures full ==> |found| == limit && start <= stop <= end && found == Dedup(before + Range(start, stop - 1))
  {
    seen, found := seen0, found0;
    var p := start;
    ghost var flat := before;
    assert before + Range(start, start - 1) == before;
    while p <= end
      invariant start <= p <= end + 1 && flat == before + Range(start, p - 1)
      invariant found == Dedup(flat) && |found| <= limit && seen == Elems(found)
    {
      if |found| >= limit { return seen, found, true, p; }
      RangeNext(before, start, p);
      DedupSnoc(flat, p);
      flat := flat + [p];
      seen, found := AddOnce(seen, found, p);
      p := p + 1;
    }
    full, stop := false, p;
  }

  method AddOnce(seen0: set<int>, found0: seq<int>, p: int) returns (seen: set<int>, found: seq<int>)
    requires seen0 == Elems(found0)
    ensures found == if p in found0 then found0 else found0 + [p]
    ensures seen == Elems(found)
  {
    seen, found := seen0, found0;
    assert p in seen <==> p in found;
    if p !in seen {
      ElemsSnoc(found, p);
      seen, found := seen + {p}, found + [p];
    }
  }

  /** expandForwardedPorts: expansion that stops at the limit is full expansion cut at the limit. */
  method ExpandSpecs(specs: seq<PortSpec>, limit: nat) returns (ports: seq<int>)
    requires forall s <- specs :: ValidSpec(s)
    ensures ports == Expanded(specs, limit)
  {
    var seen: set<int> := {};
    var found: seq<int> := [];
    for i := 0 to |specs|
      invariant found == Dedup(Flatten(specs[..i])) && |found| <= limit
      invariant seen == Elems(found)
    {
      var spec := specs[i];
      assert spec in specs;
      var full: bool;
      ghost var stop: int;
      seen, found, full, stop := AddRange(Flatten(specs[..i]), spec.start, spec.end, limit, seen, found);
      FlattenNext(specs, i);
      if full {
        FullAt(specs, i, stop, limit, found);
        return Sort(found);
      }
    }
    assert specs[..|specs|] == specs;
    ports := Sort(found);
  }

  lemma FullAt(specs: seq<PortSpec>, i: nat, stop: int, limit: nat, found: seq<int>)
    requires i < |specs| && specs[i].start <= stop <= specs[i].end && |found| == limit
    requires found == Dedup(Flatten(specs[..i]) + Range(specs[i].start, stop - 1))
    ensures Take(limit, Dedup(Flatten(specs))) == found
  {
    var before := Flatten(specs[..i]);
    FlattenNext(specs, i);
    RangePrefix(before, specs[i].start, stop - 1, specs[i].end);
    FullIsFinal(specs, before + Range(specs[i].start, stop - 1), limit);
    assert found[..limit] == found;
  }

  lemma FlattenNext(specs: seq<PortSpec>, i: nat)
    requires i < |specs|
    ensures Flatten(specs[..i + 1]) == Flatten(specs[..i]) + Range(specs[i].start, specs[i].end)
    ensures Flatten(specs[..i]) + Range(specs[i].start, specs[i].end) <= Flatten(specs)
  {
    assert specs[..i + 1][..i] == specs[..i];
    FlattenPrefix(specs, i + 1);
  }

  lemma {:induction false} RangePrefix(before: seq<int>, start: int, mid: int, end: int)
    requires mid <= end
    ensures before + Range(start, mid) <= before + Range(start, end)
    decreases end - mid
  {
    if mid < end {
      RangePrefix(before, start, mid, end - 1);
    }
  }

  /** ExpandForwardedPorts. */
  method Expand(input: string) returns (ports: seq<int>)
    ensures ports == Expanded(Specs(input), MAX_PORTS)
  {
    var specs := ParseForwardedPorts(input);
    ports := ExpandSpecs(specs, MAX_PORTS);
  }

  // ---------------------------------------------------------------- what expansion gives

  predicate Increasing(s: seq<int>) { forall i, j :: 0 <= i < j < |s| ==> s[i] < s[j] }
  predicate Distinct(s: seq<int>) { forall i, j :: 0 <= i < j < |s| ==> s[i] != s[j] }

  lemma {:induction false} DedupMeans(s: seq<int>)
    ensures Distinct(Dedup(s)) && Elems(Dedup(s)) == Elems(s)
  {
    if s != [] {
      var n := |s| - 1;
      DedupMeans(s[..n]);
      assert s == s[..n] + [s[n]];
      ElemsSnoc(s[..n], s[n]);
      ElemsSnoc(Dedup(s[..n]), s[n]);
      assert s[n] in Dedup(s[..n]) <==> s[n] in Elems(Dedup(s[..n]));
    }
  }

  lemma {:induction false} DistinctSize(s: seq<int>)
    requires Distinct(s)
    ensures |Elems(s)| == |s|
  {
    if s != [] {
      var n := |s| - 1;
      DistinctSize(s[..n]);
      assert s == s[..n] + [s[n]];
      ElemsSnoc(s[..n], s[n]);
    }
  }

  lemma {:induction false} InsertMeans(x: int, s: seq<int>)
    requires Increasing(s) && x !in s
    ensures Increasing(Insert(x, s)) && Elems(Insert(x, s)) == {x} + Elems(s) && |Insert(x, s)| == |s| + 1
  {
    if s == [] || x <= s[0] {
      ElemsCons(x, s);
    } else {
      InsertMeans(x, s[1..]);
      var rest := Insert(x, s[1..]);
      assert s == [s[0]] + s[1..];
      ElemsCons(s[0], s[1..]);
      ElemsCons(s[0], rest);
      forall j | 0 <= j < |rest| ensures s[0] < rest[j] {
        ElemsHas(rest, j);
        if rest[j] != x {
          assert rest[j] in s[1..];
        }
      }
    }
  }

  lemma {:induction false} SortMeans(s: seq<int>)
    requires Distinct(s)
    ensures Increasing(Sort(s)) && Elems(Sort(s)) == Elems(s) && |Sort(s)| == |s|
  {
    if s != [] {
      SortMeans(s[1..]);
      assert s == [s[0]] + s[1..];
      ElemsCons(s[0], s[1..]);
      assert s[0] !in Elems(s[1..]);
      assert forall y <- Sort(s[1..]) :: y in Elems(Sort(s[1..]));
      InsertMeans(s[0], Sort(s[1..]));
    }
  }

  lemma {:induction false} FlattenMeans(specs: seq<PortSpec>, p: int)
    ensures p in Flatten(specs) <==> Covers(specs, p)
  {
    if specs != [] {
      var n := |specs| - 1;
      var s := specs[n];
      FlattenMeans(specs[..n], p);
      assert specs == specs[..n] + [s];
      RangeMeans(s.start, s.end, p);
      assert s in specs;
    }
  }

  /** Capped expansion is strictly increasing, names only covered ports, and stops short of them only at the cap. */
  lemma ExpandedMeans(specs: seq<PortSpec>, limit: nat)
    requires forall s <- specs :: ValidSpec(s)
    ensures var r, all := Expanded(specs, limit), Covered(specs);
            && Increasing(r) && Elems(r) <= all
            && |r| == (if |all| <= limit then |all| else limit)
            && (|all| <= limit ==> Elems(r) == all)
  {
    var flat := Flatten(specs);
    var all := Dedup(flat);
    DedupMeans(flat);
    forall p ensures p in Elems(all) <==> p in Covered(specs) {
      FlattenMeans(specs, p);
      CoveredIsCovers(specs, p);
    }
    assert Elems(all) == Covered(specs);
    DistinctSize(all);
    var cut := Take(limit, all);
    assert forall x <- cut :: x in all;
    assert Elems(cut) <= Elems(all);
    SortMeans(cut);
  }

  /** ExceedsForwardedPortsCap: probing one past the cap decides whether more than the cap are covered. */
  method ExceedsCap(input: string) returns (r: bool)
    ensures r <==> |Covered(Specs(input))| > MAX_PORTS
  {
    var specs := ParseForwardedPorts(input);
    var ports := ExpandSpecs(specs, MAX_PORTS + 1);
    ExpandedMeans(specs, MAX_PORTS + 1);
    r := |ports| > MAX_PORTS;
  }
}
