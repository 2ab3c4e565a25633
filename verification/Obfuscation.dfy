/** AmneziaWG 3.1 obfuscation parameters (internal/amneziawg/params.go): the generator and the validator it must
    satisfy, which meet only through decimal and range strings. */
module Obfuscation {
  import opened Text

  const H_MAX := 2147483647        // generated headers
  const UINT32_MAX := 4294967295   // accepted headers, and the widths of Jc, Jmin, Jmax
  const REKEY_DEFAULT := 120
  const REJECT_DEFAULT := 180

  datatype Params = Params(
    jc: int, jmin: int, jmax: int, s1: int, s2: int, s3: int, s4: int,
    h: seq<string>, i: seq<string>, headerProtectionKey: string,
    contentPaddingAddition: string, rekeyAfterTime: string, rekeyTimeout: string, rejectAfterTime: string,
    keepaliveTimeout: string, maxHandshakeAttempts: string, randomTrailers: bool, disableCookies: bool)

  /** H1 to H4 and I1 to I5. */
  predicate WellShaped(o: Params) { |o.h| == 4 && |o.i| == 5 }

  // ---------------------------------------------------------------- ranges

  datatype Range = Range(lo: int64, hi: int64, ok: bool)

  const NO_RANGE := Range(0, 0, false)

  /** parseUintRange. */
  function ParseRange(v: string): Range {
    var t := Trim(v);
    if t == "" then NO_RANGE
    else
      var (loS, hiS, isRange) := Cut(t, '-');
      if isRange then
        var l, h := ParseInt(Trim(loS)), ParseInt(Trim(hiS));
        if !l.ok || !h.ok then NO_RANGE else Range(l.value, h.value, true)
      else
        var n := ParseInt(t);
        if !n.ok then NO_RANGE else Range(n.value, n.value, true)
  }

  predicate Blank(v: string) { Trim(v) == "" }

  /** ValidateConfigValue. */
  predicate NoControl(v: string) { forall c <- v :: c as int >= 0x20 && c as int != 0x7f }

  /** validateUintRange. */
  predicate RangeOk(v: string, min: int) {
    Blank(v) || (NoControl(v) && var r := ParseRange(v); r.ok && min <= r.lo <= r.hi <= UINT32_MAX)
  }

  // ---------------------------------------------------------------- headers

  /** The header values message type n can carry: a blank Hn keeps WireGuard's own type n. */
  function Header(v: string, n: int): (int, int) {
    var r := ParseRange(v);
    if r.ok then (r.lo as int, r.hi as int) else (n, n)
  }

  predicate Apart(a: (int, int), b: (int, int)) { !(a.0 <= b.1 && b.0 <= a.1) }

  predicate HeadersApart(h: seq<string>) {
    forall i, j :: 0 <= i < j < |h| ==> Apart(Header(h[i], i + 1), Header(h[j], j + 1))
  }

  /** validateHNoOverlap: two passes, the second over all pairs. */
  method ValidateHeadersApart(h: seq<string>) returns (ok: bool)
    ensures ok <==> HeadersApart(h)
  {
    var bounds: seq<(int, int)> := [];
    for i := 0 to |h|
      invariant |bounds| == i
      invariant forall k :: 0 <= k < i ==> bounds[k] == Header(h[k], k + 1)
    {
      var r := ParseRange(h[i]);
      var lo: int, hi: int := r.lo, r.hi;
      if !r.ok { lo, hi := i + 1, i + 1; }
      bounds := bounds + [(lo, hi)];
    }
    for i := 0 to |h|
      invariant forall k, l :: 0 <= k < i && k < l < |h| ==> Apart(bounds[k], bounds[l])
    {
      for j := i + 1 to |h|
        invariant forall l :: i < l < j ==> Apart(bounds[i], bounds[l])
      {
        if bounds[i].0 <= bounds[j].1 && bounds[j].0 <= bounds[i].1 {
          assert !Apart(Header(h[i], i + 1), Header(h[j], j + 1));
          return false;
        }
      }
    }
    ok := true;
  }

  // ---------------------------------------------------------------- signature packets

  /** The first of strings.Fields, or the empty string. */
  function FirstField(s: string): string { Word(TrimLeft(s)) }

  function Word(s: string): string {
    if s == [] || IsSpace(s[0]) then [] else [s[0]] + Word(s[1..])
  }

  const CHAIN_TAGS: set<string> := {"b", "t", "r", "rc", "rd", "d", "ds", "dz"}

  lemma CutShorter(s: string, c: char)
    ensures |Cut(s, c).1| <= |s| && (Cut(s, c).2 ==> |Cut(s, c).1| < |s|)
  {
    CutParts(s, c);
  }

  /** Every '<' is closed by a '>' and what lies between starts with a known tag. */
  predicate TagsOk(s: string)
    decreases |s|
  {
    var (_, after, found) := Cut(s, '<');
    if !found then true
    else
      var (tag, rest, closed) := Cut(after, '>');
      CutShorter(s, '<');
      CutShorter(after, '>');
      closed && FirstField(tag) in CHAIN_TAGS && TagsOk(rest)
  }

  predicate ChainOk(spec: string) { Blank(spec) || TagsOk(spec) }

  /** validateObfChain: a loop over what remains. */
  method ValidateChain(spec: string) returns (ok: bool)
    ensures ok <==> ChainOk(spec)
  {
    if Trim(spec) == "" { return true; }
    var remaining := spec;
    while true
      invariant TagsOk(remaining) <==> TagsOk(spec)
      decreases |remaining|
    {
      var (_, after, found) := Cut(remaining, '<');
      if !found { return true; }
      var (tag, rest, closed) := Cut(after, '>');
      if !closed { return false; }
      var field := FirstField(tag);
      if field == "" || field !in CHAIN_TAGS { return false; }
      CutShorter(remaining, '<');
      CutShorter(after, '>');
      remaining := rest;
    }
  }

  /** A single "<tag value>" is a chain exactly when its tag is known. */
  lemma OneTag(tag: string, value: string)
    requires tag != "" && Free(tag, '>') && Free(value, '>') && forall c <- tag :: !IsSpace(c)
    ensures TagsOk("<" + (tag + " " + value) + ">") <==>
              tag == "b" || tag == "t" || tag == "r" || tag == "rc" || tag == "rd" || tag == "d" || tag == "ds"
              || tag == "dz"
  {
    var inner := tag + " " + value;
    assert FirstField(inner) == tag by {
      assert tag[0] in tag && inner[0] == tag[0];
      assert TrimLeft(inner) == inner;
      WordOf(tag, value);
    }
    TagsOfOne(inner);
  }

  lemma TagsOfOne(inner: string)
    requires Free(inner, '>')
    ensures TagsOk("<" + inner + ">") <==> FirstField(inner) in CHAIN_TAGS
  {
    var s := "<" + inner + ">";
    assert Cut(s, '<') == ([], inner + ">", true) by {
      assert s == [] + ['<'] + (inner + ">");
      CutAt([], '<', inner + ">");
    }
    assert Cut(inner + ">", '>') == (inner, [], true) by {
      assert inner + ">" == inner + ['>'] + [];
      CutAt(inner, '>', []);
    }
    assert TagsOk([]);
  }

  lemma {:induction false} WordOf(tag: string, value: string)
    requires forall c <- tag :: !IsSpace(c)
    ensures Word(tag + " " + value) == tag
  {
    var s := tag + " " + value;
    if tag == [] {
      assert s[0] == ' ';
    } else {
      assert s[0] == tag[0] && tag[0] in tag;
      assert s[1..] == tag[1..] + " " + value;
      WordOf(tag[1..], value);
      assert tag == [tag[0]] + tag[1..];
    }
  }

  // ---------------------------------------------------------------- the validator

  /** base64 decoding, as far as the validator looks at it. */
  type Decoder = string -> Option<nat>

  predicate KeyOk(v: string, decodedLength: Decoder) {
    v == "" || (NoControl(v) && decodedLength(v) == Some(32))
  }

  predicate SizesOk(o: Params) {
    && o.jmin <= o.jmax
    && 0 <= o.jc <= UINT32_MAX && 0 <= o.jmin <= UINT32_MAX && 0 <= o.jmax <= UINT32_MAX
    && 0 <= o.s1 <= 1700 - 148 && 0 <= o.s2 <= 1700 - 92 && 0 <= o.s3 <= 1700 - 64
    && 0 <= o.s4 <= 32
    && o.s1 + 56 != o.s2
    && (o.headerProtectionKey != "" ==> o.s1 >= 12 && o.s2 >= 12 && o.s3 >= 12 && o.s4 >= 12)
  }

  predicate TimersOk(o: Params) {
    && RangeOk(o.rekeyAfterTime, 1) && RangeOk(o.rekeyTimeout, 1) && RangeOk(o.rejectAfterTime, 1)
    && RangeOk(o.keepaliveTimeout, 1) && RangeOk(o.maxHandshakeAttempts, 1)
    && RekeyBelowReject(o)
  }

  /** The comparison as the validator makes it. */
  predicate RekeyBelowReject(o: Params) {
    (o.rekeyAfterTime != "" || o.rejectAfterTime != "") ==>
      var rekeyHi := if o.rekeyAfterTime != "" then ParseRange(o.rekeyAfterTime).hi else REKEY_DEFAULT;
      var rejectLo := if o.rejectAfterTime != "" then ParseRange(o.rejectAfterTime).lo else REJECT_DEFAULT;
      rekeyHi < rejectLo
  }

  predicate Accepts(o: Params, decodedLength: Decoder) {
    && SizesOk(o)
    && (forall v <- o.i :: ChainOk(v))
    && (forall v <- o.h :: RangeOk(v, 0))
    && HeadersApart(o.h)
    && KeyOk(o.headerProtectionKey, decodedLength)
    && RangeOk(o.contentPaddingAddition, 0)
    && TimersOk(o)
  }

  /** ValidateObfuscation, in its own order. */
  method Validate(o: Params, decodedLength: Decoder) returns (ok: bool)
    ensures ok <==> Accepts(o, decodedLength)
  {
    var sizes := ValidateSizes(o);
    if !sizes { return false; }
    for k := 0 to |o.i|
      invariant forall l :: 0 <= l < k ==> ChainOk(o.i[l])
    {
      var chain := ValidateChain(o.i[k]);
      if !chain { return false; }
    }
    if o.s4 < 0 || o.s4 > 32 || o.s1 + 56 == o.s2 { return false; }
    for k := 0 to |o.h|
      invariant forall l :: 0 <= l < k ==> RangeOk(o.h[l], 0)
    {
      if !RangeOk(o.h[k], 0) { return false; }
    }
    var apart := ValidateHeadersApart(o.h);
    if !apart || !KeyOk(o.headerProtectionKey, decodedLength) { return false; }
    if o.headerProtectionKey != "" && (o.s1 < 12 || o.s2 < 12 || o.s3 < 12 || o.s4 < 12) { return false; }
    ok := RangeOk(o.contentPaddingAddition, 0) && TimersOk(o);
  }

  /** Its first part: the numeric fields against their upper bounds. */
  method ValidateSizes(o: Params) returns (ok: bool)
    ensures ok <==> && o.jmin <= o.jmax
                    && 0 <= o.jc <= UINT32_MAX && 0 <= o.jmin <= UINT32_MAX && 0 <= o.jmax <= UINT32_MAX
                    && 0 <= o.s1 <= 1700 - 148 && 0 <= o.s2 <= 1700 - 92 && 0 <= o.s3 <= 1700 - 64
  {
    if o.jmin > o.jmax { return false; }
    var fields := [(o.jc, UINT32_MAX), (o.jmin, UINT32_MAX), (o.jmax, UINT32_MAX),
                   (o.s1, 1552), (o.s2, 1608), (o.s3, 1636)];
    for k := 0 to |fields|
      invariant forall l :: 0 <= l < k ==> 0 <= fields[l].0 <= fields[l].1
    {
      if fields[k].0 < 0 || fields[k].0 > fields[k].1 {
        return false;
      }
    }
    assert 0 <= fields[0].0 <= fields[0].1 && 0 <= fields[1].0 <= fields[1].1 && 0 <= fields[2].0 <= fields[2].1;
    assert 0 <= fields[3].0 <= fields[3].1 && 0 <= fields[4].0 <= fields[4].1 && 0 <= fields[5].0 <= fields[5].1;
    ok := true;
  }

  // ---------------------------------------------------------------- what acceptance means

  /** Message type n + 1 may carry header x. */
  predicate Carries(h: seq<string>, n: int, x: int) {
    0 <= n < |h| && Header(h[n], n + 1).0 <= x <= Header(h[n], n + 1).1
  }

  /** The four message types never share a header value, each within uint32. */
  lemma AcceptedHeadersDisjoint(o: Params, decodedLength: Decoder, i: nat, j: nat, x: int)
    requires WellShaped(o) && Accepts(o, decodedLength) && i < 4 && j < 4
    ensures var a := Header(o.h[i], i + 1); 0 <= a.0 <= a.1 <= UINT32_MAX
    ensures Carries(o.h, i, x) && Carries(o.h, j, x) ==> i == j
  {
    assert RangeOk(o.h[i], 0) && RangeOk(o.h[j], 0);
    if i < j {
      assert Apart(Header(o.h[i], i + 1), Header(o.h[j], j + 1));
    } else if j < i {
      assert Apart(Header(o.h[j], j + 1), Header(o.h[i], i + 1));
    }
  }

  /** An accepted timer is blank or a window of whole seconds, none of them zero. */
  lemma AcceptedTimers(o: Params, decodedLength: Decoder, v: string)
    requires Accepts(o, decodedLength) && !Blank(v)
    requires v in {o.rekeyAfterTime, o.rekeyTimeout, o.rejectAfterTime, o.keepaliveTimeout, o.maxHandshakeAttempts}
    ensures var r := ParseRange(v); r.ok && 1 <= r.lo <= r.hi <= UINT32_MAX
  {
  }

  /** The validator refuses headers only if a value is malformed or two intervals really meet. */
  lemma RefusedHeadersMeet(h: seq<string>)
    requires forall v <- h :: RangeOk(v, 0)
    ensures !HeadersApart(h) <==> exists i: int, j: int, x: int :: i < j && Carries(h, i, x) && Carries(h, j, x)
  {
    if !HeadersApart(h) {
      var i, j :| 0 <= i < j < |h| && !Apart(Header(h[i], i + 1), Header(h[j], j + 1));
      assert RangeOk(h[i], 0) && RangeOk(h[j], 0);
      var a, b := Header(h[i], i + 1), Header(h[j], j + 1);
      var x := if a.0 <= b.0 then b.0 else a.0;
      assert Carries(h, i, x) && Carries(h, j, x);
    }
  }

  /** The padded handshake initiation and response never have the same length. */
  lemma HandshakesDiffer(o: Params, decodedLength: Decoder)
    requires Accepts(o, decodedLength)
    ensures 148 + o.s1 != 92 + o.s2 && 148 + o.s1 <= 1700 && 92 + o.s2 <= 1700 && 64 + o.s3 <= 1700
  {
  }

  /** The times a timer can take: a blank field means WireGuard's own default. */
  predicate CanTake(v: string, default: int, t: int) {
    if Blank(v) then t == default else ParseRange(v).lo <= t <= ParseRange(v).hi
  }

  /** Every session can be renewed before it is rejected. */
  ghost predicate RenewsInTime(o: Params) {
    forall rekey: int, reject: int ::
      CanTake(o.rekeyAfterTime, REKEY_DEFAULT, rekey) && CanTake(o.rejectAfterTime, REJECT_DEFAULT, reject) ==>
        rekey < reject
  }

  /** A rekey time of white space only counts as zero in the comparison, although it means the default. */
  predicate BlankRekeyTooLate(o: Params) {
    && o.rekeyAfterTime != "" && Blank(o.rekeyAfterTime)
    && !Blank(o.rejectAfterTime) && ParseRange(o.rejectAfterTime).lo <= REKEY_DEFAULT
  }

  /** An accepted set renews every session in time, unless its rekey time is white space only and its reject time can
      fall to the default rekey time. */
  lemma AcceptedRenewsIff(o: Params, decodedLength: Decoder)
    requires Accepts(o, decodedLength)
    ensures RenewsInTime(o) <==> !BlankRekeyTooLate(o)
  {
    var k, j := o.rekeyAfterTime, o.rejectAfterTime;
    assert Trim("") == "";
    assert Blank(j) ==> j == "";
    if BlankRekeyTooLate(o) {
      assert CanTake(k, REKEY_DEFAULT, REKEY_DEFAULT) && CanTake(j, REJECT_DEFAULT, ParseRange(j).lo);
    }
  }

  lemma SixtySeconds()
    ensures ParseRange("60") == Range(60, 60, true) && !Blank("60") && RangeOk("60", 1)
  {
    assert Itoa(60) == "60" by { assert NatToString(6) == "6"; }
    PrintedNumber(60);
  }

  /** Such a set exists: a blank rekey time next to a reject time of 60 seconds is accepted. */
  lemma BlankRekeyAccepted(o: Params, decodedLength: Decoder)
    requires Accepts(o, decodedLength) && o.rekeyAfterTime == "" && o.rejectAfterTime == ""
    ensures var bad := o.(rekeyAfterTime := " ", rejectAfterTime := "60");
            Accepts(bad, decodedLength) && !RenewsInTime(bad)
  {
    var bad := o.(rekeyAfterTime := " ", rejectAfterTime := "60");
    assert TrimLeft(" ") == "";
    assert Blank(" ");
    SixtySeconds();
    assert SizesOk(bad) && TimersOk(bad);
    AcceptedRenewsIff(bad, decodedLength);
  }

  // ---------------------------------------------------------------- printed numbers and ranges

  lemma DigitsNoControl(s: string)
    requires AllDigits(s)
    ensures NoControl(s) && Free(s, '-') && Free(s, '>')
  {
  }

  lemma PrintedNumber(n: nat)
    requires n <= UINT32_MAX
    ensures ParseRange(Itoa(n)) == Range(n, n, true) && !Blank(Itoa(n)) && NoControl(Itoa(n))
    ensures forall min :: 0 <= min <= n ==> RangeOk(Itoa(n), min)
  {
    ItoaPlain(n);
    DigitsNoControl(Itoa(n));
    CutMissing(Itoa(n), '-');
    ParseItoa(n);
  }

  function Printed(lo: nat, hi: nat): string { Itoa(lo) + "-" + Itoa(hi) }

  lemma PrintedRange(lo: nat, hi: nat)
    requires lo <= hi <= UINT32_MAX
    ensures ParseRange(Printed(lo, hi)) == Range(lo, hi, true)
    ensures !Blank(Printed(lo, hi)) && NoControl(Printed(lo, hi))
    ensures forall min :: 0 <= min <= lo ==> RangeOk(Printed(lo, hi), min)
  {
    var v := Printed(lo, hi);
    ItoaPlain(lo);
    ItoaPlain(hi);
    DigitsNoControl(Itoa(lo));
    DigitsNoControl(Itoa(hi));
    assert v[0] == Itoa(lo)[0] && v[|v| - 1] == Itoa(hi)[|Itoa(hi)| - 1];
    assert v[0] in Itoa(lo) && v[|v| - 1] in Itoa(hi);
    TrimOfTrimmed(v);
    CutAt(Itoa(lo), '-', Itoa(hi));
    ParseItoa(lo);
    ParseItoa(hi);
  }

  // ---------------------------------------------------------------- the generator

  /** randInt: the random source yields a number, or nothing when it fails. */
  function RandInt(min: int, max: int, raw: Option<nat>): (r: int)
    ensures min <= max ==> min <= r <= max
    ensures raw.None? ==> r == min
  {
    if max <= min || raw.None? then min else min + raw.value % (max - min + 1)
  }

  datatype Draw =
    | JcDraw | JminDraw | JmaxDraw | S1Draw | S3Draw | S4Draw | HDraw(n: nat) | I1Draw
    | PadLow | PadSpan | RekeyLow | RekeySpan | RejectGap | RejectSpan | TimeoutLow | TimeoutSpan
    | KeepaliveLow | KeepaliveSpan | AttemptsLow | AttemptsSpan

  const BAND := (H_MAX - 5 + 1) / 4

  /** generateHValues: one value per band, so no two can meet. */
  method GenerateHeaders(rnd: Draw -> Option<nat>) returns (h: seq<string>)
    ensures |h| == 4 && HeadersApart(h) && forall v <- h :: RangeOk(v, 0) && !Blank(v)
    ensures forall i :: 0 <= i < 4 ==> InBand(h[i], i)
  {
    h := [];
    for i := 0 to 4
      invariant |h| == i
      invariant forall v <- h :: RangeOk(v, 0) && !Blank(v)
      invariant forall k :: 0 <= k < i ==> InBand(h[k], k)
    {
      var low := 5 + i * BAND;
      var x := RandInt(low, low + BAND - 1, rnd(HDraw(i)));
      HeaderInBand(x, i);
      h := h + [Itoa(x)];
    }
    BandsApart(h);
  }

  predicate InBand(v: string, i: nat) {
    5 + i * BAND <= Header(v, i + 1).0 == Header(v, i + 1).1 < 5 + (i + 1) * BAND
  }

  lemma HeaderInBand(x: nat, i: nat)
    requires i < 4 && 5 + i * BAND <= x < 5 + (i + 1) * BAND
    ensures InBand(Itoa(x), i) && RangeOk(Itoa(x), 0) && !Blank(Itoa(x))
  {
    PrintedNumber(x);
  }

  lemma BandsApart(h: seq<string>)
    requires |h| == 4 && forall i :: 0 <= i < 4 ==> InBand(h[i], i)
    ensures HeadersApart(h)
  {
    assert InBand(h[0], 0) && InBand(h[1], 1) && InBand(h[2], 2) && InBand(h[3], 3);
  }

  /** The retry loop for S2. It ends in every run in which some draw avoids the excluded value; those runs are the
      ones in which the function returns. */
  method DrawS2(s1: int, retry: nat -> Option<nat>, ghost stop: nat) returns (s2: int)
    requires s1 + 56 != RandInt(15, 150, retry(stop))
    ensures 15 <= s2 <= 150 && s1 + 56 != s2
  {
    var n := 0;
    s2 := RandInt(15, 150, retry(0));
    while s1 + 56 == s2
      invariant n <= stop && s2 == RandInt(15, 150, retry(n))
      decreases stop - n
    {
      n := n + 1;
      s2 := RandInt(15, 150, retry(n));
    }
  }

  lemma SignatureOk(n: nat)
    ensures ChainOk("<r " + Itoa(n) + ">")
  {
    ItoaPlain(n);
    DigitsNoControl(Itoa(n));
    OneTag("r", Itoa(n));
    assert "<" + ("r" + " " + Itoa(n)) + ">" == "<r " + Itoa(n) + ">";
  }

  /** GenerateObfuscation31: whatever the random source yields, including nothing at all, the validator accepts the
      result, and the windows leave at least 30 seconds between the last rekey and the first reject. */
  method Generate(rnd: Draw -> Option<nat>, retry: nat -> Option<nat>, key: string, decodedLength: Decoder, ghost stop: nat)
    returns (o: Params)
    requires RandInt(15, 150, rnd(S1Draw)) + 56 != RandInt(15, 150, retry(stop))
    requires key == "" || (NoControl(key) && decodedLength(key) == Some(32))
    ensures WellShaped(o) && Accepts(o, decodedLength) && RenewsInTime(o)
    ensures ParseRange(o.rejectAfterTime).lo - ParseRange(o.rekeyAfterTime).hi >= 30
    ensures forall v <- o.h :: !Blank(v)
    ensures o.headerProtectionKey == key && o.randomTrailers && o.disableCookies
    ensures o.i[1..] == ["", "", "", ""] && exists n: nat :: 32 <= n <= 256 && o.i[0] == "<r " + Itoa(n) + ">"
  {
    var jc := RandInt(3, 6, rnd(JcDraw));
    var jmin := RandInt(40, 89, rnd(JminDraw));
    var jmax := jmin + RandInt(50, 250, rnd(JmaxDraw));
    var s1 := RandInt(15, 150, rnd(S1Draw));
    var s2 := DrawS2(s1, retry, stop);
    var s3 := RandInt(12, 55, rnd(S3Draw));
    var s4 := RandInt(12, 27, rnd(S4Draw));
    var h := GenerateHeaders(rnd);
    var n := RandInt(32, 256, rnd(I1Draw));
    SignatureOk(n);
    var i1 := "<r " + Itoa(n) + ">";
    var pad := Window(8, 24, 8, 40, rnd(PadLow), rnd(PadSpan));
    var rekey, reject := Timers(rnd);
    var timeout := Window(3, 6, 1, 4, rnd(TimeoutLow), rnd(TimeoutSpan));
    var keepalive := Window(8, 12, 2, 8, rnd(KeepaliveLow), rnd(KeepaliveSpan));
    var attempts := Window(15, 25, 5, 25, rnd(AttemptsLow), rnd(AttemptsSpan));
    o := Params(jc, jmin, jmax, s1, s2, s3, s4, h, [i1, "", "", "", ""], key, pad, rekey, timeout,
                reject, keepalive, attempts, true, true);
    assert Blank("");
    assert SizesOk(o);
    assert TimersOk(o);
    AcceptedRenewsIff(o, decodedLength);
  }

  /** The rekey and reject windows: every reject value exceeds every rekey value by construction. */
  method Timers(rnd: Draw -> Option<nat>) returns (rekey: string, reject: string)
    ensures RangeOk(rekey, 1) && RangeOk(reject, 1) && !Blank(rekey) && !Blank(reject)
    ensures ParseRange(reject).lo - ParseRange(rekey).hi >= 30
  {
    var rkLo := RandInt(100, 120, rnd(RekeyLow));
    var rkHi := rkLo + RandInt(10, 40, rnd(RekeySpan));
    PrintedRange(rkLo, rkHi);
    var rjLo := rkHi + RandInt(30, 60, rnd(RejectGap));
    var rjHi := rjLo + RandInt(30, 90, rnd(RejectSpan));
    PrintedRange(rjLo, rjHi);
    rekey, reject := Printed(rkLo, rkHi), Printed(rjLo, rjHi);
  }

  /** A "low-high" field with a random low end and a random width. */
  method Window(lowMin: nat, lowMax: nat, spanMin: nat, spanMax: nat, low: Option<nat>, span: Option<nat>)
    returns (v: string)
    requires lowMin <= lowMax && spanMin <= spanMax && lowMax + spanMax <= UINT32_MAX
    ensures forall min :: 0 <= min <= lowMin ==> RangeOk(v, min)
    ensures !Blank(v)
  {
    var lo := RandInt(lowMin, lowMax, low);
    var hi := lo + RandInt(spanMin, spanMax, span);
    PrintedRange(lo, hi);
    v := Printed(lo, hi);
  }
}
