/** The migration of the legacy DNS outbound policy to a first-match rule list, and the repair of its numeric query
    type zero (internal/database/db.go). */
module DnsRules {
  import opened Text

  datatype Mode = Reject | DropAll | Skip

  /** dnsNonIPQueryMode: everything but drop and skip means reject; a value that is no string reads as "". */
  function ModeOf(value: string): Mode {
    var mode := ToLower(Trim(value));
    if mode == "drop" then DropAll else if mode == "skip" then Skip else Reject
  }

  /** The mode is read whatever its case and the white space around it. */
  lemma ModeSpelled(before: string, word: string, after: string)
    requires (forall c <- before :: IsSpace(c)) && (forall c <- after :: IsSpace(c)) && IsTrimmed(word)
    ensures ModeOf(before + word + after) == DropAll <==> ToLower(word) == "drop"
    ensures ModeOf(before + word + after) == Skip <==> ToLower(word) == "skip"
  {
    TrimPadded(before, word, after);
    TrimOfTrimmed(word);
    assert "drop"[0] != "skip"[0];
  }

  datatype QType = Absent | Number(n: int) | Listed(text: string)

  datatype Action = Direct | Drop | Hijack | Return(rCode: int)

  datatype Rule = Rule(action: Action, qType: QType)

  const REFUSED := Return(5)

  // ---------------------------------------------------------------- how the core reads rules

  /** A text lists decimal query types; a number names one, except that a number zero is dropped, and a rule without
      query types matches every query. */
  predicate Matches(q: QType, t: int) {
    match q
    case Absent => true
    case Number(n) => n == 0 || t == n
    case Listed(text) => Lists(Split(text, ','), t)
  }

  predicate Lists(parts: seq<string>, t: int) {
    exists i :: 0 <= i < |parts| && var p := ParseInt(Trim(parts[i])); p.ok && p.value == t
  }

  /** The action of the first rule that matches; a list that runs out sends the query on. */
  function Answer(rules: seq<Rule>, t: int): Action {
    if rules == [] then Direct
    else if Matches(rules[0].qType, t) then rules[0].action
    else Answer(rules[1..], t)
  }

  /** The legacy policy: blocked types first, then the two address types are hijacked, then the mode decides. */
  function Legacy(mode: Mode, blockTypes: seq<int>, t: int): Action { LegacyOf(mode, t in blockTypes, t) }

  function LegacyOf(mode: Mode, blocked: bool, t: int): Action {
    if blocked then (if mode == Reject then REFUSED else Drop)
    else if t == 1 || t == 28 then Hijack
    else match mode case Reject => REFUSED case DropAll => Drop case Skip => Direct
  }

  // ---------------------------------------------------------------- the migration

  predicate QueryTypes(ts: seq<int>) { forall t <- ts :: 0 <= t <= 65535 }

  /** Some item of the legacy block list names the query type. */
  predicate Blocked(items: seq<string>, t: int) {
    exists k :: 0 <= k < |items| && Lists(Split(items[k], ','), t)
  }

  /** legacyDNSBlockTypes, over the printed form of every item the old card saved. */
  method BlockTypes(items: seq<string>) returns (out: seq<int>)
    ensures QueryTypes(out)
    ensures forall t :: t in out <==> 0 <= t <= 65535 && Blocked(items, t)
  {
    out := [];
    for i := 0 to |items|
      invariant QueryTypes(out)
      invariant forall t :: t in out <==> 0 <= t <= 65535 && exists k :: 0 <= k < i && Lists(Split(items[k], ','), t)
    {
      var more := ItemTypes(Split(items[i], ','));
      out := out + more;
    }
  }

  method ItemTypes(parts: seq<string>) returns (out: seq<int>)
    ensures forall t :: t in out <==> 0 <= t <= 65535 && Lists(parts, t)
  {
    out := [];
    for j := 0 to |parts|
      invariant forall t :: t in out <==> 0 <= t <= 65535 && Lists(parts[..j], t)
    {
      ListsNext(parts, j);
      var p := ParseInt(Trim(parts[j]));
      if !p.ok || p.value < 0 || p.value > 65535 { continue; }
      out := out + [p.value as int];
    }
    assert parts[..|parts|] == parts;
  }

  lemma ListsNext(parts: seq<string>, j: nat)
    requires j < |parts|
    ensures forall t :: Lists(parts[..j + 1], t) <==>
              Lists(parts[..j], t) || (ParseInt(Trim(parts[j])).ok && ParseInt(Trim(parts[j])).value == t)
  {
    forall t ensures Lists(parts[..j + 1], t) <==>
              Lists(parts[..j], t) || (ParseInt(Trim(parts[j])).ok && ParseInt(Trim(parts[j])).value == t) {
      if Lists(parts[..j], t) {
        var i :| 0 <= i < j && var p := ParseInt(Trim(parts[..j][i])); p.ok && p.value == t;
        assert parts[..j + 1][i] == parts[..j][i];
      }
      assert parts[..j + 1][j] == parts[j];
      if Lists(parts[..j + 1], t) {
        var i :| 0 <= i < j + 1 && var p := ParseInt(Trim(parts[..j + 1][i])); p.ok && p.value == t;
        if i < j { assert parts[..j][i] == parts[..j + 1][i]; }
      }
    }
  }

  function Printed(ts: seq<int>): seq<string> { seq(|ts|, i requires 0 <= i < |ts| => Itoa(ts[i])) }

  function QTypeValue(blockTypes: seq<int>): QType {
    if |blockTypes| == 1 && blockTypes[0] != 0 then Number(blockTypes[0]) else Listed(Join(Printed(blockTypes), ','))
  }

  /** dnsQTypeValue. */
  method ComputeQTypeValue(blockTypes: seq<int>) returns (q: QType)
    ensures q == QTypeValue(blockTypes)
  {
    if |blockTypes| == 1 && blockTypes[0] != 0 { return Number(blockTypes[0]); }
    var parts: seq<string> := [];
    for i := 0 to |blockTypes|
      invariant parts == Printed(blockTypes[..i])
    {
      parts := parts + [Itoa(blockTypes[i])];
    }
    assert blockTypes[..|blockTypes|] == blockTypes;
    q := Listed(Join(parts, ','));
  }

  function BlockRule(mode: Mode, blockTypes: seq<int>): Rule {
    Rule(if mode == Reject then REFUSED else Drop, QTypeValue(blockTypes))
  }

  const HIJACK_RULE := Rule(Hijack, Listed("1,28"))

  function FallbackRule(mode: Mode): Rule {
    Rule(match mode case Reject => REFUSED case DropAll => Drop case Skip => Direct, Absent)
  }

  function Rules(mode: Mode, blockTypes: seq<int>): seq<Rule> {
    (if blockTypes == [] then [] else [BlockRule(mode, blockTypes)]) + [HIJACK_RULE, FallbackRule(mode)]
  }

  /** legacyDNSOutboundRules: the list answers every query as the legacy policy did. */
  method LegacyRules(mode: Mode, blockTypes: seq<int>) returns (rules: seq<Rule>)
    requires QueryTypes(blockTypes)
    ensures rules == Rules(mode, blockTypes)
    ensures forall t :: Answer(rules, t) == Legacy(mode, blockTypes, t)
  {
    rules := [];
    if |blockTypes| > 0 {
      var q := ComputeQTypeValue(blockTypes);
      var rule := Rule(Drop, q);
      if mode == Reject { rule := rule.(action := Return(5)); }
      rules := rules + [rule];
    }
    rules := rules + [Rule(Hijack, Listed("1,28"))];
    var fallback := Rule(Direct, Absent);
    match mode {
      case Reject => fallback := fallback.(action := Return(5));
      case DropAll => fallback := fallback.(action := Drop);
      case Skip =>
    }
    rules := rules + [fallback];
    forall t ensures Answer(rules, t) == Legacy(mode, blockTypes, t) {
      SameAnswer(mode, blockTypes, t);
    }
  }

  /** The rewrite of one dns outbound, from the two legacy settings as the old card saved them. */
  method Migrate(nonIPQuery: string, blockTypes: seq<string>) returns (rules: seq<Rule>)
    ensures forall t :: 0 <= t <= 65535 ==> Answer(rules, t) == LegacyOf(ModeOf(nonIPQuery), Blocked(blockTypes, t), t)
  {
    var types := BlockTypes(blockTypes);
    rules := LegacyRules(ModeOf(nonIPQuery), types);
  }

  lemma PrintedFree(ts: seq<int>)
    requires QueryTypes(ts)
    ensures AllFree(Printed(ts), ',')
  {
    forall s | s in Printed(ts) ensures Free(s, ',') {
      var i :| 0 <= i < |ts| && s == Itoa(ts[i]);
      ItoaPlain(ts[i]);
    }
  }

  lemma PrintedLists(ts: seq<int>, t: int)
    requires QueryTypes(ts)
    ensures Lists(Printed(ts), t) <==> t in ts
  {
    forall i | 0 <= i < |ts| ensures var p := ParseInt(Trim(Printed(ts)[i])); p.ok && p.value == ts[i] {
      assert ts[i] in ts;
      ItoaPlain(ts[i]);
      ParseItoa(ts[i]);
    }
    if t in ts {
      var i :| 0 <= i < |ts| && ts[i] == t;
      assert ParseInt(Trim(Printed(ts)[i])).value == t;
    }
  }

  lemma JoinedMatches(ts: seq<int>, t: int)
    requires QueryTypes(ts) && ts != []
    ensures Matches(Listed(Join(Printed(ts), ',')), t) <==> t in ts
  {
    PrintedFree(ts);
    SplitJoin(Printed(ts), ',');
    PrintedLists(ts, t);
  }

  lemma HijackMatches(t: int)
    ensures Matches(HIJACK_RULE.qType, t) <==> t == 1 || t == 28
  {
    assert Itoa(28) == "28" by { assert NatToString(2) == "2"; }
    assert Printed([1, 28]) == ["1", "28"];
    assert ["1", "28"][1..] == ["28"];
    assert Join(["1", "28"], ',') == "1,28";
    JoinedMatches([1, 28], t);
  }

  /** For every mode, every block list, [0] included, and every query type. */
  lemma SameAnswer(mode: Mode, blockTypes: seq<int>, t: int)
    requires QueryTypes(blockTypes)
    ensures Answer(Rules(mode, blockTypes), t) == Legacy(mode, blockTypes, t)
  {
    HijackMatches(t);
    var tail := [HIJACK_RULE, FallbackRule(mode)];
    assert tail[1..] == [FallbackRule(mode)];
    assert Answer(tail, t) == Legacy(mode, [], t);
    if blockTypes == [] {
      assert Rules(mode, blockTypes) == tail;
    } else {
      var rules := Rules(mode, blockTypes);
      assert rules[0] == BlockRule(mode, blockTypes) && rules[1..] == tail;
      assert Matches(rules[0].qType, t) <==> t in blockTypes by {
        if |blockTypes| != 1 || blockTypes[0] == 0 {
          JoinedMatches(blockTypes, t);
        }
      }
    }
  }

  // ---------------------------------------------------------------- the repair of numeric zero

  function FixRule(r: Rule): Rule { if r.qType == Number(0) then r.(qType := Listed("0")) else r }

  function FixRules(rules: seq<Rule>): seq<Rule> {
    seq(|rules|, i requires 0 <= i < |rules| => FixRule(rules[i]))
  }

  /** One outbound of the template: its protocol, and its rules. */
  class Outbound {
    const protocol: string
    const rules: array<Rule>
    constructor (protocol: string, rules: array<Rule>)
      ensures this.protocol == protocol && this.rules == rules
    {
      this.protocol, this.rules := protocol, rules;
    }
  }

  /** strings.EqualFold with "dns"; the long s folds to s. */
  predicate IsDns(protocol: string) {
    && |protocol| == 3 && LowerChar(protocol[0]) == 'd' && LowerChar(protocol[1]) == 'n'
    && (LowerChar(protocol[2]) == 's' || protocol[2] as int == 0x17F)
  }

  /** On ASCII text that is comparing lower-case forms. */
  lemma DnsFolded(protocol: string)
    ensures ToLower(protocol) == "dns" ==> IsDns(protocol)
    ensures IsDns(protocol) && (forall c <- protocol :: c as int < 0x80) ==> ToLower(protocol) == "dns"
  {
    if IsDns(protocol) && (forall c <- protocol :: c as int < 0x80) {
      assert protocol[2] in protocol;
      assert ToLower(protocol) == ['d', 'n', 's'];
    }
  }

  /** The inner loop of RewriteDNSOutboundQTypeZero, in place. */
  method RewriteRules(rules: array<Rule>) returns (changed: bool)
    modifies rules
    ensures rules[..] == FixRules(old(rules[..]))
    ensures changed <==> rules[..] != old(rules[..])
  {
    changed := false;
    ghost var before := rules[..];
    for i := 0 to rules.Length
      invariant rules[..i] == FixRules(before)[..i] && rules[i..] == before[i..]
      invariant changed <==> exists k :: 0 <= k < i && before[k].qType == Number(0)
    {
      assert rules[i] == before[i];
      if rules[i].qType == Number(0) {
        rules[i] := rules[i].(qType := Listed("0"));
        changed := true;
      }
      assert rules[i] == FixRules(before)[i];
    }
    if changed {
      ghost var k :| 0 <= k < rules.Length && before[k].qType == Number(0);
      assert rules[..][k] == FixRule(before[k]);
    } else {
      assert forall k :: 0 <= k < rules.Length ==> rules[k] == FixRule(before[k]) == before[k];
    }
  }

  /** RewriteDNSOutboundQTypeZero: the dns outbounds are repaired, no other is touched, and the template is reported
      changed exactly when one of its rules was. */
  method Rewrite(outbounds: seq<Outbound>) returns (changed: bool)
    requires forall i, j :: 0 <= i < j < |outbounds| ==> outbounds[i].rules != outbounds[j].rules
    modifies set o <- outbounds :: o.rules
    ensures forall i :: 0 <= i < |outbounds| ==>
              outbounds[i].rules[..]
              == if IsDns(outbounds[i].protocol) then FixRules(old(outbounds[i].rules[..])) else old(outbounds[i].rules[..])
    ensures changed <==> exists i :: 0 <= i < |outbounds| && outbounds[i].rules[..] != old(outbounds[i].rules[..])
  {
    changed := false;
    for i := 0 to |outbounds|
      invariant forall k :: 0 <= k < i ==>
                  outbounds[k].rules[..]
                  == if IsDns(outbounds[k].protocol) then FixRules(old(outbounds[k].rules[..])) else old(outbounds[k].rules[..])
      invariant forall k :: i <= k < |outbounds| ==> outbounds[k].rules[..] == old(outbounds[k].rules[..])
      invariant changed <==> exists k :: 0 <= k < i && outbounds[k].rules[..] != old(outbounds[k].rules[..])
    {
      if !IsDns(outbounds[i].protocol) { continue; }
      assert outbounds[i] in outbounds;
      var one := RewriteRules(outbounds[i].rules);
      changed := changed || one;
    }
  }

  lemma FixIdempotent(rules: seq<Rule>)
    ensures FixRules(FixRules(rules)) == FixRules(rules)
  {
  }

  /** Generated lists hold no numeric zero, so the repair leaves them alone. */
  lemma GeneratedNeedNoFix(mode: Mode, blockTypes: seq<int>)
    ensures FixRules(Rules(mode, blockTypes)) == Rules(mode, blockTypes)
  {
  }

  /** After the repair, a rule with a lone query type matches exactly that type, zero included. */
  lemma FixedRuleMeansItsNumber(r: Rule, t: int)
    requires r.qType.Number?
    ensures Matches(FixRule(r).qType, t) <==> t == r.qType.n
  {
    if r.qType == Number(0) {
      assert Printed([0]) == ["0"];
      assert Join(["0"], ',') == "0";
      JoinedMatches([0], t);
    }
  }

  /** What the seeder that the repair names stored: a lone query type as a number, zero included. */
  function StoredBefore(mode: Mode, blockTypes: seq<int>): seq<Rule> {
    if |blockTypes| == 1
    then [BlockRule(mode, blockTypes).(qType := Number(blockTypes[0])), HIJACK_RULE, FallbackRule(mode)]
    else Rules(mode, blockTypes)
  }

  lemma StoredSame(mode: Mode, blockTypes: seq<int>)
    requires blockTypes != [0]
    ensures StoredBefore(mode, blockTypes) == Rules(mode, blockTypes)
  {
    if |blockTypes| == 1 { assert blockTypes == [blockTypes[0]]; }
  }

  /** That list meant the legacy policy exactly when the block list was not a lone zero. */
  lemma StoredBeforeIff(mode: Mode, blockTypes: seq<int>)
    requires QueryTypes(blockTypes)
    ensures (forall t :: Answer(StoredBefore(mode, blockTypes), t) == Legacy(mode, blockTypes, t)) <==> blockTypes != [0]
  {
    if blockTypes == [0] {
      assert Answer(StoredBefore(mode, blockTypes), 1) != Legacy(mode, blockTypes, 1);
    } else {
      StoredSame(mode, blockTypes);
      forall t ensures Answer(StoredBefore(mode, blockTypes), t) == Legacy(mode, blockTypes, t) {
        SameAnswer(mode, blockTypes, t);
      }
    }
  }

  /** The repair turns it into the list that means the legacy policy, for every block list. */
  lemma FixRestoresPolicy(mode: Mode, blockTypes: seq<int>, t: int)
    requires QueryTypes(blockTypes)
    ensures Answer(FixRules(StoredBefore(mode, blockTypes)), t) == Legacy(mode, blockTypes, t)
  {
    if blockTypes == [0] {
      assert Printed([0]) == ["0"];
      assert Join(["0"], ',') == "0";
      assert FixRules(StoredBefore(mode, [0])) == Rules(mode, [0]);
    } else {
      StoredSame(mode, blockTypes);
      GeneratedNeedNoFix(mode, blockTypes);
    }
    SameAnswer(mode, blockTypes, t);
  }
}
