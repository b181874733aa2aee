/** What the generated scenarios are for: each entry of the list, by its label, and what the rule makes of its facts. */
module Suites {
  import opened Wrappers
  import opened Decimals
  import opened Facts
  import opened Exec
  import opened Scenario

  /** Everything generated for a rule. */
  function Suite(rule: Rule, draws: Draws, fuzzExtra: nat): seq<Scenario> {
    Deterministic(rule) + seq(fuzzExtra, n requires 0 <= n < fuzzExtra => Fuzz(rule, draws, n))
  }

  function Leaves(tree: Tree): nat {
    match tree
    case AtLeaf(_) => 1
    case Node(_, yes, no) => Leaves(yes) + Leaves(no)
  }

  lemma {:induction false} OnePathEachLeaf(tree: Tree)
    ensures |Paths(tree)| == Leaves(tree)
  {
    match tree
    case AtLeaf(_) =>
    case Node(c, yes, no) =>
      OnePathEachLeaf(yes);
      OnePathEachLeaf(no);
  }

  // ---- one entry to a leaf ----

  predicate Labelled(s: Scenario, rule: Rule, tag: string) {
    s.ruleId == rule.id && s.tag == tag
  }

  /** The list opens with one entry to a leaf, in the order of the table; each is decided by its own leaf, along its own path. */
  lemma PathEntries(text: FloatText, rule: Rule, draws: Draws, fuzzExtra: nat, i: nat)
    requires i < Leaves(rule.tree)
    ensures |Paths(rule.tree)| == Leaves(rule.tree) <= |Suite(rule, draws, fuzzExtra)|
    ensures var s := Suite(rule, draws, fuzzExtra)[i]; var path := Paths(rule.tree)[i]; var e := Evaluate(text, rule, FactsMap(s.facts));
            Labelled(s, rule, "path#" + Digits(i)) &&
            (Aimable(text, RowTargets(rule, path)) ==>
               e.applicable && e.decision == Some(path.leaf.result) && e.decisionPath == BranchSteps(path.branches) &&
               e.obligations == if path.leaf.obligations.Some? then path.leaf.obligations.value else [])
  {
    OnePathEachLeaf(rule.tree);
    PathAt(rule, draws, fuzzExtra, i);
    if Aimable(text, RowTargets(rule, Paths(rule.tree)[i])) {
      PathScenarioReachesItsLeaf(text, rule, i);
    }
  }

  lemma PathAt(rule: Rule, draws: Draws, fuzzExtra: nat, i: nat)
    requires i < |Paths(rule.tree)|
    ensures |Paths(rule.tree)| <= |Suite(rule, draws, fuzzExtra)| && Suite(rule, draws, fuzzExtra)[i] == PathScenario(rule, i)
  {
  }

  /** Then, for a rule with an applicability group, the entry in which it does not apply. */
  lemma NotApplicableEntry(text: FloatText, rule: Rule, draws: Draws, fuzzExtra: nat)
    requires rule.appliesIf.Some?
    ensures var (out, n) := (Suite(rule, draws, fuzzExtra), Leaves(rule.tree));
            n < |out| && Labelled(out[n], rule, "not_applicable") &&
            (Checks(rule.appliesIf) != [] && Aimable(text, FailureTargets(rule)) ==> !Evaluate(text, rule, FactsMap(out[n].facts)).applicable)
  {
    OnePathEachLeaf(rule.tree);
    var n := Leaves(rule.tree);
    assert Suite(rule, draws, fuzzExtra)[n] == NotApplicableList(rule)[0];
    if Checks(rule.appliesIf) != [] && Aimable(text, FailureTargets(rule)) {
      NotApplicableScenario(text, rule);
    }
  }

  // ---- variations of one anchor ----

  function Anchor(rule: Rule): FactSet {
    FactsMap(Anchored(rule, []))
  }

  lemma AnchoredIs(rule: Rule, field: string, g: Gen)
    ensures var facts := FactsMap(Anchored(rule, [(field, g)]));
            Lookup(facts, field) == FactOf(g) && forall f | f != field :: Lookup(facts, f) == Lookup(Anchor(rule), f)
  {
    var pairs := ApplicabilitySpec(rule, true) + CheckPairs(Catalog(rule), true);
    assert pairs + [] == pairs;
    LayeredAppend(pairs, (field, g));
  }

  /** Every pair for a key gives it one value. */
  ghost predicate Agreeing(pairs: seq<Pair>) {
    forall x, y | x in pairs && y in pairs :: x.0 == y.0 ==> x.1 == y.1
  }

  lemma {:induction false} AgreeingLookup(pairs: seq<Pair>, p: Pair)
    requires Agreeing(pairs) && p in pairs
    ensures Lookup(FactsMap(Layered(pairs)), p.0) == FactOf(p.1)
  {
    var (init, last) := (pairs[..|pairs| - 1], pairs[|pairs| - 1]);
    assert pairs == init + [last];
    if last.0 != p.0 {
      AgreeingLookup(init, p);
    } else {
      assert last == p;
    }
  }

  /** Each field is asked one condition, and one the generator can satisfy. */
  ghost predicate OneEach(text: FloatText, conditions: seq<Condition>) {
    && (forall c, d | c in conditions && d in conditions :: c.field == d.field ==> c == d)
    && (forall c | c in conditions :: CanDrive(text, c, true))
  }

  lemma PairsOf(checks: seq<Condition>)
    ensures forall p :: p in CheckPairs(checks, true) <==> exists c :: c in checks && p == PairFor(c, true)
  {
    forall p
      ensures p in CheckPairs(checks, true) <==> exists c :: c in checks && p == PairFor(c, true)
    {
      if c :| c in checks && p == PairFor(c, true) {
        var k :| 0 <= k < |checks| && checks[k] == c;
        assert CheckPairs(checks, true)[k] == p;
      }
      if p in CheckPairs(checks, true) {
        var k :| 0 <= k < |checks| && CheckPairs(checks, true)[k] == p;
        assert checks[k] in checks;
      }
    }
  }

  /** The facts every variation starts from push every condition of the rule true, hence the rule applies to them. */
  lemma AnchorHolds(text: FloatText, rule: Rule)
    requires OneEach(text, Catalog(rule))
    ensures forall c | c in Catalog(rule) :: Check(text, Anchor(rule), c)
    ensures Evaluate(text, rule, Anchor(rule)).applicable
  {
    var (checks, all) := (Checks(rule.appliesIf), Catalog(rule));
    var pairs := CheckPairs(checks, true) + CheckPairs(all, true);
    assert pairs + [] == pairs;
    AnchorPairs(rule, pairs);
    forall c | c in all
      ensures Check(text, Anchor(rule), c)
    {
      AgreeingLookup(pairs, PairFor(c, true));
      Driven(text, Anchor(rule), c, true);
    }
    AnchorApplies(text, rule);
  }

  lemma AnchorPairs(rule: Rule, pairs: seq<Pair>)
    requires forall c, d | c in Catalog(rule) && d in Catalog(rule) :: c.field == d.field ==> c == d
    requires pairs == CheckPairs(Checks(rule.appliesIf), true) + CheckPairs(Catalog(rule), true)
    ensures Agreeing(pairs) && forall c | c in Catalog(rule) :: PairFor(c, true) in pairs
  {
    PairsOf(Checks(rule.appliesIf));
    PairsOf(Catalog(rule));
    assert forall c | c in Checks(rule.appliesIf) :: c in Catalog(rule);
  }

  lemma AnchorApplies(text: FloatText, rule: Rule)
    requires forall c | c in Catalog(rule) :: Check(text, Anchor(rule), c)
    ensures Evaluate(text, rule, Anchor(rule)).applicable
  {
    var checks := Checks(rule.appliesIf);
    assert forall c | c in checks :: c in Catalog(rule);
    if checks != [] {
      assert checks[0] in checks;
    }
  }

  /** An entry that differs from the anchor in one field at most. */
  ghost predicate Varies(s: Scenario, rule: Rule, tag: string, field: string) {
    Labelled(s, rule, tag) && forall f | f != field :: Lookup(FactsMap(s.facts), f) == Lookup(Anchor(rule), f)
  }

  /** Three entries about an ordering condition: its operand one unit less, as it is, one unit more. */
  ghost predicate Triple(text: FloatText, rule: Rule, c: Condition, below: Scenario, at: Scenario, above: Scenario) {
    && Varies(below, rule, "boundary:" + c.field + ":below", c.field)
    && Varies(at, rule, "boundary:" + c.field + ":at", c.field)
    && Varies(above, rule, "boundary:" + c.field + ":above", c.field)
    && (c.value.Dec? && Ordinary(c.value) ==>
          && AsNumber(Lookup(FactsMap(below.facts), c.field)) == Some(DecimalReal(c.value.mantissa - 1, c.value.scale))
          && AsNumber(Lookup(FactsMap(at.facts), c.field)) == Some(DecimalReal(c.value.mantissa, c.value.scale))
          && AsNumber(Lookup(FactsMap(above.facts), c.field)) == Some(DecimalReal(c.value.mantissa + 1, c.value.scale))
          && (Check(text, FactsMap(below.facts), c) <==> c.op == Lt || c.op == Lte)
          && (Check(text, FactsMap(at.facts), c) <==> c.op == Gte || c.op == Lte)
          && (Check(text, FactsMap(above.facts), c) <==> c.op == Gt || c.op == Gte))
  }

  lemma TripleIs(text: FloatText, rule: Rule, c: Condition)
    requires c.op == Gt || c.op == Lt || c.op == Gte || c.op == Lte
    ensures var three := BoundaryScenarios(rule, c); Triple(text, rule, c, three[0], three[1], three[2])
  {
    AnchoredIs(rule, c.field, Set(Shift(c.value, -1)));
    AnchoredIs(rule, c.field, Set(Shift(c.value, 0)));
    AnchoredIs(rule, c.field, Set(Shift(c.value, 1)));
    if c.value.Dec? && Ordinary(c.value) {
      TripleVerdicts(text, rule, c);
    }
  }

  lemma TripleVerdicts(text: FloatText, rule: Rule, c: Condition)
    requires IsOrdering(c.op) && c.value.Dec? && Ordinary(c.value)
    ensures Check(text, FactsMap(Boundary(rule, c, -1)), c) <==> c.op == Lt || c.op == Lte
    ensures Check(text, FactsMap(Boundary(rule, c, 0)), c) <==> c.op == Gte || c.op == Lte
    ensures Check(text, FactsMap(Boundary(rule, c, 1)), c) <==> c.op == Gt || c.op == Gte
    ensures forall delta | -1 <= delta <= 1 ::
              AsNumber(Lookup(FactsMap(Boundary(rule, c, delta)), c.field)) == Some(DecimalReal(c.value.mantissa + delta, c.value.scale))
  {
    forall delta | -1 <= delta <= 1
      ensures Check(text, FactsMap(Boundary(rule, c, delta)), c) <==> AtBoundary(c, delta)
      ensures AsNumber(Lookup(FactsMap(Boundary(rule, c, delta)), c.field)) == Some(DecimalReal(c.value.mantissa + delta, c.value.scale))
    {
      BoundaryVerdicts(text, rule, c, delta);
      BoundaryFact(rule, c, delta);
      JsonReads(c.value.mantissa + delta, c.value.scale);
    }
  }

  /** Every ordering condition the rule asks has its three entries, next to each other. */
  lemma BoundaryEntries(text: FloatText, rule: Rule, draws: Draws, fuzzExtra: nat, c: Condition) returns (k: nat)
    requires c in Catalog(rule) && (c.op == Gt || c.op == Lt || c.op == Gte || c.op == Lte)
    ensures var out := Suite(rule, draws, fuzzExtra); k + 2 < |out| && Triple(text, rule, c, out[k], out[k + 1], out[k + 2])
  {
    var before, after := BoundariesListed(rule, Catalog(rule), c);
    var lead := PathScenarioList(rule) + NotApplicableList(rule);
    k := |lead| + |before|;
    TripleIs(text, rule, c);
    Inside(lead, before, BoundaryScenarios(rule, c), after, FirstVaried(rule) + [Irrelevant(rule)],
           seq(fuzzExtra, n requires 0 <= n < fuzzExtra => Fuzz(rule, draws, n)));
    SuiteIs(rule, draws, fuzzExtra);
  }

  lemma Inside(lead: seq<Scenario>, before: seq<Scenario>, three: seq<Scenario>, after: seq<Scenario>, more: seq<Scenario>, fuzz: seq<Scenario>)
    requires |three| == 3
    ensures var out := lead + (before + three + after) + more + fuzz; var k := |lead| + |before|;
            k + 2 < |out| && out[k] == three[0] && out[k + 1] == three[1] && out[k + 2] == three[2]
  {
  }

  lemma SuiteIs(rule: Rule, draws: Draws, fuzzExtra: nat)
    ensures Suite(rule, draws, fuzzExtra) ==
            PathScenarioList(rule) + NotApplicableList(rule) + Boundaries(rule, Catalog(rule)) + (FirstVaried(rule) + [Irrelevant(rule)]) +
            seq(fuzzExtra, n requires 0 <= n < fuzzExtra => Fuzz(rule, draws, n))
  {
  }

  function Opening(rule: Rule): nat {
    |PathScenarioList(rule) + NotApplicableList(rule) + Boundaries(rule, Catalog(rule))|
  }

  /** After them, the first condition's field left out, then given a value of another kind. */
  lemma MissingAndWrongEntries(rule: Rule, draws: Draws, fuzzExtra: nat) returns (k: nat)
    requires Catalog(rule) != []
    ensures var out := Suite(rule, draws, fuzzExtra); var c := Catalog(rule)[0];
            k + 1 < |out| && Varies(out[k], rule, "missing:" + c.field, c.field) && Lookup(FactsMap(out[k].facts), c.field) == Null &&
            Varies(out[k + 1], rule, "wrong_type:" + c.field, c.field) &&
            Lookup(FactsMap(out[k + 1].facts), c.field) == if c.value.Dec? then FStr("not_a_number") else FBool(true)
  {
    var c := Catalog(rule)[0];
    k := Opening(rule);
    SuiteIs(rule, draws, fuzzExtra);
    assert Suite(rule, draws, fuzzExtra)[k] == FirstVaried(rule)[0] && Suite(rule, draws, fuzzExtra)[k + 1] == FirstVaried(rule)[1];
    AnchoredIs(rule, c.field, Gen.Absent);
    AnchoredIs(rule, c.field, Set(WrongType(c.value)));
  }

  /** Last before the fuzz, two facts no rule of the corpus asks about: outcome and trace are those of the anchor. */
  lemma IrrelevantEntry(text: FloatText, rule: Rule, draws: Draws, fuzzExtra: nat)
    requires forall c | c in Catalog(rule) :: c.field !in {"__irrelevant_a", "__irrelevant_b"}
    ensures var (out, k) := (Suite(rule, draws, fuzzExtra), |Deterministic(rule)| - 1);
            0 <= k < |out| && Labelled(out[k], rule, "irrelevant_facts") &&
            Lookup(FactsMap(out[k].facts), "__irrelevant_a") == FBool(true) &&
            Lookup(FactsMap(out[k].facts), "__irrelevant_b") == FStr("noise") &&
            Evaluate(text, rule, FactsMap(out[k].facts)) == Evaluate(text, rule, Anchor(rule))
  {
    var pairs := ApplicabilitySpec(rule, true) + CheckPairs(Catalog(rule), true);
    assert pairs + [] == pairs;
    IrrelevantFactsChangeNothing(text, rule, pairs);
    NoiseIs(pairs);
    assert Suite(rule, draws, fuzzExtra)[|Deterministic(rule)| - 1] == Irrelevant(rule);
  }

  lemma NoiseIs(pairs: seq<Pair>)
    ensures var facts := FactsMap(Layered(pairs + IRRELEVANT));
            Lookup(facts, "__irrelevant_a") == FBool(true) && Lookup(facts, "__irrelevant_b") == FStr("noise")
  {
    LayeredAppend(pairs, IRRELEVANT[0]);
    LayeredAppend(pairs + [IRRELEVANT[0]], IRRELEVANT[1]);
    assert pairs + IRRELEVANT == pairs + [IRRELEVANT[0]] + [IRRELEVANT[1]];
  }

  // ---- the fuzz ----

  lemma {:induction false} DrawnIs(rule: Rule, n: nat)
    ensures Drawn(rule, n) == n * |Catalog(rule)|
  {
    if n > 0 {
      DrawnIs(rule, n - 1);
      OneMoreTimes(n - 1, |Catalog(rule)|);
    }
  }

  lemma OneMoreTimes(n: nat, m: nat)
    ensures (n + 1) * m == n * m + m
  {
  }

  /** The last pair for a key decides it. */
  lemma {:induction false} LastPairDecides(pairs: seq<Pair>, k: nat)
    requires k < |pairs| && forall j | k < j < |pairs| :: pairs[j].0 != pairs[k].0
    ensures Lookup(FactsMap(Layered(pairs)), pairs[k].0) == FactOf(pairs[k].1)
  {
    if k < |pairs| - 1 {
      LastPairDecides(pairs[..|pairs| - 1], k);
    }
  }

  /** The number of the draw that goes to the n-th entry's i-th condition. */
  function DrawNumber(rule: Rule, n: nat, i: nat): nat {
    n * |Catalog(rule)| + i
  }

  /** What a draw makes of a condition's field: a value to satisfy it, one to fail it, none, or one of another kind. */
  predicate Drew(text: FloatText, facts: FactSet, c: Condition, draw: nat) {
    var fact := Lookup(facts, c.field);
    && (draw == 2 ==> fact == Null)
    && (draw == 3 ==> fact == if c.value.Dec? then FStr("not_a_number") else FBool(true))
    && (draw == 1 && CanDrive(text, c, false) ==> !Check(text, facts, c))
    && (draw !in {1, 2, 3} && CanDrive(text, c, true) ==> Check(text, facts, c))
  }

  /** The n-th fuzz entry: one draw to each condition, in order, each going on where the last stopped; a field has what its last condition drew. */
  lemma FuzzEntries(text: FloatText, rule: Rule, draws: Draws, fuzzExtra: nat, n: nat, i: nat)
    requires n < fuzzExtra && i < |Catalog(rule)|
    requires forall j | i < j < |Catalog(rule)| :: Catalog(rule)[j].field != Catalog(rule)[i].field
    ensures |Deterministic(rule)| + n < |Suite(rule, draws, fuzzExtra)|
    ensures var s := Suite(rule, draws, fuzzExtra)[|Deterministic(rule)| + n];
            Labelled(s, rule, "fuzz#" + Digits(n)) && Drew(text, FactsMap(s.facts), Catalog(rule)[i], draws(DrawNumber(rule, n, i)))
  {
    FuzzAt(rule, draws, fuzzExtra, n);
    DrawnIs(rule, n);
    FuzzDrew(text, Catalog(rule), draws, Drawn(rule, n), i);
  }

  lemma FuzzAt(rule: Rule, draws: Draws, fuzzExtra: nat, n: nat)
    requires n < fuzzExtra
    ensures |Deterministic(rule)| + n < |Suite(rule, draws, fuzzExtra)|
    ensures Suite(rule, draws, fuzzExtra)[|Deterministic(rule)| + n] == Fuzz(rule, draws, n)
  {
  }

  lemma FuzzDrew(text: FloatText, conditions: seq<Condition>, draws: Draws, from: nat, i: nat)
    requires i < |conditions| && forall j | i < j < |conditions| :: conditions[j].field != conditions[i].field
    ensures Drew(text, FactsMap(Layered(FuzzPairs(conditions, draws, from))), conditions[i], draws(from + i))
  {
    var c, pairs := conditions[i], FuzzPairs(conditions, draws, from);
    LastPairDecides(pairs, i);
    var facts := FactsMap(Layered(pairs));
    if draws(from + i) == 1 && CanDrive(text, c, false) {
      Driven(text, facts, c, false);
    }
    if draws(from + i) !in {1, 2, 3} && CanDrive(text, c, true) {
      Driven(text, facts, c, true);
    }
  }
}
