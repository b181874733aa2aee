/**
 T4 conflict detection over pairs of rules in semantic normal form: when a reported contradiction is one, and the
 pair loop that classifies every pair.

 Conditions are conditions of the executor whose operands are in normal form (decimals without trailing zeros, lists
 sorted). The normal form of a rule's applicability is compared for equality only and is a string here.
 */
module Contradictions {
  import opened Wrappers
  import opened Calendar
  import opened Facts
  import opened Exec
  import opened Conflicts
  import opened Thresholds
  import Decimals
  import Scenario

  datatype SemPath = SemPath(branches: seq<Branch>, result: string, obligations: seq<string>)

  datatype Semantic = Semantic(applicability: string, paths: seq<SemPath>, window: Option<Window>, premises: Premises)

  // ---- pairs of paths ----

  /** No condition is asked twice with different answers. */
  predicate Possible(branches: seq<Branch>) {
    forall i, j | 0 <= i < |branches| && 0 <= j < |branches| ::
      branches[i].cond == branches[j].cond ==> branches[i].taken == branches[j].taken
  }

  /** The last answer a path gives a condition. */
  function Answer(branches: seq<Branch>, c: Condition): Option<bool> {
    if branches == [] then None
    else
      var last := branches[|branches| - 1];
      if last.cond == c then Some(last.taken) else Answer(branches[..|branches| - 1], c)
  }

  predicate Consistent(p: seq<Branch>, q: seq<Branch>) {
    forall i | 0 <= i < |q| :: Answer(p, q[i].cond) in {None, Some(q[i].taken)}
  }

  method PathsConsistent(p: SemPath, q: SemPath) returns (consistent: bool)
    ensures consistent <==> Consistent(p.branches, q.branches)
  {
    var given: map<Condition, bool> := map[];
    for i := 0 to |p.branches|
      invariant forall c :: Answer(p.branches[..i], c) == if c in given then Some(given[c]) else None
    {
      assert p.branches[..i + 1][..i] == p.branches[..i];
      given := given[p.branches[i].cond := p.branches[i].taken];
    }
    assert p.branches[..|p.branches|] == p.branches;
    for i := 0 to |q.branches|
      invariant forall j | 0 <= j < i :: Answer(p.branches, q.branches[j].cond) in {None, Some(q.branches[j].taken)}
    {
      var b := q.branches[i];
      if b.cond in given && given[b.cond] != b.taken {
        return false;
      }
    }
    consistent := true;
  }

  lemma {:induction false} AnswerIsGiven(branches: seq<Branch>, c: Condition)
    ensures Answer(branches, c).Some? ==> Branch(c, Answer(branches, c).value) in branches
    ensures Answer(branches, c).None? ==> forall b :: b in branches ==> b.cond != c
  {
    if branches != [] {
      var last := |branches| - 1;
      AnswerIsGiven(branches[..last], c);
      assert branches == branches[..last] + [branches[last]];
    }
  }

  /** Two paths, one after the other, are possible exactly when each is and the second answers as the first did. */
  lemma PossibleTogether(p: seq<Branch>, q: seq<Branch>)
    ensures Possible(p + q) <==> Possible(p) && Possible(q) && Consistent(p, q)
  {
    var both := p + q;
    assert forall i | 0 <= i < |p| :: both[i] == p[i];
    assert forall i | 0 <= i < |q| :: both[|p| + i] == q[i];
    if Possible(both) {
      forall i | 0 <= i < |q|
        ensures Answer(p, q[i].cond) in {None, Some(q[i].taken)}
      {
        AnswerIsGiven(p, q[i].cond);
        if Answer(p, q[i].cond).Some? {
          var j :| 0 <= j < |p| && p[j] == Branch(q[i].cond, Answer(p, q[i].cond).value);
          assert both[j].taken == both[|p| + i].taken;
        }
      }
    }
    if Possible(p) && Possible(q) && Consistent(p, q) {
      forall i, j | 0 <= i < |p| && 0 <= j < |q| && p[i].cond == q[j].cond
        ensures p[i].taken == q[j].taken
      {
        PossibleAnswer(p, i);
      }
    }
  }

  lemma PossibleAnswer(p: seq<Branch>, i: nat)
    requires Possible(p) && i < |p|
    ensures Answer(p, p[i].cond) == Some(p[i].taken)
  {
    var c := p[i].cond;
    AnswerIsGiven(p, c);
    assert p[i] in p;
    var j :| 0 <= j < |p| && p[j] == Branch(c, Answer(p, c).value);
  }

  // ---- what consistency says of facts ----

  /** Some facts take both paths. */
  ghost predicate BothTaken(text: FloatText, p: seq<Branch>, q: seq<Branch>) {
    exists facts :: Agrees(text, facts, p) && Agrees(text, facts, q)
  }

  lemma BothTakenIsTakeable(text: FloatText, p: seq<Branch>, q: seq<Branch>)
    ensures BothTaken(text, p, q) <==> Takeable(text, p + q)
  {
    forall facts: FactSet
      ensures Agrees(text, facts, p + q) <==> Agrees(text, facts, p) && Agrees(text, facts, q)
    {
      assert forall x | x in p || x in q :: x in p + q;
    }
    if facts :| Agrees(text, facts, p) && Agrees(text, facts, q) {
      assert Agrees(text, facts, p + q);
    }
    if facts :| Agrees(text, facts, p + q) {
      assert Agrees(text, facts, p) && Agrees(text, facts, q);
    }
  }

  /** Paths some facts take together are possible and consistent, whatever they ask. */
  lemma TakenPathsAreConsistent(text: FloatText, p: seq<Branch>, q: seq<Branch>)
    requires BothTaken(text, p, q)
    ensures Possible(p) && Possible(q) && Consistent(p, q)
  {
    BothTakenIsTakeable(text, p, q);
    PossibleTogether(p, q);
    var facts :| Agrees(text, facts, p + q);
    assert forall i | 0 <= i < |p + q| :: (p + q)[i] in p + q;
  }

  /** Facts take both paths exactly when every field they ask has a fact that answers both as wanted there. */
  lemma BothTakenFieldwise(text: FloatText, p: seq<Branch>, q: seq<Branch>)
    ensures BothTaken(text, p, q) <==> forall b | b in p + q :: Answerable(text, p + q, b.cond.field)
  {
    BothTakenIsTakeable(text, p, q);
    TakeableFieldwise(text, p + q);
  }

  /** Different conditions lie on different fields, and each is one the scenario generator can push its way. */
  predicate Separate(text: FloatText, branches: seq<Branch>) {
    && (forall x, y | x in branches && y in branches && x.cond.field == y.cond.field :: x.cond == y.cond)
    && (forall x | x in branches :: Scenario.CanDrive(text, x.cond, x.taken))
  }

  /** Over separate conditions, facts take both paths exactly when the paths are possible and consistent. */
  lemma BothTakenExactly(text: FloatText, p: seq<Branch>, q: seq<Branch>)
    requires Separate(text, p + q)
    ensures BothTaken(text, p, q) <==> Possible(p) && Possible(q) && Consistent(p, q)
  {
    var both := p + q;
    PossibleTogether(p, q);
    if BothTaken(text, p, q) {
      TakenPathsAreConsistent(text, p, q);
    }
    if Possible(both) {
      BothTakenFieldwise(text, p, q);
      forall b | b in both
        ensures Answerable(text, both, b.cond.field)
      {
        DrivenAnswer(text, both, b);
      }
    }
  }

  lemma DrivenAnswer(text: FloatText, branches: seq<Branch>, b: Branch)
    requires Possible(branches) && b in branches && AskedAlone(text, branches, b)
    ensures Answerable(text, branches, b.cond.field)
  {
    var f := Scenario.FactOf(Scenario.ValueFor(b.cond, b.taken));
    Scenario.DrivesIffDrivable(text, b.cond.op, b.cond.value, b.taken);
    forall x | x in branches && x.cond.field == b.cond.field
      ensures x == b
    {
    }
    assert Answers(text, f, branches, b.cond.field);
  }

  // ---- when consistency does not suffice ----

  /** Every field is asked numeric comparisons only, or one condition the scenario generator can push its way. */
  predicate Decidable(text: FloatText, branches: seq<Branch>) {
    forall x | x in branches :: OnlyThresholds(branches, x.cond.field) || AskedAlone(text, branches, x)
  }

  predicate AskedAlone(text: FloatText, branches: seq<Branch>, x: Branch) {
    && (forall y | y in branches && y.cond.field == x.cond.field :: y.cond == x.cond)
    && Scenario.CanDrive(text, x.cond, x.taken)
  }

  /** The numeric comparisons on each field leave a number, or need none. */
  predicate NumbersLeft(text: FloatText, branches: seq<Branch>) {
    forall x | x in branches && OnlyThresholds(branches, x.cond.field) :: SomeNumberAnswers(text, branches, x.cond.field)
  }

  lemma TakeableExactly(text: FloatText, branches: seq<Branch>)
    requires Decidable(text, branches)
    ensures Takeable(text, branches) <==> Possible(branches) && NumbersLeft(text, branches)
  {
    TakeableFieldwise(text, branches);
    if facts :| Agrees(text, facts, branches) {
      assert forall i | 0 <= i < |branches| :: branches[i] in branches;
    }
    forall x | x in branches && Possible(branches)
      ensures Answerable(text, branches, x.cond.field) <==>
              (OnlyThresholds(branches, x.cond.field) ==> SomeNumberAnswers(text, branches, x.cond.field))
    {
      if OnlyThresholds(branches, x.cond.field) {
        ThresholdsAnswerableExactly(text, branches, x.cond.field);
      } else {
        DrivenAnswer(text, branches, x);
      }
    }
  }

  /** What consistency leaves out: facts take two such paths exactly when their comparisons also leave numbers. */
  lemma ConsistencySufficesExactly(text: FloatText, p: seq<Branch>, q: seq<Branch>)
    requires Decidable(text, p + q)
    ensures BothTaken(text, p, q) <==> Possible(p) && Possible(q) && Consistent(p, q) && NumbersLeft(text, p + q)
  {
    BothTakenIsTakeable(text, p, q);
    PossibleTogether(p, q);
    TakeableExactly(text, p + q);
  }

  function FieldsOf(p: SemPath): set<string> {
    set i | 0 <= i < |p.branches| :: p.branches[i].cond.field
  }

  /** A common decision variable, or two leaves. */
  predicate SharedScenario(p: SemPath, q: SemPath) {
    !(FieldsOf(p) !! FieldsOf(q)) || (FieldsOf(p) == {} && FieldsOf(q) == {})
  }

  predicate Contradicts(p: SemPath, q: SemPath) {
    p.result != q.result && Consistent(p.branches, q.branches) && SharedScenario(p, q)
  }

  /** The first contradicting pair of paths, row by row. */
  method FindContradiction(a: Semantic, b: Semantic) returns (found: Option<(string, string)>)
    ensures found.None? <==> forall p, q :: p in a.paths && q in b.paths ==> !Contradicts(p, q)
    ensures found.Some? ==> exists p, q :: p in a.paths && q in b.paths && Contradicts(p, q) && found.value == (p.result, q.result)
  {
    for i := 0 to |a.paths|
      invariant forall m, q | 0 <= m < i && q in b.paths :: !Contradicts(a.paths[m], q)
    {
      var p := a.paths[i];
      for j := 0 to |b.paths|
        invariant forall n | 0 <= n < j :: !Contradicts(p, b.paths[n])
      {
        var q := b.paths[j];
        if p.result != q.result {
          var consistent := PathsConsistent(p, q);
          if consistent && SharedScenario(p, q) {
            assert p in a.paths && q in b.paths && Contradicts(p, q);
            return Some((p.result, q.result));
          }
        }
      }
    }
    found := None;
  }

  function Asks(field: string, op: Operator, number: Decimals.i128, result: string): SemPath {
    SemPath([Branch(Condition(field, op, Dec(number, 0)), true)], result, [])
  }

  /** Consistency does not suffice: `x > 5` and `x < 3` contradict for T4, and no facts take both. */
  lemma ConsistentPathsMayNeverMeet(text: FloatText)
    ensures var p, q := Asks("x", Gt, 5, "grant"), Asks("x", Lt, 3, "deny");
            Possible(p.branches) && Possible(q.branches) && Contradicts(p, q) && !BothTaken(text, p.branches, q.branches)
  {
    var p, q := Asks("x", Gt, 5, "grant"), Asks("x", Lt, 3, "deny");
    assert p.branches[0].cond.field == "x" && q.branches[0].cond.field == "x";
    assert "x" in FieldsOf(p) && "x" in FieldsOf(q);
    assert Answer(p.branches[..0], q.branches[0].cond) == None;
    forall f
      ensures !(Eval(text, f, Gt, Dec(5, 0)) && Eval(text, f, Lt, Dec(3, 0)))
    {
    }
    forall facts
      ensures !(Agrees(text, facts, p.branches) && Agrees(text, facts, q.branches))
    {
      assert p.branches[0] in p.branches && q.branches[0] in q.branches;
    }
  }

  // ---- whether the order of the paths matters ----

  /** The first path answers each condition the second also asks in one way only. */
  predicate OneWay(p: seq<Branch>, q: seq<Branch>) {
    forall i, j | 0 <= i < |p| && 0 <= j < |p| && Answer(q, p[i].cond).Some? ::
      p[i].cond == p[j].cond ==> p[i].taken == p[j].taken
  }

  /** Of two consistent paths, the swapped pair is consistent too exactly when the first is one-way on what they share. */
  lemma SwappedExactly(p: seq<Branch>, q: seq<Branch>)
    requires Consistent(p, q)
    ensures Consistent(q, p) <==> OneWay(p, q)
  {
    forall i | 0 <= i < |p| && Answer(q, p[i].cond).Some?
      ensures Answer(p, p[i].cond) == Answer(q, p[i].cond)
    {
      SharedAnswers(p, q, i);
    }
    forall i | 0 <= i < |p|
      ensures Answer(p, p[i].cond).Some? && Branch(p[i].cond, Answer(p, p[i].cond).value) in p
    {
      AnswerIsGiven(p, p[i].cond);
      assert p[i] in p;
    }
  }

  lemma SharedAnswers(p: seq<Branch>, q: seq<Branch>, i: nat)
    requires Consistent(p, q) && i < |p| && Answer(q, p[i].cond).Some?
    ensures Answer(p, p[i].cond) == Answer(q, p[i].cond)
  {
    var c := p[i].cond;
    AnswerIsGiven(p, c);
    AnswerIsGiven(q, c);
    assert p[i] in p;
    var j :| 0 <= j < |q| && q[j] == Branch(c, Answer(q, c).value);
  }

  /** Swapping a contradicting pair keeps it exactly when the first path is one-way on what they share. */
  lemma ContradictsSymmetric(p: SemPath, q: SemPath)
    requires Contradicts(p, q)
    ensures Contradicts(q, p) <==> OneWay(p.branches, q.branches)
  {
    SwappedExactly(p.branches, q.branches);
  }

  /** Only the first path's repeats are overlooked: this pair contradicts one way round. */
  lemma ImpossiblePathsAreNot()
    ensures var c := Condition("f", Eq, Bool(true));
            var p, q := SemPath([Branch(c, true), Branch(c, false)], "x", []), SemPath([Branch(c, false)], "y", []);
            Contradicts(p, q) && !Contradicts(q, p)
  {
    var c := Condition("f", Eq, Bool(true));
    var p, q := SemPath([Branch(c, true), Branch(c, false)], "x", []), SemPath([Branch(c, false)], "y", []);
    assert Answer(p.branches, c) == Some(false);
    assert Answer(q.branches, c) == Some(false);
    assert p.branches[0].taken;
    assert "f" in FieldsOf(p) by { assert p.branches[0].cond.field == "f"; }
    assert "f" in FieldsOf(q) by { assert q.branches[0].cond.field == "f"; }
  }

  // ---- what a contradiction says of two rules ----

  /** The path is row `i` of the rule's path table. */
  predicate IsRow(p: SemPath, rule: Rule, i: nat) {
    i < |Paths(rule.tree)| && p.branches == Paths(rule.tree)[i].branches && p.result == Paths(rule.tree)[i].leaf.result
  }

  /** No check at all, or every one must hold. */
  predicate NeedsEveryCheck(rule: Rule) {
    Checks(rule.appliesIf) == [] || CheckMode(rule.appliesIf) == All
  }

  /** A choice of one check of an `any` group; there is one way to need every check. */
  predicate IsPick(rule: Rule, k: nat) {
    if NeedsEveryCheck(rule) then k == 0 else k < |Checks(rule.appliesIf)|
  }

  function Picked(rule: Rule, k: nat): seq<Condition>
    requires IsPick(rule, k)
  {
    if NeedsEveryCheck(rule) then Checks(rule.appliesIf) else [Checks(rule.appliesIf)[k]]
  }

  /** What the facts must answer for the rule to apply by this choice, check by check, and follow the path. */
  function Demands(rule: Rule, p: SemPath, k: nat): seq<Branch>
    requires IsPick(rule, k)
  {
    Aim(Picked(rule, k), true) + p.branches
  }

  /** The facts make the rule applicable, follow exactly this row and get its result. */
  ghost predicate Reaches(text: FloatText, rule: Rule, p: SemPath, i: nat, facts: FactSet) {
    var e := Evaluate(text, rule, facts);
    Reached(text, facts, rule.tree) == i && e.applicable && e.decision == Some(p.result)
  }

  ghost predicate AgreesByPick(text: FloatText, rule: Rule, p: SemPath, facts: FactSet) {
    exists k :: IsPick(rule, k) && Agrees(text, facts, Demands(rule, p, k))
  }

  lemma DemandsSplit(text: FloatText, rule: Rule, p: SemPath, k: nat, facts: FactSet)
    requires IsPick(rule, k)
    ensures Agrees(text, facts, Demands(rule, p, k)) <==>
            (forall c | c in Picked(rule, k) :: Check(text, facts, c)) && Agrees(text, facts, p.branches)
  {
    var picked := Picked(rule, k);
    var aimed := Aim(picked, true);
    assert forall x | x in aimed || x in p.branches :: x in Demands(rule, p, k);
    forall n | 0 <= n < |picked|
      ensures aimed[n] in aimed && picked[n] in picked
    {
    }
    if Agrees(text, facts, Demands(rule, p, k)) {
      forall c | c in picked
        ensures Check(text, facts, c)
      {
        var n :| 0 <= n < |picked| && picked[n] == c;
        assert aimed[n] in Demands(rule, p, k);
      }
    }
  }

  /** A rule applies exactly when some choice of its checks holds. */
  lemma AppliesByPick(text: FloatText, rule: Rule, facts: FactSet)
    ensures Applies(text, facts, rule.appliesIf) <==>
            exists k :: IsPick(rule, k) && forall c | c in Picked(rule, k) :: Check(text, facts, c)
  {
    if NeedsEveryCheck(rule) {
      assert IsPick(rule, 0);
    } else {
      var checks := Checks(rule.appliesIf);
      forall k | 0 <= k < |checks|
        ensures Check(text, facts, checks[k]) <==> forall c | c in Picked(rule, k) :: Check(text, facts, c)
      {
        assert checks[k] in Picked(rule, k);
      }
      if c :| c in checks && Check(text, facts, c) {
        var k :| 0 <= k < |checks| && checks[k] == c;
        assert IsPick(rule, k);
      }
    }
  }

  lemma ReachesExactly(text: FloatText, rule: Rule, p: SemPath, i: nat, facts: FactSet)
    requires IsRow(p, rule, i)
    ensures Reaches(text, rule, p, i, facts) <==> AgreesByPick(text, rule, p, facts)
  {
    ExactlyOnePathAgrees(text, facts, rule.tree, i);
    AppliesByPick(text, rule, facts);
    forall k | IsPick(rule, k)
      ensures Agrees(text, facts, Demands(rule, p, k)) <==>
              (forall c | c in Picked(rule, k) :: Check(text, facts, c)) && Agrees(text, facts, p.branches)
    {
      DemandsSplit(text, rule, p, k, facts);
    }
  }

  /** Possible and consistent together, with numbers left for their comparisons. */
  predicate Compatible(text: FloatText, p: seq<Branch>, q: seq<Branch>) {
    Possible(p) && Possible(q) && Consistent(p, q) && NumbersLeft(text, p + q)
  }

  /**
   Some facts make both rules applicable and carry them along a contradicting pair of rows, to different results, exactly
   when some choice of checks goes with the rows: possible, consistent, and leaving numbers for their comparisons.
   */
  lemma ContradictionReachedExactly(text: FloatText, a: Rule, b: Rule, p: SemPath, q: SemPath, i: nat, j: nat)
    requires IsRow(p, a, i) && IsRow(q, b, j) && Contradicts(p, q)
    requires forall k, n | IsPick(a, k) && IsPick(b, n) :: Decidable(text, Demands(a, p, k) + Demands(b, q, n))
    ensures (exists facts :: Reaches(text, a, p, i, facts) && Reaches(text, b, q, j, facts)) <==>
            exists k, n :: IsPick(a, k) && IsPick(b, n) && Compatible(text, Demands(a, p, k), Demands(b, q, n))
    ensures forall facts | Reaches(text, a, p, i, facts) && Reaches(text, b, q, j, facts) ::
              Evaluate(text, a, facts).decision != Evaluate(text, b, facts).decision
  {
    if facts :| Reaches(text, a, p, i, facts) && Reaches(text, b, q, j, facts) {
      var k, n := PicksOf(text, a, b, p, q, i, j, facts);
    }
    if k, n :| IsPick(a, k) && IsPick(b, n) && Compatible(text, Demands(a, p, k), Demands(b, q, n)) {
      var facts := FactsFor(text, a, b, p, q, i, j, k, n);
    }
  }

  lemma PicksOf(text: FloatText, a: Rule, b: Rule, p: SemPath, q: SemPath, i: nat, j: nat, facts: FactSet) returns (k: nat, n: nat)
    requires IsRow(p, a, i) && IsRow(q, b, j) && Reaches(text, a, p, i, facts) && Reaches(text, b, q, j, facts)
    requires forall k, n | IsPick(a, k) && IsPick(b, n) :: Decidable(text, Demands(a, p, k) + Demands(b, q, n))
    ensures IsPick(a, k) && IsPick(b, n) && Compatible(text, Demands(a, p, k), Demands(b, q, n))
  {
    ReachesExactly(text, a, p, i, facts);
    ReachesExactly(text, b, q, j, facts);
    k :| IsPick(a, k) && Agrees(text, facts, Demands(a, p, k));
    n :| IsPick(b, n) && Agrees(text, facts, Demands(b, q, n));
    ConsistencySufficesExactly(text, Demands(a, p, k), Demands(b, q, n));
  }

  lemma FactsFor(text: FloatText, a: Rule, b: Rule, p: SemPath, q: SemPath, i: nat, j: nat, k: nat, n: nat) returns (facts: FactSet)
    requires IsRow(p, a, i) && IsRow(q, b, j) && IsPick(a, k) && IsPick(b, n)
    requires Decidable(text, Demands(a, p, k) + Demands(b, q, n)) && Compatible(text, Demands(a, p, k), Demands(b, q, n))
    ensures Reaches(text, a, p, i, facts) && Reaches(text, b, q, j, facts)
  {
    ConsistencySufficesExactly(text, Demands(a, p, k), Demands(b, q, n));
    facts :| Agrees(text, facts, Demands(a, p, k)) && Agrees(text, facts, Demands(b, q, n));
    ReachesExactly(text, a, p, i, facts);
    ReachesExactly(text, b, q, j, facts);
  }

  // ---- pairs of rules ----

  datatype Class = DuplicateRule | ContradictoryOutcome | OverlappingScope | TemporalOverlap

  datatype Conflict = Conflict(kind: Class, first: nat, second: nat)

  predicate Duplicates(a: Semantic, b: Semantic) {
    a.applicability == b.applicability && a.paths == b.paths
  }

  ghost predicate Clash(a: Semantic, b: Semantic) {
    exists p, q :: p in a.paths && q in b.paths && Contradicts(p, q)
  }

  /** What a pair is reported as: a duplicate and nothing else, or its scope class and then any temporal overlap. */
  ghost function PairClasses(a: Semantic, b: Semantic): seq<Class> {
    if Duplicates(a, b) then [DuplicateRule]
    else if !Overlap(a.premises, b.premises) then []
    else
      [if Clash(a, b) then ContradictoryOutcome else OverlappingScope] +
      if WindowsOverlap(a.window, b.window) then [TemporalOverlap] else []
  }

  method ClassifyPair(a: Semantic, b: Semantic) returns (classes: seq<Class>)
    ensures classes == PairClasses(a, b)
  {
    if Duplicates(a, b) {
      return [DuplicateRule];
    }
    var overlap := ScopesOverlap(a.premises, b.premises);
    if !overlap {
      return [];
    }
    var clash := FindContradiction(a, b);
    classes := [if clash.Some? then ContradictoryOutcome else OverlappingScope];
    if WindowsOverlap(a.window, b.window) {
      classes := classes + [TemporalOverlap];
    }
  }

  // ---- the report ----

  ghost function Tagged(classes: seq<Class>, i: nat, j: nat): seq<Conflict> {
    seq(|classes|, n requires 0 <= n < |classes| => Conflict(classes[n], i, j))
  }

  /** The conflicts of rule `i` with the rules after it and before `j`, in order. */
  ghost function RowReport(rules: seq<Semantic>, i: nat, j: nat): seq<Conflict>
    requires i < |rules| && j <= |rules|
    decreases j
  {
    if j <= i + 1 then [] else RowReport(rules, i, j - 1) + Tagged(PairClasses(rules[i], rules[j - 1]), i, j - 1)
  }

  /** The conflicts of each of the first `i` rules with the rules after it, in order. */
  ghost function Report(rules: seq<Semantic>, i: nat): seq<Conflict>
    requires i <= |rules|
  {
    if i == 0 then [] else Report(rules, i - 1) + RowReport(rules, i - 1, |rules|)
  }

  method DetectConflicts(rules: seq<Semantic>) returns (conflicts: seq<Conflict>)
    ensures conflicts == Report(rules, |rules|)
  {
    conflicts := [];
    for i := 0 to |rules|
      invariant conflicts == Report(rules, i)
    {
      conflicts := ConflictsFrom(rules, i, conflicts);
    }
  }

  /** The inner loop: one rule against every later one. */
  method ConflictsFrom(rules: seq<Semantic>, i: nat, before: seq<Conflict>) returns (conflicts: seq<Conflict>)
    requires i < |rules|
    ensures conflicts == before + RowReport(rules, i, |rules|)
  {
    conflicts := before;
    for j := i + 1 to |rules|
      invariant conflicts == before + RowReport(rules, i, j)
    {
      var classes := ClassifyPair(rules[i], rules[j]);
      var more := Tag(classes, i, j);
      conflicts := conflicts + more;
    }
  }

  method Tag(classes: seq<Class>, i: nat, j: nat) returns (conflicts: seq<Conflict>)
    ensures conflicts == Tagged(classes, i, j)
  {
    conflicts := [];
    for n := 0 to |classes|
      invariant conflicts == Tagged(classes[..n], i, j)
    {
      conflicts := conflicts + [Conflict(classes[n], i, j)];
      assert classes[..n + 1] == classes[..n] + [classes[n]];
    }
    assert classes[..|classes|] == classes;
  }

  ghost predicate Reported(rules: seq<Semantic>, x: Conflict) {
    x.first < x.second < |rules| && x.kind in PairClasses(rules[x.first], rules[x.second])
  }

  ghost predicate NoRepeats(conflicts: seq<Conflict>) {
    forall m, n | 0 <= m < n < |conflicts| :: conflicts[m] != conflicts[n]
  }

  /** The report holds each class of each unordered pair, once, and nothing else. */
  lemma ReportedOnce(rules: seq<Semantic>)
    ensures forall x :: x in Report(rules, |rules|) <==> Reported(rules, x)
    ensures NoRepeats(Report(rules, |rules|))
  {
    ReportExactly(rules, |rules|);
  }

  lemma {:induction false} ReportExactly(rules: seq<Semantic>, i: nat)
    requires i <= |rules|
    ensures forall x :: x in Report(rules, i) <==> Reported(rules, x) && x.first < i
    ensures NoRepeats(Report(rules, i))
  {
    if i > 0 {
      ReportExactly(rules, i - 1);
      RowExactly(rules, i - 1, |rules|);
      NoRepeatsAppend(Report(rules, i - 1), RowReport(rules, i - 1, |rules|));
    }
  }

  lemma {:induction false} RowExactly(rules: seq<Semantic>, i: nat, j: nat)
    requires i < |rules| && j <= |rules|
    ensures forall x :: x in RowReport(rules, i, j) <==> Reported(rules, x) && x.first == i && x.second < j
    ensures NoRepeats(RowReport(rules, i, j))
    decreases j
  {
    if j > i + 1 {
      RowExactly(rules, i, j - 1);
      var classes := PairClasses(rules[i], rules[j - 1]);
      ClassesDiffer(rules[i], rules[j - 1]);
      TaggedExactly(classes, i, j - 1);
      NoRepeatsAppend(RowReport(rules, i, j - 1), Tagged(classes, i, j - 1));
    }
  }

  lemma NoRepeatsAppend(a: seq<Conflict>, b: seq<Conflict>)
    requires NoRepeats(a) && NoRepeats(b) && forall x :: x in a ==> x !in b
    ensures NoRepeats(a + b) && forall x :: x in a + b <==> x in a || x in b
  {
    forall m, n | 0 <= m < n < |a + b|
      ensures (a + b)[m] != (a + b)[n]
    {
      if m < |a| <= n {
        assert a[m] in a && b[n - |a|] in b;
      }
    }
  }

  lemma ClassesDiffer(a: Semantic, b: Semantic)
    ensures var classes := PairClasses(a, b); forall m, n | 0 <= m < n < |classes| :: classes[m] != classes[n]
  {
  }

  lemma TaggedExactly(classes: seq<Class>, i: nat, j: nat)
    ensures forall x :: x in Tagged(classes, i, j) <==> x.first == i && x.second == j && x.kind in classes
    ensures (forall m, n | 0 <= m < n < |classes| :: classes[m] != classes[n]) ==> NoRepeats(Tagged(classes, i, j))
  {
    forall x: Conflict | x.first == i && x.second == j && x.kind in classes
      ensures x in Tagged(classes, i, j)
    {
      var n :| 0 <= n < |classes| && classes[n] == x.kind;
      assert Tagged(classes, i, j)[n] == x;
    }
  }
}
