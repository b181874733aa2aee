/** Scenario generation: facts built to drive a rule down a chosen path. */
module Scenario {
  import opened Wrappers
  import opened Decimals
  import opened Facts
  import opened Exec
  import opened Strings

  // ---- JSON facts ----

  datatype Json =
    | JBool(flag: bool)
    | JInt(n: int)     // an integer literal
    | JFloat(r: real)  // a literal with a fraction
    | JStr(text: string)
    | JArray(items: seq<Json>)

  function FromJson(v: Json): Fact {
    match v
    case JBool(b) => FBool(b)
    case JInt(n) => FInt(n)
    case JFloat(r) => FFloat(r)
    case JStr(s) => FStr(s)
    case JArray(items) => FList(seq(|items|, i requires 0 <= i < |items| => FromJson(items[i])))
  }

  predicate FitsI64(n: int) {
    -0x8000_0000_0000_0000 <= n <= 0x7fff_ffff_ffff_ffff
  }

  /** An integer literal when the scale says integer and i64 holds it, else a float literal. */
  function DecimalJson(mantissa: int, scale: int): Json {
    if scale <= 0 then (if FitsI64(mantissa) then JInt(mantissa) else JFloat(mantissa as real))
    else JFloat(DecimalReal(mantissa, scale))
  }

  function OperandJson(v: Scalar): Json {
    match v
    case Str(s) => JStr(s)
    case Bool(b) => JBool(b)
    case Dec(m, s) => DecimalJson(m, s)
    case List(items) => JArray(seq(|items|, i requires 0 <= i < |items| => OperandJson(items[i])))
  }

  // ---- branch-driving values ----

  datatype Gen = Set(value: Json) | Absent

  const NON_MEMBER := "__NOT_IN_SET__"

  function Shift(v: Scalar, delta: int): Json {
    if v.Dec? then DecimalJson(v.mantissa + delta, v.scale) else OperandJson(v)
  }

  function Different(v: Scalar): Json {
    match v
    case Str(s) => JStr(s + "__NOMATCH")
    case Bool(b) => JBool(!b)
    case Dec(m, s) => DecimalJson(m + 1, s)
    case List(_) => JStr("__NOMATCH__")
  }

  function FirstMember(v: Scalar): Json {
    if v.List? && v.items != [] then OperandJson(v.items[0]) else JStr(NON_MEMBER)
  }

  function ValueTrue(op: Operator, v: Scalar): Gen {
    match op
    case Eq => Set(OperandJson(v))
    case NotEq => Set(Different(v))
    case In => Set(FirstMember(v))
    case NotIn => Set(JStr(NON_MEMBER))
    case Gt => Set(Shift(v, 1))
    case Lt => Set(Shift(v, -1))
    case Gte => Set(OperandJson(v))
    case Lte => Set(OperandJson(v))
    case Exists => Set(JStr("present"))
  }

  function ValueFalse(op: Operator, v: Scalar): Gen {
    match op
    case Eq => Set(Different(v))
    case NotEq => Set(OperandJson(v))
    case In => Set(JStr(NON_MEMBER))
    case NotIn => Set(FirstMember(v))
    case Gt => Set(OperandJson(v))
    case Lt => Set(OperandJson(v))
    case Gte => Set(Shift(v, -1))
    case Lte => Set(Shift(v, 1))
    case Exists => Gen.Absent
  }

  function ValueFor(c: Condition, want: bool): Gen {
    if want then ValueTrue(c.op, c.value) else ValueFalse(c.op, c.value)
  }

  function FactOf(g: Gen): Fact {
    if g.Set? then FromJson(g.value) else Null
  }

  // ---- which conditions the generator can drive ----

  /** Scales as the canonical profile leaves them, and mantissas with a neighbour on either side in an i128. */
  predicate Ordinary(v: Scalar) {
    match v
    case Dec(m, s) => s >= 0 && -I128_MAX <= m < I128_MAX
    case List(items) => forall i | 0 <= i < |items| :: Ordinary(items[i])
    case _ => true
  }

  /** Integers inside the value are ones a JSON integer literal can carry. */
  predicate IntegersFit(v: Scalar) {
    match v
    case Dec(m, s) => s == 0 ==> FitsI64(m)
    case List(items) => forall i | 0 <= i < |items| :: IntegersFit(items[i])
    case _ => true
  }

  predicate HasMember(v: Scalar) {
    v.List? && v.items != []
  }

  predicate HasNonMember(text: FloatText, v: Scalar) {
    v.List? ==> forall i | 0 <= i < |v.items| :: PyStrScalar(text, v.items[i]) != NON_MEMBER
  }

  /** The class of conditions whose generated value produces the wanted verdict. */
  predicate Drivable(text: FloatText, op: Operator, v: Scalar, want: bool) {
    match op
    case Eq => true
    case NotEq => true
    case Exists => true
    case In => if want then HasMember(v) else HasNonMember(text, v)
    case NotIn => if want then HasNonMember(text, v) else HasMember(v)
    case Gt => want ==> v.Dec?
    case Lt => want ==> v.Dec?
    case Gte => if want then !v.List? else v.Dec? || v.List?
    case Lte => if want then !v.List? else v.Dec? || v.List?
  }

  lemma {:induction false} OperandEqualsItself(v: Scalar)
    requires Ordinary(v)
    ensures EvalEq(FromJson(OperandJson(v)), v)
  {
    if v.List? {
      forall i | 0 <= i < |v.items|
        ensures EvalEq(FromJson(OperandJson(v.items[i])), v.items[i])
      {
        OperandEqualsItself(v.items[i]);
      }
    }
  }

  lemma {:induction false} OperandPrintsAsItself(text: FloatText, v: Scalar)
    requires Ordinary(v) && IntegersFit(v)
    ensures PyStrFact(text, FromJson(OperandJson(v))) == PyStrScalar(text, v)
    ensures PyReprFact(text, FromJson(OperandJson(v))) == PyReprScalar(text, v)
  {
    if v.List? {
      var f := FromJson(OperandJson(v));
      forall i | 0 <= i < |v.items|
        ensures PyReprFact(text, f.items[i]) == PyReprScalar(text, v.items[i])
      {
        OperandPrintsAsItself(text, v.items[i]);
      }
      assert seq(|f.items|, i requires 0 <= i < |f.items| => PyReprFact(text, f.items[i]))
          == seq(|v.items|, i requires 0 <= i < |v.items| => PyReprScalar(text, v.items[i]));
    }
  }

  lemma NeighboursDiffer(m: int, s: nat)
    ensures DecimalReal(m - 1, s) < DecimalReal(m, s) < DecimalReal(m + 1, s)
  {
    var p := Pow10(s) as real;
    if s > 0 {
      Quotients((m - 1) as real, m as real, p);
      Quotients(m as real, (m + 1) as real, p);
    }
  }

  lemma Quotients(a: real, b: real, p: real)
    requires a < b && p > 0.0
    ensures a / p < b / p
  {
    var q := (b - a) / p;
    assert q * p == b - a;
  }

  lemma DifferentIsDifferent(v: Scalar)
    requires Ordinary(v)
    ensures !EvalEq(FromJson(Different(v)), v)
  {
    if v.Dec? {
      NeighboursDiffer(v.mantissa, v.scale);
    }
  }

  /**
   The generated value gives the wanted verdict exactly for the drivable conditions, provided a membership
   list's first element is one whose JSON literal prints as the operand does.
   */
  lemma DrivesIffDrivable(text: FloatText, op: Operator, v: Scalar, want: bool)
    requires Ordinary(v) && (op in {In, NotIn} && HasMember(v) ==> IntegersFit(v.items[0]))
    ensures Eval(text, FactOf(ValueFor(Condition("", op, v), want)), op, v) == want <==> Drivable(text, op, v, want)
  {
    match op
    case Eq => DrivesEquality(v);
    case NotEq => DrivesEquality(v);
    case In => DrivesMembership(text, v);
    case NotIn => DrivesMembership(text, v);
    case Exists =>
    case _ => DrivesOrder(text, op, v, want);
  }

  lemma DrivesEquality(v: Scalar)
    requires Ordinary(v)
    ensures EvalEq(FromJson(OperandJson(v)), v) && !EvalEq(FromJson(Different(v)), v)
  {
    OperandEqualsItself(v);
    DifferentIsDifferent(v);
  }

  lemma DrivesMembership(text: FloatText, v: Scalar)
    requires Ordinary(v) && (HasMember(v) ==> IntegersFit(v.items[0]))
    ensures EvalIn(text, FromJson(FirstMember(v)), v) <==> HasMember(v)
    ensures EvalIn(text, FStr(NON_MEMBER), v) <==> !HasNonMember(text, v)
  {
    if HasMember(v) {
      OperandPrintsAsItself(text, v.items[0]);
    }
  }

  lemma DrivesOrder(text: FloatText, op: Operator, v: Scalar, want: bool)
    requires Ordinary(v) && op in {Gt, Lt, Gte, Lte}
    ensures Eval(text, FactOf(ValueFor(Condition("", op, v), want)), op, v) == want <==> Drivable(text, op, v, want)
  {
    match v
    case Dec(m, s) => NeighboursDiffer(m, s);
    case Str(s) => Irreflexive(s);
    case _ =>
  }

  /** A condition the generator can push to `want`. */
  predicate CanDrive(text: FloatText, c: Condition, want: bool) {
    && Ordinary(c.value)
    && (c.op in {In, NotIn} && HasMember(c.value) ==> IntegersFit(c.value.items[0]))
    && Drivable(text, c.op, c.value, want)
  }

  // ---- layered facts ----

  type Pair = (string, Gen)

  type JsonFacts = map<string, Json>

  function Put(m: JsonFacts, p: Pair): JsonFacts {
    if p.1.Set? then m[p.0 := p.1.value] else m - {p.0}
  }

  /** Later pairs override earlier ones; an absent value removes the key. */
  function Layered(pairs: seq<Pair>): JsonFacts {
    if pairs == [] then map[] else Put(Layered(pairs[..|pairs| - 1]), pairs[|pairs| - 1])
  }

  function Concat(layers: seq<seq<Pair>>): seq<Pair> {
    if layers == [] then [] else Concat(layers[..|layers| - 1]) + layers[|layers| - 1]
  }

  lemma LayeredAppend(pairs: seq<Pair>, p: Pair)
    ensures Layered(pairs + [p]) == Put(Layered(pairs), p)
  {
    assert (pairs + [p])[..|pairs|] == pairs;
  }

  lemma ConcatAppend(layers: seq<seq<Pair>>, layer: seq<Pair>)
    ensures Concat(layers + [layer]) == Concat(layers) + layer
  {
    assert (layers + [layer])[..|layers|] == layers;
  }

  method BuildFacts(layers: seq<seq<Pair>>) returns (m: JsonFacts)
    ensures m == Layered(Concat(layers))
  {
    m := map[];
    for i := 0 to |layers|
      invariant m == Layered(Concat(layers[..i]))
    {
      m := AddLayer(m, layers[i], Concat(layers[..i]));
      ConcatAppend(layers[..i], layers[i]);
      assert layers[..i + 1] == layers[..i] + [layers[i]];
    }
    assert layers[..|layers|] == layers;
  }

  method AddLayer(m: JsonFacts, layer: seq<Pair>, ghost done: seq<Pair>) returns (r: JsonFacts)
    requires m == Layered(done)
    ensures r == Layered(done + layer)
  {
    r := m;
    assert done + layer[..0] == done;
    for j := 0 to |layer|
      invariant r == Layered(done + layer[..j])
    {
      r := Put(r, layer[j]);
      LayeredAppend(done + layer[..j], layer[j]);
      assert done + layer[..j + 1] == done + layer[..j] + [layer[j]];
    }
    assert layer[..|layer|] == layer;
  }

  function FactsMap(m: JsonFacts): FactSet {
    map k | k in m :: FromJson(m[k])
  }

  ghost predicate DistinctKeys(pairs: seq<Pair>) {
    forall i, j | 0 <= i < j < |pairs| :: pairs[i].0 != pairs[j].0
  }

  lemma {:induction false} LayeredLookup(pairs: seq<Pair>, k: nat)
    requires DistinctKeys(pairs) && k < |pairs|
    ensures Lookup(FactsMap(Layered(pairs)), pairs[k].0) == FactOf(pairs[k].1)
  {
    if k < |pairs| - 1 {
      LayeredLookup(pairs[..|pairs| - 1], k);
    }
  }

  // ---- the generator's fact assignments ----

  function PairFor(c: Condition, want: bool): Pair {
    (c.field, ValueFor(c, want))
  }

  function BranchPairs(branches: seq<Branch>): seq<Pair> {
    seq(|branches|, i requires 0 <= i < |branches| => PairFor(branches[i].cond, branches[i].taken))
  }

  function CheckPairs(checks: seq<Condition>, want: bool): seq<Pair> {
    BranchPairs(Aim(checks, want))
  }

  /** Facts making `appliesIf` hold or fail: one false check is enough for `all`, every one is needed for `any`. */
  method ApplicabilityPairs(rule: Rule, satisfy: bool) returns (out: seq<Pair>)
    ensures out == ApplicabilitySpec(rule, satisfy)
  {
    out := [];
    if rule.appliesIf.None? {
      return;
    }
    var checks := Flatten(rule.appliesIf.value, []);
    assert checks == Flat(rule.appliesIf.value);
    if checks == [] {
      return;
    }
    if !satisfy && GroupMode(rule.appliesIf.value) == All {
      out := out + [PairFor(checks[0], false)];
      return;
    }
    for i := 0 to |checks|
      invariant |out| == i && forall j | 0 <= j < i :: out[j] == PairFor(checks[j], satisfy)
    {
      out := out + [PairFor(checks[i], satisfy)];
    }
  }

  function ApplicabilitySpec(rule: Rule, satisfy: bool): seq<Pair> {
    var checks := Checks(rule.appliesIf);
    if !satisfy && checks != [] && CheckMode(rule.appliesIf) == All then CheckPairs(checks[..1], false)
    else CheckPairs(checks, satisfy)
  }

  /** The rows `walk_paths` adds below a prefix. */
  function Rows(prefix: seq<Pair>, paths: seq<Path>): seq<seq<Pair>> {
    seq(|paths|, i requires 0 <= i < |paths| => prefix + BranchPairs(paths[i].branches))
  }

  method WalkPaths(tree: Tree, prefix: seq<Pair>, out: seq<seq<Pair>>) returns (r: seq<seq<Pair>>)
    ensures r == out + Rows(prefix, Paths(tree))
    decreases tree
  {
    match tree {
      case AtLeaf(_) =>
        r := out + [prefix];
        assert prefix + BranchPairs([]) == prefix;
      case Node(c, yes, no) =>
        r := WalkPaths(yes, prefix + [PairFor(c, true)], out);
        r := WalkPaths(no, prefix + [PairFor(c, false)], r);
        RowsPrepend(prefix, Branch(c, true), Paths(yes));
        RowsPrepend(prefix, Branch(c, false), Paths(no));
        RowsConcat(prefix, Prepend(Branch(c, true), Paths(yes)), Prepend(Branch(c, false), Paths(no)));
    }
  }

  lemma RowsPrepend(prefix: seq<Pair>, b: Branch, paths: seq<Path>)
    ensures Rows(prefix + [PairFor(b.cond, b.taken)], paths) == Rows(prefix, Prepend(b, paths))
  {
    forall i | 0 <= i < |paths|
      ensures prefix + [PairFor(b.cond, b.taken)] + BranchPairs(paths[i].branches) == prefix + BranchPairs([b] + paths[i].branches)
    {
    }
  }

  lemma RowsConcat(prefix: seq<Pair>, a: seq<Path>, b: seq<Path>)
    ensures Rows(prefix, a + b) == Rows(prefix, a) + Rows(prefix, b)
  {
  }

  // ---- branch coverage ----

  function PathFacts(rule: Rule, path: Path): JsonFacts {
    Layered(ApplicabilitySpec(rule, true) + BranchPairs(path.branches))
  }

  /** Distinct fields, each condition one the generator can push its way. */
  ghost predicate Aimable(text: FloatText, targets: seq<Branch>) {
    && (forall i, j | 0 <= i < j < |targets| :: targets[i].cond.field != targets[j].cond.field)
    && (forall i | 0 <= i < |targets| :: CanDrive(text, targets[i].cond, targets[i].taken))
  }

  lemma Driven(text: FloatText, facts: FactSet, c: Condition, want: bool)
    requires CanDrive(text, c, want) && Lookup(facts, c.field) == FactOf(ValueFor(c, want))
    ensures Check(text, facts, c) == want
  {
    DrivesIffDrivable(text, c.op, c.value, want);
  }

  lemma AimableFactsAgree(text: FloatText, targets: seq<Branch>)
    requires Aimable(text, targets)
    ensures Agrees(text, FactsMap(Layered(BranchPairs(targets))), targets)
  {
    var pairs := BranchPairs(targets);
    forall b | b in targets
      ensures Check(text, FactsMap(Layered(pairs)), b.cond) == b.taken
    {
      var k :| 0 <= k < |targets| && targets[k] == b;
      LayeredLookup(pairs, k);
      Driven(text, FactsMap(Layered(pairs)), b.cond, b.taken);
    }
  }

  /** What a rule's i-th row must look like for the generator to aim at it. */
  function RowTargets(rule: Rule, path: Path): seq<Branch> {
    Aim(Checks(rule.appliesIf), true) + path.branches
  }

  lemma AllChecksHold(text: FloatText, rule: Rule, facts: FactSet)
    requires Agrees(text, facts, Aim(Checks(rule.appliesIf), true))
    ensures Applies(text, facts, rule.appliesIf)
  {
    var checks := Checks(rule.appliesIf);
    forall c | c in checks
      ensures Check(text, facts, c)
    {
      var k :| 0 <= k < |checks| && checks[k] == c;
      assert Aim(checks, true)[k] in Aim(checks, true);
    }
    if checks != [] {
      assert checks[0] in checks;
    }
  }

  lemma AgreesSplit(text: FloatText, facts: FactSet, a: seq<Branch>, b: seq<Branch>)
    requires Agrees(text, facts, a + b)
    ensures Agrees(text, facts, a) && Agrees(text, facts, b)
  {
    assert forall x | x in a || x in b :: x in a + b;
  }

  /** The `path#i` facts make the rule applicable and take exactly the i-th path, to exactly the i-th leaf. */
  lemma PathScenarioReachesItsLeaf(text: FloatText, rule: Rule, i: nat)
    requires i < |Paths(rule.tree)| && Aimable(text, RowTargets(rule, Paths(rule.tree)[i]))
    ensures var path := Paths(rule.tree)[i];
            var e := Evaluate(text, rule, FactsMap(PathFacts(rule, path)));
            e.applicable && e.decision == Some(path.leaf.result) && e.decisionPath == BranchSteps(path.branches) &&
            e.obligations == (if path.leaf.obligations.Some? then path.leaf.obligations.value else [])
  {
    RowFactsAgree(text, rule, Paths(rule.tree)[i]);
    AgreeingFactsReach(text, rule, FactsMap(PathFacts(rule, Paths(rule.tree)[i])), i);
  }

  lemma RowFactsAgree(text: FloatText, rule: Rule, path: Path)
    requires Aimable(text, RowTargets(rule, path))
    ensures var facts := FactsMap(PathFacts(rule, path));
            Agrees(text, facts, Aim(Checks(rule.appliesIf), true)) && Agrees(text, facts, path.branches)
  {
    var targets := RowTargets(rule, path);
    assert BranchPairs(targets) == ApplicabilitySpec(rule, true) + BranchPairs(path.branches);
    AimableFactsAgree(text, targets);
    AgreesSplit(text, FactsMap(PathFacts(rule, path)), Aim(Checks(rule.appliesIf), true), path.branches);
  }

  lemma AgreeingFactsReach(text: FloatText, rule: Rule, facts: FactSet, i: nat)
    requires i < |Paths(rule.tree)|
    requires Agrees(text, facts, Aim(Checks(rule.appliesIf), true)) && Agrees(text, facts, Paths(rule.tree)[i].branches)
    ensures var (path, e) := (Paths(rule.tree)[i], Evaluate(text, rule, facts));
            e.applicable && e.decision == Some(path.leaf.result) && e.decisionPath == BranchSteps(path.branches) &&
            e.obligations == (if path.leaf.obligations.Some? then path.leaf.obligations.value else [])
  {
    AllChecksHold(text, rule, facts);
    ExactlyOnePathAgrees(text, facts, rule.tree, i);
  }

  /** `all` is broken by its first check alone; `any` needs every check false. */
  function FailureTargets(rule: Rule): seq<Branch> {
    var checks := Checks(rule.appliesIf);
    Aim(if checks != [] && CheckMode(rule.appliesIf) == All then checks[..1] else checks, false)
  }

  /** The `not_applicable` facts do make the rule not applicable. */
  lemma NotApplicableScenario(text: FloatText, rule: Rule)
    requires Checks(rule.appliesIf) != [] && Aimable(text, FailureTargets(rule))
    ensures !Applies(text, FactsMap(Layered(ApplicabilitySpec(rule, false))), rule.appliesIf)
  {
    var checks, targets := Checks(rule.appliesIf), FailureTargets(rule);
    var facts := FactsMap(Layered(BranchPairs(targets)));
    AimableFactsAgree(text, targets);
    forall k | 0 <= k < |targets|
      ensures !Check(text, facts, checks[k])
    {
      assert targets[k] in targets;
    }
    assert checks[0] in checks;
  }

  // ---- the scenario list ----

  datatype Scenario = Scenario(ruleId: string, tag: string, facts: JsonFacts)

  const IRRELEVANT: seq<Pair> := [("__irrelevant_a", Set(JBool(true))), ("__irrelevant_b", Set(JStr("noise")))]

  /** The anchor the later scenarios vary: applicable, and every condition of the rule pushed true. */
  function Anchored(rule: Rule, over: seq<Pair>): JsonFacts {
    Layered(ApplicabilitySpec(rule, true) + CheckPairs(Catalog(rule), true) + over)
  }

  predicate IsOrdering(op: Operator) {
    op in {Gt, Lt, Gte, Lte}
  }

  function WrongType(v: Scalar): Json {
    if v.Dec? then JStr("not_a_number") else JBool(true)
  }

  /** The anchor with the condition's threshold moved by `delta` units in its last place. */
  function Boundary(rule: Rule, c: Condition, delta: int): JsonFacts {
    Anchored(rule, [(c.field, Set(Shift(c.value, delta)))])
  }

  function BoundaryScenarios(rule: Rule, c: Condition): seq<Scenario> {
    [Scenario(rule.id, "boundary:" + c.field + ":below", Boundary(rule, c, -1)),
     Scenario(rule.id, "boundary:" + c.field + ":at", Boundary(rule, c, 0)),
     Scenario(rule.id, "boundary:" + c.field + ":above", Boundary(rule, c, 1))]
  }

  /** Three scenarios for each ordering condition, in catalog order. */
  function Boundaries(rule: Rule, conditions: seq<Condition>): seq<Scenario> {
    if conditions == [] then []
    else
      var c := conditions[|conditions| - 1];
      Boundaries(rule, conditions[..|conditions| - 1]) + if IsOrdering(c.op) then BoundaryScenarios(rule, c) else []
  }

  /** The first condition's field missing, and wrongly typed. */
  function FirstVaried(rule: Rule): seq<Scenario> {
    if Catalog(rule) == [] then []
    else
      var c := Catalog(rule)[0];
      [Scenario(rule.id, "missing:" + c.field, Anchored(rule, [(c.field, Gen.Absent)])),
       Scenario(rule.id, "wrong_type:" + c.field, Anchored(rule, [(c.field, Set(WrongType(c.value)))]))]
  }

  /** The pseudo-random generator's draws below five, one after the other. */
  type Draws = nat -> nat

  function FuzzValue(draw: nat, c: Condition): Gen {
    match draw
    case 1 => ValueFalse(c.op, c.value)
    case 2 => Gen.Absent
    case 3 => Set(WrongType(c.value))
    case _ => ValueTrue(c.op, c.value)
  }

  function FuzzPairs(conditions: seq<Condition>, draws: Draws, from: nat): seq<Pair> {
    seq(|conditions|, i requires 0 <= i < |conditions| => (conditions[i].field, FuzzValue(draws(from + i), conditions[i])))
  }

  /** How many draws the first `n` fuzz scenarios take: one to a condition each. */
  function Drawn(rule: Rule, n: nat): nat {
    if n == 0 then 0 else Drawn(rule, n - 1) + |Catalog(rule)|
  }

  function Fuzz(rule: Rule, draws: Draws, n: nat): Scenario {
    Scenario(rule.id, "fuzz#" + Digits(n), Layered(FuzzPairs(Catalog(rule), draws, Drawn(rule, n))))
  }

  function PathScenarioList(rule: Rule): seq<Scenario> {
    seq(|Paths(rule.tree)|, i requires 0 <= i < |Paths(rule.tree)| => PathScenario(rule, i))
  }

  function NotApplicableList(rule: Rule): seq<Scenario> {
    if rule.appliesIf.Some? then [Scenario(rule.id, "not_applicable", Layered(ApplicabilitySpec(rule, false)))] else []
  }

  function Irrelevant(rule: Rule): Scenario {
    Scenario(rule.id, "irrelevant_facts", Anchored(rule, IRRELEVANT))
  }

  /** Everything generated before the fuzz. */
  function Deterministic(rule: Rule): seq<Scenario> {
    PathScenarioList(rule) + NotApplicableList(rule) + Boundaries(rule, Catalog(rule)) + FirstVaried(rule) + [Irrelevant(rule)]
  }

  /** The whole list, in order. */
  method GenerateForRule(rule: Rule, draws: Draws, fuzzExtra: nat) returns (out: seq<Scenario>)
    ensures out == Deterministic(rule) + seq(fuzzExtra, n requires 0 <= n < fuzzExtra => Fuzz(rule, draws, n))
  {
    out := PathScenarios(rule);
    var notApplicable := NotApplicableScenarios(rule);
    var varied := VariedScenarios(rule);
    var last := Vary(rule, "irrelevant_facts", IRRELEVANT);
    out := out + notApplicable + varied + [last];
    InListOrder(rule, varied, last);
    var fuzz := FuzzScenarios(rule, draws, fuzzExtra);
    out := out + fuzz;
  }

  lemma InListOrder(rule: Rule, varied: seq<Scenario>, last: Scenario)
    requires varied == Boundaries(rule, Catalog(rule)) + FirstVaried(rule) && last == Irrelevant(rule)
    ensures PathScenarioList(rule) + NotApplicableList(rule) + varied + [last] == Deterministic(rule)
  {
  }

  method NotApplicableScenarios(rule: Rule) returns (out: seq<Scenario>)
    ensures out == NotApplicableList(rule)
  {
    out := [];
    if rule.appliesIf.Some? {
      var applFalse := ApplicabilityPairs(rule, false);
      var facts := BuildFacts([applFalse]);
      OneLayer(applFalse);
      out := [Scenario(rule.id, "not_applicable", facts)];
    }
  }

  /** Each scenario goes on drawing where the last one stopped. */
  method FuzzScenarios(rule: Rule, draws: Draws, fuzzExtra: nat) returns (out: seq<Scenario>)
    ensures out == seq(fuzzExtra, n requires 0 <= n < fuzzExtra => Fuzz(rule, draws, n))
  {
    var drawn: nat := 0;
    out := [];
    for n := 0 to fuzzExtra
      invariant drawn == Drawn(rule, n)
      invariant |out| == n && forall m | 0 <= m < n :: out[m] == Fuzz(rule, draws, m)
    {
      var s := FuzzScenario(rule, draws, n, drawn);
      out := out + [s];
      drawn := drawn + |Catalog(rule)|;
    }
  }

  method FuzzScenario(rule: Rule, draws: Draws, n: nat, drawn: nat) returns (s: Scenario)
    requires drawn == Drawn(rule, n)
    ensures s == Fuzz(rule, draws, n)
  {
    var pairs := DrawPairs(Catalog(rule), draws, drawn);
    var facts := BuildFacts([pairs]);
    OneLayer(pairs);
    s := Scenario(rule.id, "fuzz#" + Digits(n), facts);
  }

  method DrawPairs(conditions: seq<Condition>, draws: Draws, from: nat) returns (pairs: seq<Pair>)
    ensures pairs == FuzzPairs(conditions, draws, from)
  {
    var drawn := from;
    pairs := [];
    for i := 0 to |conditions|
      invariant drawn == from + i
      invariant |pairs| == i && forall j | 0 <= j < i :: pairs[j] == (conditions[j].field, FuzzValue(draws(from + j), conditions[j]))
    {
      pairs := pairs + [(conditions[i].field, FuzzValue(draws(drawn), conditions[i]))];
      drawn := drawn + 1;
    }
  }

  function PathScenario(rule: Rule, i: nat): Scenario
    requires i < |Paths(rule.tree)|
  {
    Scenario(rule.id, "path#" + Digits(i), PathFacts(rule, Paths(rule.tree)[i]))
  }

  method PathScenarios(rule: Rule) returns (out: seq<Scenario>)
    ensures out == PathScenarioList(rule)
  {
    out := [];
    var applTrue := ApplicabilityPairs(rule, true);
    var paths := WalkPaths(rule.tree, [], []);
    for i := 0 to |paths|
      invariant |out| == i
      invariant forall j | 0 <= j < i :: out[j] == PathScenario(rule, j)
    {
      var facts := BuildFacts([applTrue, paths[i]]);
      TwoLayers(applTrue, paths[i]);
      RowPairs(rule, i);
      out := out + [Scenario(rule.id, "path#" + Digits(i), facts)];
    }
  }

  lemma RowPairs(rule: Rule, i: nat)
    requires i < |Paths(rule.tree)|
    ensures ([] + Rows([], Paths(rule.tree)))[i] == BranchPairs(Paths(rule.tree)[i].branches)
  {
  }

  method Vary(rule: Rule, tag: string, over: seq<Pair>) returns (s: Scenario)
    ensures s == Scenario(rule.id, tag, Anchored(rule, over))
  {
    var applTrue := ApplicabilityPairs(rule, true);
    var allTrue := CheckPairs(Catalog(rule), true);
    var facts := BuildFacts([applTrue, allTrue, over]);
    ThreeLayers(applTrue, allTrue, over);
    s := Scenario(rule.id, tag, facts);
  }

  method VariedScenarios(rule: Rule) returns (out: seq<Scenario>)
    ensures out == Boundaries(rule, Catalog(rule)) + FirstVaried(rule)
  {
    var conditions := Catalog(rule);
    out := [];
    for i := 0 to |conditions|
      invariant out == Boundaries(rule, conditions[..i])
    {
      var c := conditions[i];
      assert conditions[..i + 1][..i] == conditions[..i];
      if IsOrdering(c.op) {
        var below := Vary(rule, "boundary:" + c.field + ":below", [(c.field, Set(Shift(c.value, -1)))]);
        var at := Vary(rule, "boundary:" + c.field + ":at", [(c.field, Set(Shift(c.value, 0)))]);
        var above := Vary(rule, "boundary:" + c.field + ":above", [(c.field, Set(Shift(c.value, 1)))]);
        out := out + [below, at, above];
      }
    }
    assert conditions[..|conditions|] == conditions;
    if conditions != [] {
      var c := conditions[0];
      var missing := Vary(rule, "missing:" + c.field, [(c.field, Gen.Absent)]);
      var wrong := Vary(rule, "wrong_type:" + c.field, [(c.field, Set(WrongType(c.value)))]);
      out := out + [missing, wrong];
    }
  }

  /** How an ordering condition answers its own threshold moved by `delta`: a number moves, anything else stays. */
  predicate AtBoundary(c: Condition, delta: int) {
    var side := if c.value.Dec? then delta else 0;
    match c.op
    case Gt => side > 0
    case Lt => side < 0
    case Gte => side >= 0 && !c.value.List?
    case Lte => side <= 0 && !c.value.List?
    case _ => false
  }

  lemma BoundaryFact(rule: Rule, c: Condition, delta: int)
    ensures Lookup(FactsMap(Boundary(rule, c, delta)), c.field) == FromJson(Shift(c.value, delta))
  {
    LayeredAppend(ApplicabilitySpec(rule, true) + CheckPairs(Catalog(rule), true), (c.field, Set(Shift(c.value, delta))));
  }

  /** The three boundary facts put an ordering condition below, at and above its threshold, and it answers accordingly. */
  lemma BoundaryVerdicts(text: FloatText, rule: Rule, c: Condition, delta: int)
    requires IsOrdering(c.op) && Ordinary(c.value) && -1 <= delta <= 1
    ensures Check(text, FactsMap(Boundary(rule, c, delta)), c) <==> AtBoundary(c, delta)
  {
    BoundaryFact(rule, c, delta);
    if c.value.Dec? {
      ShiftedNumber(c.value.mantissa, c.value.scale, delta);
      NumberVerdict(text, FromJson(Shift(c.value, delta)), c, delta);
    } else {
      UnshiftedVerdict(text, c, delta);
    }
  }

  /** Moving the mantissa moves the number the same way. */
  lemma ShiftedNumber(m: int, s: nat, delta: int)
    requires -1 <= delta <= 1
    ensures var f := AsNumber(FromJson(DecimalJson(m + delta, s)));
            f.Some? && (f.value < DecimalReal(m, s) <==> delta < 0) && (f.value > DecimalReal(m, s) <==> delta > 0)
  {
    NeighboursDiffer(m, s);
    JsonReads(m + delta, s);
  }

  lemma JsonReads(m: int, s: nat)
    ensures AsNumber(FromJson(DecimalJson(m, s))) == Some(DecimalReal(m, s))
  {
  }

  lemma NumberVerdict(text: FloatText, f: Fact, c: Condition, delta: int)
    requires IsOrdering(c.op) && c.value.Dec? && AsNumber(f).Some?
    requires AsNumber(f).value < OperandNumber(c.value).value <==> delta < 0
    requires AsNumber(f).value > OperandNumber(c.value).value <==> delta > 0
    ensures Eval(text, f, c.op, c.value) <==> AtBoundary(c, delta)
  {
  }

  lemma UnshiftedVerdict(text: FloatText, c: Condition, delta: int)
    requires IsOrdering(c.op) && !c.value.Dec?
    ensures Eval(text, FromJson(OperandJson(c.value)), c.op, c.value) <==> AtBoundary(c, delta)
  {
    if c.value.Str? {
      Irreflexive(c.value.text);
    }
  }

  /** And all three are in the list, next to each other, for every ordering condition of the catalog. */
  lemma {:induction false} BoundariesListed(rule: Rule, conditions: seq<Condition>, c: Condition)
      returns (before: seq<Scenario>, after: seq<Scenario>)
    requires c in conditions && IsOrdering(c.op)
    ensures Boundaries(rule, conditions) == before + BoundaryScenarios(rule, c) + after
  {
    var init, last := conditions[..|conditions| - 1], conditions[|conditions| - 1];
    BoundariesMore(rule, init, last);
    assert conditions == init + [last];
    if last == c {
      before, after := Boundaries(rule, init), [];
    } else {
      before, after := BoundariesListed(rule, init, c);
      after := after + LastBoundaries(rule, last);
    }
  }

  ghost function LastBoundaries(rule: Rule, last: Condition): seq<Scenario> {
    if IsOrdering(last.op) then BoundaryScenarios(rule, last) else []
  }

  lemma BoundariesMore(rule: Rule, init: seq<Condition>, last: Condition)
    ensures Boundaries(rule, init + [last]) == Boundaries(rule, init) + LastBoundaries(rule, last)
  {
    assert (init + [last])[..|init|] == init;
  }

  lemma OneLayer(a: seq<Pair>)
    ensures Concat([a]) == a
  {
    assert [a][..0] == [];
  }

  lemma TwoLayers(a: seq<Pair>, b: seq<Pair>)
    ensures Concat([a, b]) == a + b
  {
    OneLayer(a);
    assert [a, b][..1] == [a];
  }

  lemma ThreeLayers(a: seq<Pair>, b: seq<Pair>, c: seq<Pair>)
    ensures Concat([a, b, c]) == a + b + c
  {
    TwoLayers(a, b);
    assert [a, b, c][..2] == [a, b];
  }

  /** The metamorphic scenario: noise on fields the rule never mentions changes neither outcome nor trace. */
  lemma IrrelevantFactsChangeNothing(text: FloatText, rule: Rule, pairs: seq<Pair>)
    requires forall c | c in Catalog(rule) :: c.field !in {"__irrelevant_a", "__irrelevant_b"}
    ensures Evaluate(text, rule, FactsMap(Layered(pairs + IRRELEVANT))) == Evaluate(text, rule, FactsMap(Layered(pairs)))
  {
    var noisy := pairs + IRRELEVANT;
    LayeredAppend(pairs, IRRELEVANT[0]);
    LayeredAppend(pairs + [IRRELEVANT[0]], IRRELEVANT[1]);
    assert noisy == pairs + [IRRELEVANT[0]] + [IRRELEVANT[1]];
    EvaluateDependsOnCatalog(text, rule, FactsMap(Layered(noisy)), FactsMap(Layered(pairs)));
  }
}
