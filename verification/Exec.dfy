/** The preview executor: flattened applicability, then a walk of the decision tree. */
module Exec {
  import opened Wrappers
  import opened Facts
  import opened Strings

  datatype Item = One(cond: Condition) | Nested(group: Group)

  datatype Members = Absent | Members(items: seq<Item>)

  datatype Group = Group(all: Members, any: Members)

  datatype Obligation = Obligation(id: string, description: Option<string>, deadline: Option<string>)

  datatype Leaf = Leaf(result: string, obligations: Option<seq<Obligation>>)

  datatype Tree = AtLeaf(leaf: Leaf) | Node(cond: Condition, yes: Tree, no: Tree)

  datatype Rule = Rule(id: string, appliesIf: Option<Group>, tree: Tree)

  datatype Mode = All | Any

  datatype NormStep = NormStep(field: string, op: Operator, result: bool)

  datatype Evaluation = Evaluation(
    ruleId: string, applicable: bool, decision: Option<string>, obligations: seq<Obligation>,
    applicabilitySteps: seq<NormStep>, decisionPath: seq<NormStep>)

  function StepOf(text: FloatText, facts: FactSet, c: Condition): NormStep {
    NormStep(c.field, c.op, Check(text, facts, c))
  }

  // ---- applicability ----

  function GroupMode(g: Group): Mode {
    if g.all.Members? && g.all.items != [] then All else Any
  }

  /**
   The linear check list the executor sees: `all or any or []` (an empty list counts as absent), nested
   groups spliced in place and their own modes discarded.
   */
  function Flat(g: Group): seq<Condition>
    decreases g, 1
  {
    if g.all.Members? && g.all.items != [] then FlatItems(g.all.items)
    else if g.any.Members? then FlatItems(g.any.items)
    else []
  }

  function FlatItems(items: seq<Item>): seq<Condition>
    decreases items, 0
  {
    if items == [] then [] else FlatItem(items[0]) + FlatItems(items[1..])
  }

  function FlatItem(item: Item): seq<Condition>
    decreases item, 2
  {
    match item
    case One(c) => [c]
    case Nested(g) => Flat(g)
  }

  /** `flatten` pushes onto an output list as it goes. */
  method Flatten(g: Group, out: seq<Condition>) returns (r: seq<Condition>)
    ensures r == out + Flat(g)
    decreases g, 1
  {
    r := out;
    if g.all.Members? && g.all.items != [] {
      r := FlattenItems(g.all.items, r);
    } else if g.any.Members? {
      r := FlattenItems(g.any.items, r);
    }
  }

  method FlattenItems(items: seq<Item>, out: seq<Condition>) returns (r: seq<Condition>)
    ensures r == out + FlatItems(items)
    decreases items, 0
  {
    r := out;
    for i := 0 to |items|
      invariant r + FlatItems(items[i..]) == out + FlatItems(items)
    {
      r := FlattenItem(items[i], r);
      assert items[i..][1..] == items[i + 1..];
    }
  }

  method FlattenItem(item: Item, out: seq<Condition>) returns (r: seq<Condition>)
    ensures r == out + FlatItem(item)
    decreases item, 2
  {
    match item {
      case One(c) => r := out + [c];
      case Nested(g) => r := Flatten(g, out);
    }
  }

  /** What a check list means: every check for `all`, some check for `any`, and nothing to check is true. */
  predicate Holds(text: FloatText, facts: FactSet, checks: seq<Condition>, mode: Mode) {
    checks == [] ||
    match mode
    case All => forall c | c in checks :: Check(text, facts, c)
    case Any => exists c | c in checks :: Check(text, facts, c)
  }

  predicate Applies(text: FloatText, facts: FactSet, appliesIf: Option<Group>) {
    appliesIf.Some? ==> Holds(text, facts, Flat(appliesIf.value), GroupMode(appliesIf.value))
  }

  /** The verdict of one check that settles a group of this mode at once. */
  function Decisive(mode: Mode): bool {
    mode == Any
  }

  /** `steps` records a prefix of `checks`, stopping right after the first decisive one and nowhere else. */
  ghost predicate ShortestDeciding(text: FloatText, facts: FactSet, checks: seq<Condition>, mode: Mode, steps: seq<NormStep>) {
    && |steps| <= |checks|
    && (forall i | 0 <= i < |steps| :: steps[i] == StepOf(text, facts, checks[i]))
    && (forall i | 0 <= i < |steps| - 1 :: steps[i].result != Decisive(mode))
    && (|steps| < |checks| ==> steps != [] && steps[|steps| - 1].result == Decisive(mode))
  }

  function Checks(appliesIf: Option<Group>): seq<Condition> {
    if appliesIf.Some? then Flat(appliesIf.value) else []
  }

  function CheckMode(appliesIf: Option<Group>): Mode {
    if appliesIf.Some? then GroupMode(appliesIf.value) else All
  }

  /** The steps the executor records over the remaining checks. */
  function Steps(text: FloatText, facts: FactSet, checks: seq<Condition>, mode: Mode): seq<NormStep> {
    if checks == [] then []
    else
      var step := StepOf(text, facts, checks[0]);
      [step] + if step.result == Decisive(mode) then [] else Steps(text, facts, checks[1..], mode)
  }

  lemma {:induction false} StepsAreShortest(text: FloatText, facts: FactSet, checks: seq<Condition>, mode: Mode)
    ensures ShortestDeciding(text, facts, checks, mode, Steps(text, facts, checks, mode))
  {
    if checks != [] && Check(text, facts, checks[0]) != Decisive(mode) {
      StepsAreShortest(text, facts, checks[1..], mode);
      OneMoreStep(text, facts, checks, mode, Steps(text, facts, checks[1..], mode));
    }
  }

  /** An undecided check in front of a shortest recording of the others. */
  lemma OneMoreStep(text: FloatText, facts: FactSet, checks: seq<Condition>, mode: Mode, rest: seq<NormStep>)
    requires checks != [] && Check(text, facts, checks[0]) != Decisive(mode)
    requires ShortestDeciding(text, facts, checks[1..], mode, rest)
    ensures ShortestDeciding(text, facts, checks, mode, [StepOf(text, facts, checks[0])] + rest)
  {
  }

  /** Only one recording is shortest, so the executor's trace is a function of the facts. */
  lemma ShortestIsUnique(text: FloatText, facts: FactSet, checks: seq<Condition>, mode: Mode, a: seq<NormStep>, b: seq<NormStep>)
    requires ShortestDeciding(text, facts, checks, mode, a) && ShortestDeciding(text, facts, checks, mode, b)
    ensures a == b
  {
    NoShorter(text, facts, checks, mode, a, b);
    NoShorter(text, facts, checks, mode, b, a);
  }

  lemma NoShorter(text: FloatText, facts: FactSet, checks: seq<Condition>, mode: Mode, a: seq<NormStep>, b: seq<NormStep>)
    requires ShortestDeciding(text, facts, checks, mode, a) && ShortestDeciding(text, facts, checks, mode, b)
    ensures |a| >= |b|
  {
    assert forall i | 0 <= i < |a| && i < |b| :: a[i] == b[i];
  }

  method RunChecks(text: FloatText, checks: seq<Condition>, mode: Mode, facts: FactSet) returns (ok: bool, steps: seq<NormStep>)
    ensures ok <==> if checks == [] then mode == All else Holds(text, facts, checks, mode)
    ensures ShortestDeciding(text, facts, checks, mode, steps)
  {
    steps := [];
    for i := 0 to |checks|
      invariant |steps| == i
      invariant forall j | 0 <= j < i :: steps[j] == StepOf(text, facts, checks[j])
      invariant forall j | 0 <= j < i :: Check(text, facts, checks[j]) != Decisive(mode)
    {
      var result := Check(text, facts, checks[i]);
      steps := steps + [NormStep(checks[i].field, checks[i].op, result)];
      assert checks[i] in checks;
      if mode == All && !result {
        return false, steps;
      }
      if mode == Any && result {
        return true, steps;
      }
    }
    ok := mode == All;
  }

  method Applicability(text: FloatText, appliesIf: Option<Group>, facts: FactSet) returns (ok: bool, steps: seq<NormStep>)
    ensures ok <==> Applies(text, facts, appliesIf)
    ensures ShortestDeciding(text, facts, Checks(appliesIf), CheckMode(appliesIf), steps)
  {
    if appliesIf.None? {
      return true, [];
    }
    var checks := Flatten(appliesIf.value, []);
    assert checks == Flat(appliesIf.value);
    if checks == [] {
      return true, [];
    }
    ok, steps := RunChecks(text, checks, GroupMode(appliesIf.value), facts);
  }

  // ---- the decision tree ----

  datatype Branch = Branch(cond: Condition, taken: bool)

  datatype Path = Path(branches: seq<Branch>, leaf: Leaf)

  function Prepend(b: Branch, paths: seq<Path>): (r: seq<Path>)
    ensures |r| == |paths|
    ensures forall i | 0 <= i < |r| :: r[i] == Path([b] + paths[i].branches, paths[i].leaf)
  {
    seq(|paths|, i requires 0 <= i < |paths| => Path([b] + paths[i].branches, paths[i].leaf))
  }

  /** The path table: every root-to-leaf branch vector, true branches first. */
  function Paths(tree: Tree): (r: seq<Path>)
    ensures |r| > 0
  {
    match tree
    case AtLeaf(leaf) => [Path([], leaf)]
    case Node(c, yes, no) => Prepend(Branch(c, true), Paths(yes)) + Prepend(Branch(c, false), Paths(no))
  }

  ghost predicate Agrees(text: FloatText, facts: FactSet, branches: seq<Branch>) {
    forall b | b in branches :: Check(text, facts, b.cond) == b.taken
  }

  function BranchSteps(branches: seq<Branch>): (r: seq<NormStep>)
    ensures |r| == |branches|
    ensures forall i | 0 <= i < |r| :: r[i] == NormStep(branches[i].cond.field, branches[i].cond.op, branches[i].taken)
  {
    seq(|branches|, i requires 0 <= i < |branches| => NormStep(branches[i].cond.field, branches[i].cond.op, branches[i].taken))
  }

  /** The position in the path table of the one path these facts follow. */
  function Reached(text: FloatText, facts: FactSet, tree: Tree): (i: nat)
    ensures i < |Paths(tree)|
  {
    match tree
    case AtLeaf(_) => 0
    case Node(c, yes, no) =>
      if Check(text, facts, c) then Reached(text, facts, yes)
      else |Paths(yes)| + Reached(text, facts, no)
  }

  lemma AgreesPrepend(text: FloatText, facts: FactSet, b: Branch, branches: seq<Branch>)
    ensures Agrees(text, facts, [b] + branches) <==> Check(text, facts, b.cond) == b.taken && Agrees(text, facts, branches)
  {
    assert b in [b] + branches;
    assert forall x | x in branches :: x in [b] + branches;
  }

  lemma PathAt(c: Condition, yes: Tree, no: Tree, i: nat)
    requires i < |Paths(Node(c, yes, no))|
    ensures var n := |Paths(yes)|;
            Paths(Node(c, yes, no))[i] ==
            if i < n then Path([Branch(c, true)] + Paths(yes)[i].branches, Paths(yes)[i].leaf)
            else Path([Branch(c, false)] + Paths(no)[i - n].branches, Paths(no)[i - n].leaf)
  {
  }

  /** The facts agree with row `r` of the table and with no other. */
  ghost predicate OnlyRow(text: FloatText, facts: FactSet, table: seq<Path>, r: nat) {
    forall i | 0 <= i < |table| :: Agrees(text, facts, table[i].branches) <==> i == r
  }

  lemma OnlyRowPrepended(text: FloatText, facts: FactSet, b: Branch, table: seq<Path>, r: nat, i: nat)
    requires OnlyRow(text, facts, table, r) && i < |table|
    ensures Agrees(text, facts, Prepend(b, table)[i].branches) <==> Check(text, facts, b.cond) == b.taken && i == r
  {
    AgreesPrepend(text, facts, b, table[i].branches);
  }

  /** Where one row of each branch's table agrees, one row of the joined table does. */
  lemma OnlyRowJoined(text: FloatText, facts: FactSet, c: Condition, yes: seq<Path>, no: seq<Path>, inYes: nat, inNo: nat)
    requires OnlyRow(text, facts, yes, inYes) && OnlyRow(text, facts, no, inNo) && inYes < |yes| && inNo < |no|
    ensures OnlyRow(text, facts, Prepend(Branch(c, true), yes) + Prepend(Branch(c, false), no),
                    if Check(text, facts, c) then inYes else |yes| + inNo)
  {
    var table := Prepend(Branch(c, true), yes) + Prepend(Branch(c, false), no);
    forall i | 0 <= i < |table|
      ensures Agrees(text, facts, table[i].branches) <==> i == if Check(text, facts, c) then inYes else |yes| + inNo
    {
      if i < |yes| {
        OnlyRowPrepended(text, facts, Branch(c, true), yes, inYes, i);
      } else {
        OnlyRowPrepended(text, facts, Branch(c, false), no, inNo, i - |yes|);
      }
    }
  }

  lemma {:induction false} OnlyRowReached(text: FloatText, facts: FactSet, tree: Tree)
    ensures OnlyRow(text, facts, Paths(tree), Reached(text, facts, tree))
  {
    match tree
    case AtLeaf(_) =>
    case Node(c, yes, no) =>
      OnlyRowReached(text, facts, yes);
      OnlyRowReached(text, facts, no);
      OnlyRowJoined(text, facts, c, Paths(yes), Paths(no), Reached(text, facts, yes), Reached(text, facts, no));
  }

  /** Exactly one row of the path table agrees with the facts. */
  lemma {:induction false} ExactlyOnePathAgrees(text: FloatText, facts: FactSet, tree: Tree, i: nat)
    requires i < |Paths(tree)|
    ensures Agrees(text, facts, Paths(tree)[i].branches) <==> i == Reached(text, facts, tree)
  {
    OnlyRowReached(text, facts, tree);
  }

  /** The row of the path table the facts select. */
  function Row(text: FloatText, facts: FactSet, tree: Tree): Path {
    Paths(tree)[Reached(text, facts, tree)]
  }

  lemma RowStep(text: FloatText, facts: FactSet, c: Condition, yes: Tree, no: Tree)
    ensures var taken := Check(text, facts, c);
            var next := Row(text, facts, if taken then yes else no);
            Row(text, facts, Node(c, yes, no)) == Path([Branch(c, taken)] + next.branches, next.leaf)
  {
    PathAt(c, yes, no, Reached(text, facts, Node(c, yes, no)));
  }

  lemma StepsPrepend(path: seq<NormStep>, b: Branch, rest: seq<Branch>)
    ensures path + BranchSteps([b] + rest) == path + [NormStep(b.cond.field, b.cond.op, b.taken)] + BranchSteps(rest)
  {
  }

  /** The walk follows exactly the one agreeing row of the path table, and returns that row's leaf. */
  method Walk(text: FloatText, tree: Tree, facts: FactSet) returns (leaf: Leaf, path: seq<NormStep>)
    ensures leaf == Row(text, facts, tree).leaf
    ensures path == BranchSteps(Row(text, facts, tree).branches)
  {
    var cur := tree;
    path := [];
    ghost var row := Row(text, facts, tree);
    while cur.Node?
      invariant row.leaf == Row(text, facts, cur).leaf
      invariant BranchSteps(row.branches) == path + BranchSteps(Row(text, facts, cur).branches)
      decreases cur
    {
      RowStep(text, facts, cur.cond, cur.yes, cur.no);
      var result := Check(text, facts, cur.cond);
      var next := if result then cur.yes else cur.no;
      StepsPrepend(path, Branch(cur.cond, result), Row(text, facts, next).branches);
      path := path + [NormStep(cur.cond.field, cur.cond.op, result)];
      cur := next;
    }
    leaf := cur.leaf;
  }

  // ---- facts that take several branches at once ----

  /** The fact answers every branch on this field as the branch is taken. */
  predicate Answers(text: FloatText, f: Fact, branches: seq<Branch>, field: string) {
    forall b | b in branches && b.cond.field == field :: Eval(text, f, b.cond.op, b.cond.value) == b.taken
  }

  ghost predicate Answerable(text: FloatText, branches: seq<Branch>, field: string) {
    exists f :: Answers(text, f, branches, field)
  }

  ghost predicate Takeable(text: FloatText, branches: seq<Branch>) {
    exists facts :: Agrees(text, facts, branches)
  }

  ghost function SomeAnswer(text: FloatText, branches: seq<Branch>, field: string): (f: Fact)
    requires Answerable(text, branches, field)
    ensures Answers(text, f, branches, field)
  {
    var f :| Answers(text, f, branches, field);
    f
  }

  /** Some facts take all the branches exactly when every field has a fact of its own that answers its branches. */
  lemma TakeableFieldwise(text: FloatText, branches: seq<Branch>)
    ensures Takeable(text, branches) <==> forall b | b in branches :: Answerable(text, branches, b.cond.field)
  {
    if forall b | b in branches :: Answerable(text, branches, b.cond.field) {
      var fields := set b | b in branches :: b.cond.field;
      var facts := map field | field in fields :: SomeAnswer(text, branches, field);
      assert Agrees(text, facts, branches);
    }
    if facts :| Agrees(text, facts, branches) {
      forall b | b in branches
        ensures Answerable(text, branches, b.cond.field)
      {
        assert Answers(text, Lookup(facts, b.cond.field), branches, b.cond.field);
      }
    }
  }

  /** A list of checks as branches that are all to be taken the same way. */
  function Aim(checks: seq<Condition>, want: bool): seq<Branch> {
    seq(|checks|, i requires 0 <= i < |checks| => Branch(checks[i], want))
  }

  // ---- evaluate ----

  /** The meaning of a rule: its applicability, then the one path of the table its facts select. */
  function Evaluate(text: FloatText, rule: Rule, facts: FactSet): Evaluation {
    var steps := Steps(text, facts, Checks(rule.appliesIf), CheckMode(rule.appliesIf));
    if Applies(text, facts, rule.appliesIf) then
      var row := Row(text, facts, rule.tree);
      var obligations := if row.leaf.obligations.Some? then row.leaf.obligations.value else [];
      Evaluation(rule.id, true, Some(row.leaf.result), obligations, steps, BranchSteps(row.branches))
    else Evaluation(rule.id, false, None, [], steps, [])
  }

  method EvaluateRule(text: FloatText, rule: Rule, facts: FactSet) returns (e: Evaluation)
    ensures e == Evaluate(text, rule, facts)
  {
    var applicable, steps := Applicability(text, rule.appliesIf, facts);
    ghost var checks, mode := Checks(rule.appliesIf), CheckMode(rule.appliesIf);
    StepsAreShortest(text, facts, checks, mode);
    ShortestIsUnique(text, facts, checks, mode, steps, Steps(text, facts, checks, mode));
    if !applicable {
      return Evaluation(rule.id, false, None, [], steps, []);
    }
    var leaf, path := Walk(text, rule.tree, facts);
    var obligations := if leaf.obligations.Some? then leaf.obligations.value else [];
    e := Evaluation(rule.id, true, Some(leaf.result), obligations, steps, path);
  }

  /** The obligation id set, sorted and deduplicated. */
  method ObligationIds(e: Evaluation) returns (ids: seq<string>)
    ensures StrictlySorted(ids)
    ensures forall id :: id in ids <==> exists i | 0 <= i < |e.obligations| :: e.obligations[i].id == id
  {
    var all := seq(|e.obligations|, i requires 0 <= i < |e.obligations| => e.obligations[i].id);
    assert forall i | 0 <= i < |e.obligations| :: all[i] == e.obligations[i].id;
    ids := SortDedup(all);
  }

  // ---- what a result can depend on ----

  function TreeConditions(tree: Tree): seq<Condition> {
    match tree
    case AtLeaf(_) => []
    case Node(c, yes, no) => [c] + TreeConditions(yes) + TreeConditions(no)
  }

  /** `Catalog::from_rule`: every condition the rule mentions. */
  function Catalog(rule: Rule): seq<Condition> {
    Checks(rule.appliesIf) + TreeConditions(rule.tree)
  }

  ghost predicate SameOn(a: FactSet, b: FactSet, conditions: seq<Condition>) {
    forall c | c in conditions :: Lookup(a, c.field) == Lookup(b, c.field)
  }

  lemma {:induction false} ReachedDependsOnTree(text: FloatText, tree: Tree, a: FactSet, b: FactSet)
    requires SameOn(a, b, TreeConditions(tree))
    ensures Reached(text, a, tree) == Reached(text, b, tree)
  {
    if tree.Node? {
      assert tree.cond in TreeConditions(tree);
      ReachedDependsOnTree(text, tree.yes, a, b);
      ReachedDependsOnTree(text, tree.no, a, b);
    }
  }

  lemma {:induction false} StepsDependOnChecks(text: FloatText, checks: seq<Condition>, mode: Mode, a: FactSet, b: FactSet)
    requires SameOn(a, b, checks)
    ensures Steps(text, a, checks, mode) == Steps(text, b, checks, mode)
  {
    if checks != [] {
      assert checks[0] in checks;
      StepsDependOnChecks(text, checks[1..], mode, a, b);
    }
  }

  /** Facts outside the catalog never change the outcome or the trace. */
  lemma EvaluateDependsOnCatalog(text: FloatText, rule: Rule, a: FactSet, b: FactSet)
    requires SameOn(a, b, Catalog(rule))
    ensures Evaluate(text, rule, a) == Evaluate(text, rule, b)
  {
    assert forall c | c in Checks(rule.appliesIf) :: c in Catalog(rule);
    assert forall c | c in TreeConditions(rule.tree) :: c in Catalog(rule);
    ReachedDependsOnTree(text, rule.tree, a, b);
    StepsDependOnChecks(text, Checks(rule.appliesIf), CheckMode(rule.appliesIf), a, b);
    assert Applies(text, a, rule.appliesIf) == Applies(text, b, rule.appliesIf) by {
      assert forall c | c in Checks(rule.appliesIf) :: Check(text, a, c) == Check(text, b, c);
    }
  }
}
