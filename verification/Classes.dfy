/** Which conflict is reported for a pair of rules, said of the report itself, and what the graph's conflict edges say of it. */
module Classes {
  import opened Wrappers
  import opened Strings
  import opened Calendar
  import opened Facts
  import opened Exec
  import opened Conflicts
  import opened Contradictions
  import Graphs
  import ConflictGraphs

  // ---- what a rule's premises are ----

  /** The conditions that stand by themselves in the rule's `all`. */
  predicate Stands(rule: Rule, c: Condition) {
    rule.appliesIf.Some? && rule.appliesIf.value.all.Members? && One(c) in rule.appliesIf.value.all.items
  }

  /** It equates the field with an operand of this text, or with a member of this text of a list. */
  predicate Permits(c: Condition, value: string) {
    (c.op == Eq && value == Stringify(c.value)) ||
    (c.op == In && c.value.List? && exists i | 0 <= i < |c.value.items| :: value == Stringify(c.value.items[i]))
  }

  /** What premises say: the fields equated with something by a condition of their own, and the texts they are equated with. */
  lemma PremisesExactly(rule: Rule, p: Premises, field: string, value: string)
    requires ArePremises(p, TopLevel(rule))
    ensures field in p <==> exists c :: Stands(rule, c) && c.field == field && (c.op == Eq || (c.op == In && c.value.List?))
    ensures field in p && value in p[field] <==> exists c :: Stands(rule, c) && c.field == field && Permits(c, value)
  {
    forall c: Condition
      ensures Stands(rule, c) <==> One(c) in TopLevel(rule)
      ensures Allowed(One(c)).Some? <==> c.op == Eq || (c.op == In && c.value.List?)
      ensures Allowed(One(c)).Some? && value in Allowed(One(c)).value <==> Permits(c, value)
    {
    }
    ConstrainedBy(TopLevel(rule), field, value);
    assert Constrains(TopLevel(rule), field) <==> exists c :: Stands(rule, c) && c.field == field && Allowed(One(c)).Some?;
    assert Allows(TopLevel(rule), field, value) <==> exists c :: Stands(rule, c) && c.field == field && Permits(c, value);
  }

  lemma ConstrainedBy(items: seq<Item>, field: string, value: string)
    ensures Constrains(items, field) <==> exists c :: One(c) in items && c.field == field && Allowed(One(c)).Some?
    ensures Allows(items, field, value) <==>
            exists c :: One(c) in items && c.field == field && Allowed(One(c)).Some? && value in Allowed(One(c)).value
  {
    if item :| item in items && item.One? && item.cond.field == field && Allowed(item).Some? {
      assert One(item.cond) in items && item.cond.field == field;
    }
    if item :| item in items && item.One? && item.cond.field == field && Allowed(item).Some? && value in Allowed(item).value {
      assert One(item.cond) in items && item.cond.field == field;
    }
  }

  // ---- what a contradiction is ----

  /** The answer the path gives the condition, where it last asks it. */
  predicate LastSays(branches: seq<Branch>, c: Condition, taken: bool) {
    exists i | 0 <= i < |branches| ::
      branches[i] == Branch(c, taken) && forall j | i < j < |branches| :: branches[j].cond != c
  }

  lemma {:induction false} AnswerIsLast(branches: seq<Branch>, c: Condition)
    ensures forall taken :: Answer(branches, c) == Some(taken) <==> LastSays(branches, c, taken)
  {
    if branches != [] {
      var (init, last) := (branches[..|branches| - 1], branches[|branches| - 1]);
      AnswerIsLast(init, c);
      forall taken: bool
        ensures Answer(branches, c) == Some(taken) <==> LastSays(branches, c, taken)
      {
        LastSaysMore(init, last, c, taken);
        assert branches == init + [last];
      }
    }
  }

  lemma LastSaysMore(init: seq<Branch>, last: Branch, c: Condition, taken: bool)
    ensures LastSays(init + [last], c, taken) <==> if last.cond == c then last.taken == taken else LastSays(init, c, taken)
  {
    var branches := init + [last];
    if last.cond == c && last.taken == taken {
      assert branches[|init|] == Branch(c, taken);
    }
    if last.cond != c && LastSays(init, c, taken) {
      var i :| 0 <= i < |init| && init[i] == Branch(c, taken) && forall j | i < j < |init| :: init[j].cond != c;
      assert branches[i] == Branch(c, taken);
    }
    if LastSays(branches, c, taken) {
      var i :| 0 <= i < |branches| && branches[i] == Branch(c, taken) && forall j | i < j < |branches| :: branches[j].cond != c;
      if i < |init| {
        assert branches[|init|].cond != c;
        assert forall j | i < j < |init| :: init[j] == branches[j];
      }
    }
  }

  /** Both paths ask some field, or neither asks any. */
  predicate Related(p: SemPath, q: SemPath) {
    (exists i, j | 0 <= i < |p.branches| && 0 <= j < |q.branches| :: p.branches[i].cond.field == q.branches[j].cond.field) ||
    (p.branches == [] && q.branches == [])
  }

  /** Two paths contradict: different results, no condition of the second last answered otherwise by the first, and related. */
  lemma ContradictsExactly(p: SemPath, q: SemPath)
    ensures Contradicts(p, q) <==>
            p.result != q.result && Related(p, q) &&
            forall j | 0 <= j < |q.branches| :: !LastSays(p.branches, q.branches[j].cond, !q.branches[j].taken)
  {
    forall j | 0 <= j < |q.branches|
      ensures Answer(p.branches, q.branches[j].cond) in {None, Some(q.branches[j].taken)} <==>
              !LastSays(p.branches, q.branches[j].cond, !q.branches[j].taken)
    {
      var (c, taken) := (q.branches[j].cond, q.branches[j].taken);
      AnswerIsLast(p.branches, c);
      assert Answer(p.branches, c) == Some(!taken) <==> LastSays(p.branches, c, !taken);
      NotOtherwise(Answer(p.branches, c), taken);
    }
    RelatedExactly(p, q);
  }

  lemma NotOtherwise(answer: Option<bool>, taken: bool)
    ensures answer in {None, Some(taken)} <==> answer != Some(!taken)
  {
    match answer
    case None =>
    case Some(given) => assert given == taken || given == !taken;
  }

  lemma RelatedExactly(p: SemPath, q: SemPath)
    ensures SharedScenario(p, q) <==> Related(p, q)
  {
    if i, j :| 0 <= i < |p.branches| && 0 <= j < |q.branches| && p.branches[i].cond.field == q.branches[j].cond.field {
      assert p.branches[i].cond.field in FieldsOf(p) && p.branches[i].cond.field in FieldsOf(q);
    }
    if f :| f in FieldsOf(p) && f in FieldsOf(q) {
      var i :| 0 <= i < |p.branches| && p.branches[i].cond.field == f;
      var j :| 0 <= j < |q.branches| && q.branches[j].cond.field == f;
      assert p.branches[i].cond.field == q.branches[j].cond.field;
    }
    assert p.branches != [] ==> p.branches[0].cond.field in FieldsOf(p);
    assert q.branches != [] ==> q.branches[0].cond.field in FieldsOf(q);
  }

  // ---- the report ----

  /** Same applicability, same paths. */
  predicate Same(a: Semantic, b: Semantic) {
    a.applicability == b.applicability && a.paths == b.paths
  }

  /** Some field is constrained by both, and none both constrain to values apart. */
  ghost predicate ScopesMeet(a: Semantic, b: Semantic) {
    (exists f :: f in a.premises && f in b.premises) &&
    forall f | f in a.premises && f in b.premises :: exists v :: v in a.premises[f] && v in b.premises[f]
  }

  ghost predicate SomeContradict(a: Semantic, b: Semantic) {
    exists p, q :: p in a.paths && q in b.paths && Contradicts(p, q)
  }

  /** Both have a window, and each opens before the other's end, an open one ending on the last date there is. */
  predicate Concurrent(a: Option<Window>, b: Option<Window>) {
    a.Some? && b.Some? &&
    var (x, y) := (a.value, b.value);
    Before(x.from, if y.to.Some? then y.to.value else Date(0x7fff, 12, 31)) &&
    Before(y.from, if x.to.Some? then x.to.value else Date(0x7fff, 12, 31))
  }

  lemma MeetIsOverlap(a: Semantic, b: Semantic)
    ensures ScopesMeet(a, b) <==> Overlap(a.premises, b.premises)
  {
  }

  /** The report lists a pair of rules, once, as just what it is: a duplicate, or a contradiction, or an overlap, the last two with their windows. */
  lemma PairReportedExactly(rules: seq<Semantic>, report: seq<Conflict>, i: nat, j: nat)
    requires report == Report(rules, |rules|) && i < j < |rules|
    ensures var (a, b) := (rules[i], rules[j]);
            (Conflict(DuplicateRule, i, j) in report <==> Same(a, b)) &&
            (Conflict(ContradictoryOutcome, i, j) in report <==> !Same(a, b) && ScopesMeet(a, b) && SomeContradict(a, b)) &&
            (Conflict(OverlappingScope, i, j) in report <==> !Same(a, b) && ScopesMeet(a, b) && !SomeContradict(a, b)) &&
            (Conflict(TemporalOverlap, i, j) in report <==> !Same(a, b) && ScopesMeet(a, b) && Concurrent(a.window, b.window))
    ensures forall kind :: Conflict(kind, j, i) !in report && Conflict(kind, i, i) !in report
  {
    ReportedOnce(rules);
    MeetIsOverlap(rules[i], rules[j]);
    forall kind: Class
      ensures Conflict(kind, i, j) in report <==> kind in PairClasses(rules[i], rules[j])
      ensures Conflict(kind, j, i) !in report && Conflict(kind, i, i) !in report
    {
      assert Conflict(kind, i, j) in report <==> Reported(rules, Conflict(kind, i, j));
    }
    ClassesAre(rules[i], rules[j]);
  }

  lemma ClassesAre(a: Semantic, b: Semantic)
    ensures var classes := PairClasses(a, b);
            (DuplicateRule in classes <==> Same(a, b)) &&
            (ContradictoryOutcome in classes <==> !Same(a, b) && Overlap(a.premises, b.premises) && SomeContradict(a, b)) &&
            (OverlappingScope in classes <==> !Same(a, b) && Overlap(a.premises, b.premises) && !SomeContradict(a, b)) &&
            (TemporalOverlap in classes <==> !Same(a, b) && Overlap(a.premises, b.premises) && Concurrent(a.window, b.window))
  {
  }

  /** The report goes pair by pair, the earlier rule first, the scope class of a pair before its windows. */
  predicate Comes(x: Conflict, y: Conflict) {
    x.first < y.first || (x.first == y.first && x.second < y.second) ||
    (x.first == y.first && x.second == y.second && y.kind == TemporalOverlap && x.kind != TemporalOverlap)
  }

  ghost predicate InOrder(report: seq<Conflict>) {
    forall m, n | 0 <= m < n < |report| :: Comes(report[m], report[n])
  }

  lemma ReportInOrder(rules: seq<Semantic>)
    ensures InOrder(Report(rules, |rules|))
  {
    RowsInOrder(rules, |rules|);
  }

  lemma {:induction false} RowsInOrder(rules: seq<Semantic>, i: nat)
    requires i <= |rules|
    ensures InOrder(Report(rules, i))
  {
    if i > 0 {
      RowsInOrder(rules, i - 1);
      RowAppended(rules, i - 1);
    } else {
      EmptyInOrder(rules);
    }
  }

  lemma EmptyInOrder(rules: seq<Semantic>)
    ensures InOrder(Report(rules, 0))
  {
    assert Report(rules, 0) == [];
  }

  lemma RowAppended(rules: seq<Semantic>, i: nat)
    requires i < |rules| && InOrder(Report(rules, i))
    ensures InOrder(Report(rules, i + 1))
  {
    RowInOrder(rules, i, |rules|);
    RowComesAfter(rules, i);
    AppendInOrder(Report(rules, i), RowReport(rules, i, |rules|));
    ReportGrows(rules, i);
  }

  lemma ReportGrows(rules: seq<Semantic>, i: nat)
    requires i < |rules|
    ensures Report(rules, i + 1) == Report(rules, i) + RowReport(rules, i, |rules|)
  {
  }

  lemma RowComesAfter(rules: seq<Semantic>, i: nat)
    requires i < |rules|
    ensures forall x, y | x in Report(rules, i) && y in RowReport(rules, i, |rules|) :: Comes(x, y)
  {
    ReportExactly(rules, i);
    RowExactly(rules, i, |rules|);
    forall x, y | x in Report(rules, i) && y in RowReport(rules, i, |rules|)
      ensures Comes(x, y)
    {
      assert x.first < i && y.first == i;
    }
  }

  lemma AppendInOrder(a: seq<Conflict>, b: seq<Conflict>)
    requires InOrder(a) && InOrder(b) && forall x, y | x in a && y in b :: Comes(x, y)
    ensures InOrder(a + b)
  {
    forall m, n | 0 <= m < n < |a + b|
      ensures Comes((a + b)[m], (a + b)[n])
    {
      if m < |a| <= n {
        assert a[m] in a && b[n - |a|] in b;
      }
    }
  }

  lemma {:induction false} RowInOrder(rules: seq<Semantic>, i: nat, j: nat)
    requires i < |rules| && j <= |rules|
    ensures InOrder(RowReport(rules, i, j))
    decreases j
  {
    if j > i + 1 {
      RowInOrder(rules, i, j - 1);
      PairAppended(rules, i, j - 1);
    }
  }

  lemma PairAppended(rules: seq<Semantic>, i: nat, j: nat)
    requires i < j < |rules| && InOrder(RowReport(rules, i, j))
    ensures InOrder(RowReport(rules, i, j + 1))
  {
    RowExactly(rules, i, j);
    var classes := PairClasses(rules[i], rules[j]);
    TaggedExactly(classes, i, j);
    TaggedInOrder(rules[i], rules[j], i, j);
    AppendInOrder(RowReport(rules, i, j), Tagged(classes, i, j));
  }

  lemma TaggedInOrder(a: Semantic, b: Semantic, i: nat, j: nat)
    ensures InOrder(Tagged(PairClasses(a, b), i, j))
  {
  }

  // ---- the conflict edges ----

  /** A class and its severity, as they are written on an edge, and what they say of the two rules. */
  ghost predicate Found(forms: seq<Semantic>, i: nat, j: nat, name: string, severity: string) {
    i < j < |forms| &&
    var (a, b) := (forms[i], forms[j]);
    || (name == "DuplicateRule" && severity == "Advisory" && Same(a, b))
    || (name == "ContradictoryOutcome" && severity == "Blocking" && !Same(a, b) && ScopesMeet(a, b) && SomeContradict(a, b))
    || (name == "OverlappingScope" && severity == "ReviewRequired" && !Same(a, b) && ScopesMeet(a, b) && !SomeContradict(a, b))
    || (name == "TemporalOverlap" && severity == "ReviewRequired" && !Same(a, b) && ScopesMeet(a, b) && Concurrent(a.window, b.window))
  }

  /** The edge runs between the two rules' nodes, from the id that sorts first. */
  ghost predicate Joins(e: Graphs.Edge, hex: string, a: string, b: string) {
    e.tag == Graphs.ConflictsWith &&
    if exists k: nat :: DiffersAt(b, a, k) then e.from == hex + ":" + b && e.to == hex + ":" + a
    else e.from == hex + ":" + a && e.to == hex + ":" + b
  }

  ghost predicate Says(hex: string, rules: seq<Graphs.RuleRef>, forms: seq<Semantic>, e: Graphs.Edge, i: nat, j: nat, name: string, severity: string) {
    Found(forms, i, j, name, severity) && j < |rules| && Joins(e, hex, rules[i].ruleId, rules[j].ruleId) &&
    e.props == [("class", name), ("severity", severity)]
  }

  lemma ClassIsFound(forms: seq<Semantic>, i: nat, j: nat, kind: Class)
    requires i < j < |forms|
    ensures ConflictGraphs.Classed(forms, i, j, kind) <==>
            Found(forms, i, j, ConflictGraphs.ClassName(kind), ConflictGraphs.SeverityName(kind))
  {
    ClassesAre(forms[i], forms[j]);
    MeetIsOverlap(forms[i], forms[j]);
  }

  lemma PairEdgeSays(hex: string, rules: seq<Graphs.RuleRef>, i: nat, j: nat, kind: Class, e: Graphs.Edge)
    requires i < |rules| && j < |rules|
    ensures e == ConflictGraphs.PairEdge(hex, rules, i, j, kind) <==>
            Joins(e, hex, rules[i].ruleId, rules[j].ruleId) &&
            e.props == [("class", ConflictGraphs.ClassName(kind)), ("severity", ConflictGraphs.SeverityName(kind))]
  {
    LessExactly(rules[j].ruleId, rules[i].ruleId);
  }

  lemma NameHasClass(forms: seq<Semantic>, i: nat, j: nat, name: string, severity: string) returns (kind: Class)
    requires Found(forms, i, j, name, severity)
    ensures name == ConflictGraphs.ClassName(kind) && severity == ConflictGraphs.SeverityName(kind)
  {
    kind := if name == "DuplicateRule" then DuplicateRule else if name == "ContradictoryOutcome" then ContradictoryOutcome
            else if name == "OverlappingScope" then OverlappingScope else TemporalOverlap;
  }

  /** An artifact's conflict edges say of its rules just what holds of them. */
  lemma EdgesSayExactly(hex: string, rules: seq<Graphs.RuleRef>, forms: seq<Semantic>, e: Graphs.Edge)
    requires |forms| == |rules|
    ensures e in Graphs.ConflictEdges(hex, ConflictGraphs.ReportedConflicts(rules, forms)) <==>
            exists i, j, name, severity :: Says(hex, rules, forms, e, i, j, name, severity)
  {
    ConflictGraphs.ConflictEdgesExactly(hex, rules, forms, e);
    if i: nat, j: nat, kind :| ConflictGraphs.Classed(forms, i, j, kind) && e == ConflictGraphs.PairEdge(hex, rules, i, j, kind) {
      ClassIsFound(forms, i, j, kind);
      PairEdgeSays(hex, rules, i, j, kind, e);
      assert Says(hex, rules, forms, e, i, j, ConflictGraphs.ClassName(kind), ConflictGraphs.SeverityName(kind));
    }
    if i, j, name, severity :| Says(hex, rules, forms, e, i, j, name, severity) {
      var kind := NameHasClass(forms, i, j, name, severity);
      ClassIsFound(forms, i, j, kind);
      PairEdgeSays(hex, rules, i, j, kind, e);
      assert ConflictGraphs.Classed(forms, i, j, kind) && e == ConflictGraphs.PairEdge(hex, rules, i, j, kind);
    }
  }
}
