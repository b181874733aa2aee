/** The conflict edges of the graph, recomputed from the rules as T4 reports on them. */
module ConflictGraphs {
  import opened Wrappers
  import opened Strings
  import opened Graphs
  import T4 = Contradictions

  function ClassName(kind: T4.Class): string {
    match kind
    case DuplicateRule => "DuplicateRule"
    case ContradictoryOutcome => "ContradictoryOutcome"
    case OverlappingScope => "OverlappingScope"
    case TemporalOverlap => "TemporalOverlap"
  }

  function SeverityName(kind: T4.Class): string {
    match kind
    case ContradictoryOutcome => "Blocking"
    case OverlappingScope => "ReviewRequired"
    case TemporalOverlap => "ReviewRequired"
    case DuplicateRule => "Advisory"
  }

  function Between(rules: seq<RuleRef>, c: T4.Conflict): RuleConflict
    requires c.first < |rules| && c.second < |rules|
  {
    RuleConflict(rules[c.first].ruleId, rules[c.second].ruleId, ClassName(c.kind), SeverityName(c.kind))
  }

  lemma ReportInRange(forms: seq<T4.Semantic>, k: nat)
    requires k < |T4.Report(forms, |forms|)|
    ensures T4.Reported(forms, T4.Report(forms, |forms|)[k])
  {
    T4.ReportedOnce(forms);
    assert T4.Report(forms, |forms|)[k] in T4.Report(forms, |forms|);
  }

  ghost function ReportedConflict(rules: seq<RuleRef>, forms: seq<T4.Semantic>, k: nat): RuleConflict
    requires |forms| == |rules| && k < |T4.Report(forms, |forms|)|
  {
    ReportInRange(forms, k);
    Between(rules, T4.Report(forms, |forms|)[k])
  }

  /** What T4 reports over an artifact's rules, given their semantic forms, by rule id. */
  ghost function ReportedConflicts(rules: seq<RuleRef>, forms: seq<T4.Semantic>): seq<RuleConflict>
    requires |forms| == |rules|
  {
    seq(|T4.Report(forms, |forms|)|, k requires 0 <= k < |T4.Report(forms, |forms|)| => ReportedConflict(rules, forms, k))
  }

  /** The conflict edges of one artifact, by running the conflict detection again over its rules. */
  method RecomputeConflicts(hex: string, rules: seq<RuleRef>, forms: seq<T4.Semantic>) returns (edges: seq<Edge>)
    requires |forms| == |rules|
    ensures edges == ConflictEdges(hex, ReportedConflicts(rules, forms))
  {
    var report := T4.DetectConflicts(forms);
    edges := [];
    for k := 0 to |report|
      invariant |edges| == k
      invariant forall m | 0 <= m < k :: edges[m] == ConflictEdge(hex, ReportedConflict(rules, forms, m))
    {
      ReportInRange(forms, k);
      edges := edges + [ConflictEdge(hex, Between(rules, report[k]))];
    }
  }

  // ---- which rules the edges join ----

  /** T4 puts the two rules of one artifact into this class, in the order it compares them. */
  ghost predicate Classed(forms: seq<T4.Semantic>, i: nat, j: nat, kind: T4.Class) {
    i < j < |forms| && kind in T4.PairClasses(forms[i], forms[j])
  }

  function PairEdge(hex: string, rules: seq<RuleRef>, i: nat, j: nat, kind: T4.Class): Edge
    requires i < |rules| && j < |rules|
  {
    ConflictEdge(hex, Between(rules, T4.Conflict(kind, i, j)))
  }

  /** There is a conflict edge for each class of each pair of rules, and no other. */
  lemma ConflictEdgesExactly(hex: string, rules: seq<RuleRef>, forms: seq<T4.Semantic>, e: Edge)
    requires |forms| == |rules|
    ensures e in ConflictEdges(hex, ReportedConflicts(rules, forms)) <==>
            exists i: nat, j: nat, kind :: Classed(forms, i, j, kind) && e == PairEdge(hex, rules, i, j, kind)
  {
    var conflicts, report := ReportedConflicts(rules, forms), T4.Report(forms, |forms|);
    if e in ConflictEdges(hex, conflicts) {
      var i, j, kind := EdgeHasPair(hex, rules, forms, e);
    }
    if i: nat, j: nat, kind :| Classed(forms, i, j, kind) && e == PairEdge(hex, rules, i, j, kind) {
      T4.ReportedOnce(forms);
      var c := T4.Conflict(kind, i, j);
      assert T4.Reported(forms, c);
      var k :| 0 <= k < |report| && report[k] == c;
      assert conflicts[k] == Between(rules, c);
      assert ConflictEdges(hex, conflicts)[k] == e;
    }
  }

  lemma EdgeHasPair(hex: string, rules: seq<RuleRef>, forms: seq<T4.Semantic>, e: Edge) returns (i: nat, j: nat, kind: T4.Class)
    requires |forms| == |rules| && e in ConflictEdges(hex, ReportedConflicts(rules, forms))
    ensures Classed(forms, i, j, kind) && e == PairEdge(hex, rules, i, j, kind)
  {
    var conflicts, report := ReportedConflicts(rules, forms), T4.Report(forms, |forms|);
    var k :| 0 <= k < |conflicts| && e == ConflictEdge(hex, conflicts[k]);
    ReportInRange(forms, k);
    i, j, kind := report[k].first, report[k].second, report[k].kind;
  }

  // ---- in the merged graph ----

  /** An artifact exported with the conflicts T4 reports over its rules; an intent has none. */
  ghost predicate Recomputed(x: Export) {
    |x.projection.hex| == 64 &&
    match x.projection.content
    case RulesContent(rules, _) => exists forms :: |forms| == |rules| && x.conflicts == ReportedConflicts(rules, forms)
    case IntentContent(_, _, _) => x.conflicts == []
  }

  lemma RecomputedIsValid(x: Export)
    requires Recomputed(x)
    ensures x.Valid()
  {
    if x.projection.content.RulesContent? {
      var rules := x.projection.content.rules;
      var forms :| |forms| == |rules| && x.conflicts == ReportedConflicts(rules, forms);
      forall k | 0 <= k < |x.conflicts|
        ensures HasRule(x.projection.hex, rules, RuleNodeId(x.projection.hex, x.conflicts[k].first))
        ensures HasRule(x.projection.hex, rules, RuleNodeId(x.projection.hex, x.conflicts[k].second))
      {
        var c := T4.Report(forms, |forms|)[k];
        ReportInRange(forms, k);
        assert rules[c.first] in rules && rules[c.second] in rules;
      }
    }
  }

  ghost predicate RecomputedExports(exports: seq<Export>) {
    && (forall x | x in exports :: Recomputed(x))
    && (forall x, y | x in exports && y in exports && x.projection.hex == y.projection.hex :: x == y)
  }

  lemma RecomputedAreDistinct(exports: seq<Export>)
    requires RecomputedExports(exports)
    ensures DistinctArtifacts(exports)
  {
    forall x | x in exports
      ensures x.Valid()
    {
      RecomputedIsValid(x);
    }
  }

  lemma ProjectionHasNoConflicts(p: Projection)
    requires |p.hex| == 64
    ensures forall e | e in ProjectionEdges(p) :: e.tag != ConflictsWith
  {
    AttestationEdgesAttest(p.hex, |p.attestations|);
    match p.content {
      case RulesContent(rules, index) =>
        RulesEdgesHold(p.hex, rules);
        IndexEdgesSpan(p.hex, index);
      case IntentContent(action, _, spans) =>
        SpanEdgesSpan(IntentId(p.hex, action), spans);
    }
  }

  /** The two rules of one exported artifact that T4 puts into this class, and the nodes they are. */
  ghost predicate ConflictNodes(x: Export, forms: seq<T4.Semantic>, i: nat, j: nat, kind: T4.Class, a: string, b: string) {
    x.projection.content.RulesContent? &&
    var hex, rules := x.projection.hex, x.projection.content.rules;
    |forms| == |rules| && x.conflicts == ReportedConflicts(rules, forms) && Classed(forms, i, j, kind) &&
    ((a == RuleNodeId(hex, rules[i].ruleId) && b == RuleNodeId(hex, rules[j].ruleId)) ||
     (a == RuleNodeId(hex, rules[j].ruleId) && b == RuleNodeId(hex, rules[i].ruleId)))
  }

  lemma EdgeJoinsRules(x: Export, e: Edge) returns (forms: seq<T4.Semantic>, i: nat, j: nat, kind: T4.Class)
    requires Recomputed(x) && e in x.Edges() && e.tag == ConflictsWith
    ensures ConflictNodes(x, forms, i, j, kind, e.from, e.to)
  {
    ProjectionHasNoConflicts(x.projection);
    var rules := x.projection.content.rules;
    forms :| |forms| == |rules| && x.conflicts == ReportedConflicts(rules, forms);
    i, j, kind := EdgeHasPair(x.projection.hex, rules, forms, e);
  }

  /**
   Every exposed rule is one T4 really reports: it conflicts with another rule of its own artifact, in the target regime,
   that the source's citations reach.
   */
  lemma ExposedRulesConflict(nodes: seq<Node>, edges: seq<Edge>, exports: seq<Export>, source: string, target: string, id: string)
    returns (x: Export, forms: seq<T4.Semantic>, i: nat, j: nat, kind: T4.Class, partner: string)
    requires RecomputedExports(exports) && MergedFrom(edges, exports) && Exposed(nodes, edges, source, target, id)
    ensures x in exports && ConflictNodes(x, forms, i, j, kind, id, partner)
    ensures Reachable(edges, Sources(nodes, edges, source), partner)
    ensures NodeInRegime(edges, id, target) && NodeInRegime(edges, partner, target)
  {
    var e;
    e, partner := ExposedThrough(nodes, edges, source, target, id);
    RecomputedAreDistinct(exports);
    ConflictPartnersShareRegime(edges, exports, e, target);
    x :| x in exports && e in x.Edges();
    forms, i, j, kind := EdgeJoinsRules(x, e);
  }
}
