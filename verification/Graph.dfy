/** The derived citation graph: projection of an artifact, merging, and the two oracle queries. */
module Graphs {
  import opened Wrappers
  import opened Strings
  import Decimals

  datatype NodeLabel = ArtifactNode | RegimeNode | RuleNode | CorpusDocNode | AttestationNode | IntentNode

  datatype EdgeLabel = InRegime | Contains | Cites | Spans | AttestedBy | ConflictsWith

  type Props = seq<(string, string)>

  datatype Node = Node(tag: NodeLabel, id: string, props: Props)

  datatype Edge = Edge(tag: EdgeLabel, from: string, to: string, props: Props)

  // ---- merging ----

  predicate HasNode(nodes: seq<Node>, tag: NodeLabel, id: string) {
    exists i | 0 <= i < |nodes| :: nodes[i].tag == tag && nodes[i].id == id
  }

  ghost predicate NoTwins(nodes: seq<Node>) {
    forall i, j | 0 <= i < j < |nodes| :: !(nodes[i].tag == nodes[j].tag && nodes[i].id == nodes[j].id)
  }

  ghost predicate NoRepeats(edges: seq<Edge>) {
    forall i, j | 0 <= i < j < |edges| :: edges[i] != edges[j]
  }

  class Graph {
    var nodes: seq<Node>
    var edges: seq<Edge>

    constructor ()
      ensures nodes == [] && edges == []
    {
      nodes, edges := [], [];
    }

    /** Shared nodes dedupe by (label, id) and edges exactly; nothing already present moves or changes. */
    method Merge(otherNodes: seq<Node>, otherEdges: seq<Edge>)
      modifies this
      ensures old(nodes) <= nodes && old(edges) <= edges
      ensures forall e :: e in edges <==> e in old(edges) || e in otherEdges
      ensures forall t, id :: HasNode(nodes, t, id) <==> HasNode(old(nodes), t, id) || HasNode(otherNodes, t, id)
      ensures NoTwins(old(nodes)) ==> NoTwins(nodes)
      ensures NoRepeats(old(edges)) ==> NoRepeats(edges)
    {
      for i := 0 to |otherNodes|
        invariant old(nodes) <= nodes && edges == old(edges)
        invariant forall t, id :: HasNode(nodes, t, id) <==> HasNode(old(nodes), t, id) || HasNode(otherNodes[..i], t, id)
        invariant NoTwins(old(nodes)) ==> NoTwins(nodes)
      {
        var n := otherNodes[i];
        HasOneMore(otherNodes[..i], n);
        HasOneMore(nodes, n);
        assert otherNodes[..i + 1] == otherNodes[..i] + [n];
        if !HasNode(nodes, n.tag, n.id) {
          nodes := nodes + [n];
        }
      }
      assert otherNodes[..|otherNodes|] == otherNodes;
      for i := 0 to |otherEdges|
        invariant old(edges) <= edges
        invariant forall e :: e in edges <==> e in old(edges) || e in otherEdges[..i]
        invariant NoRepeats(old(edges)) ==> NoRepeats(edges)
        modifies `edges
      {
        assert otherEdges[..i + 1] == otherEdges[..i] + [otherEdges[i]];
        if otherEdges[i] !in edges {
          edges := edges + [otherEdges[i]];
        }
      }
      assert otherEdges[..|otherEdges|] == otherEdges;
    }
  }

  lemma HasOneMore(nodes: seq<Node>, n: Node)
    ensures forall t, id :: HasNode(nodes + [n], t, id) <==> HasNode(nodes, t, id) || (t == n.tag && id == n.id)
  {
    var all := nodes + [n];
    assert all[|nodes|] == n;
    assert forall i | 0 <= i < |nodes| :: all[i] == nodes[i];
  }

  // ---- membership maps ----

  /** artifact to regime; a later edge overrides an earlier one. */
  function RegimeOf(edges: seq<Edge>): map<string, string> {
    if edges == [] then map[]
    else
      var e, m := edges[|edges| - 1], RegimeOf(edges[..|edges| - 1]);
      if e.tag == InRegime then m[e.from := e.to] else m
  }

  /** rule or intent to its artifact. */
  function ArtifactOf(edges: seq<Edge>): map<string, string> {
    if edges == [] then map[]
    else
      var e, m := edges[|edges| - 1], ArtifactOf(edges[..|edges| - 1]);
      if e.tag == Contains then m[e.to := e.from] else m
  }

  predicate NodeInRegime(edges: seq<Edge>, node: string, regime: string) {
    var a, r := ArtifactOf(edges), RegimeOf(edges);
    node in a && a[node] in r && r[a[node]] == regime
  }

  // ---- the citation closure ----

  predicate IsCitation(e: Edge) {
    e.tag == Cites || e.tag == Spans
  }

  ghost predicate Adjacent(edges: seq<Edge>, x: string, y: string) {
    exists e | e in edges :: IsCitation(e) && ((e.from == x && e.to == y) || (e.from == y && e.to == x))
  }

  /** A walk along citation edges, in either direction. */
  ghost predicate IsWalk(edges: seq<Edge>, walk: seq<string>) {
    walk != [] && forall i | 0 <= i < |walk| - 1 :: Adjacent(edges, walk[i], walk[i + 1])
  }

  ghost predicate Reachable(edges: seq<Edge>, sources: set<string>, x: string) {
    exists walk :: IsWalk(edges, walk) && walk[0] in sources && walk[|walk| - 1] == x
  }

  function Sources(nodes: seq<Node>, edges: seq<Edge>, regime: string): set<string> {
    set i | 0 <= i < |nodes| && nodes[i].tag == RuleNode && NodeInRegime(edges, nodes[i].id, regime) :: nodes[i].id
  }

  /** One conflict edge away from the closure, landing in the target regime. */
  ghost predicate Exposed(nodes: seq<Node>, edges: seq<Edge>, source: string, target: string, x: string) {
    NodeInRegime(edges, x, target) &&
    exists e | e in edges :: e.tag == ConflictsWith &&
      ((e.to == x && Reachable(edges, Sources(nodes, edges, source), e.from)) ||
       (e.from == x && Reachable(edges, Sources(nodes, edges, source), e.to)))
  }

  lemma ReachableStep(edges: seq<Edge>, sources: set<string>, x: string, y: string)
    requires Reachable(edges, sources, x) && Adjacent(edges, x, y)
    ensures Reachable(edges, sources, y)
  {
    var walk :| IsWalk(edges, walk) && walk[0] in sources && walk[|walk| - 1] == x;
    var longer := walk + [y];
    assert IsWalk(edges, longer) && longer[0] in sources && longer[|longer| - 1] == y;
  }

  lemma ReachableSource(edges: seq<Edge>, sources: set<string>, x: string)
    requires x in sources
    ensures Reachable(edges, sources, x)
  {
    assert IsWalk(edges, [x]);
  }

  /** A set holding the sources and closed under citation holds everything reachable. */
  lemma ClosedHoldsReachable(edges: seq<Edge>, sources: set<string>, closed: set<string>, x: string)
    requires sources <= closed && forall a, b :: a in closed && Adjacent(edges, a, b) ==> b in closed
    requires Reachable(edges, sources, x)
    ensures x in closed
  {
    var walk :| IsWalk(edges, walk) && walk[0] in sources && walk[|walk| - 1] == x;
    WalkStays(edges, closed, walk, |walk| - 1);
  }

  lemma {:induction false} WalkStays(edges: seq<Edge>, closed: set<string>, walk: seq<string>, k: nat)
    requires IsWalk(edges, walk) && walk[0] in closed && k < |walk|
    requires forall a, b :: a in closed && Adjacent(edges, a, b) ==> b in closed
    ensures walk[k] in closed
  {
    if k > 0 {
      WalkStays(edges, closed, walk, k - 1);
      assert Adjacent(edges, walk[k - 1], walk[k]);
    }
  }

  type AdjacencyMap = map<string, seq<string>>

  function NeighboursOf(adjacent: AdjacencyMap, x: string): seq<string> {
    if x in adjacent then adjacent[x] else []
  }

  function Link(adjacent: AdjacencyMap, x: string, y: string): AdjacencyMap {
    adjacent[x := NeighboursOf(adjacent, x) + [y]]
  }

  method BuildAdjacency(edges: seq<Edge>) returns (adjacent: AdjacencyMap)
    ensures forall x, y :: y in NeighboursOf(adjacent, x) <==> Adjacent(edges, x, y)
  {
    adjacent := map[];
    for i := 0 to |edges|
      invariant forall x, y :: y in NeighboursOf(adjacent, x) <==> Adjacent(edges[..i], x, y)
    {
      var e := edges[i];
      AdjacentMore(edges[..i], e);
      assert edges[..i + 1] == edges[..i] + [e];
      if IsCitation(e) {
        adjacent := Link(Link(adjacent, e.from, e.to), e.to, e.from);
      }
    }
    assert edges[..|edges|] == edges;
  }

  lemma AdjacentMore(edges: seq<Edge>, e: Edge)
    ensures forall x, y :: Adjacent(edges + [e], x, y) <==>
              Adjacent(edges, x, y) || (IsCitation(e) && ((e.from == x && e.to == y) || (e.from == y && e.to == x)))
  {
    var all := edges + [e];
    assert e in all && forall d | d in edges :: d in all;
  }

  /** Every endpoint of an edge, and every source: the ids a search can meet. */
  ghost function Universe(edges: seq<Edge>, sources: set<string>): set<string> {
    sources + (set e | e in edges :: e.from) + (set e | e in edges :: e.to)
  }

  lemma AdjacentInUniverse(edges: seq<Edge>, sources: set<string>, x: string, y: string)
    requires Adjacent(edges, x, y)
    ensures y in Universe(edges, sources)
  {
  }

  /** Everything reached and no longer queued has all its neighbours reached. */
  ghost predicate ClosedOutside(edges: seq<Edge>, reached: set<string>, queue: seq<string>) {
    forall x, y :: x in reached && x !in queue && Adjacent(edges, x, y) ==> y in reached
  }

  lemma ClosedStep(edges: seq<Edge>, reached: set<string>, queue: seq<string>, grown: set<string>, found: seq<string>)
    requires queue != [] && ClosedOutside(edges, reached, queue)
    requires forall x :: x in grown <==> x in reached || x in found
    requires forall y :: Adjacent(edges, queue[0], y) ==> y in grown
    ensures ClosedOutside(edges, grown, queue[1..] + found)
  {
    forall x, y | x in grown && x !in queue[1..] + found && Adjacent(edges, x, y)
      ensures y in grown
    {
      assert x !in queue[1..] && x !in found;
    }
  }

  /** Breadth-first search: terminates with exactly the citation closure of the sources. */
  method Closure(edges: seq<Edge>, start: seq<string>) returns (reached: set<string>)
    ensures forall x :: x in reached <==> Reachable(edges, (set s | s in start), x)
  {
    var adjacent := BuildAdjacency(edges);
    ghost var sources := set s | s in start;
    ghost var universe := Universe(edges, sources);
    var queue := start;
    reached := set s | s in start;
    forall x | x in reached
      ensures Reachable(edges, sources, x)
    {
      ReachableSource(edges, sources, x);
    }
    while queue != []
      invariant sources <= reached <= universe
      invariant forall x :: x in queue ==> x in reached
      invariant forall x :: x in reached ==> Reachable(edges, sources, x)
      invariant ClosedOutside(edges, reached, queue)
      decreases |universe - reached|, |queue|
    {
      var grown, found := Visit(edges, sources, reached, queue[0], NeighboursOf(adjacent, queue[0]));
      ClosedStep(edges, reached, queue, grown, found);
      Shrinks(universe, reached, grown, found);
      queue := queue[1..] + found;
      reached := grown;
    }
    forall x | Reachable(edges, sources, x)
      ensures x in reached
    {
      ClosedHoldsReachable(edges, sources, reached, x);
    }
  }

  lemma Shrinks(universe: set<string>, reached: set<string>, grown: set<string>, found: seq<string>)
    requires reached <= grown <= universe
    requires forall x :: x in grown <==> x in reached || x in found
    requires forall x :: x in found ==> x !in reached
    ensures if found == [] then grown == reached else |universe - grown| < |universe - reached|
  {
    if found != [] {
      var added := grown - reached;
      assert found[0] in added && universe - reached == (universe - grown) + added;
      assert |universe - reached| == |universe - grown| + |added|;
    }
  }

  /** Insert each neighbour of `node`, collecting the ones not seen before. */
  method Visit(edges: seq<Edge>, ghost sources: set<string>, reached: set<string>, node: string, neighbours: seq<string>)
      returns (grown: set<string>, found: seq<string>)
    requires forall y :: y in neighbours <==> Adjacent(edges, node, y)
    requires node in reached && reached <= Universe(edges, sources)
    requires forall x :: x in reached ==> Reachable(edges, sources, x)
    ensures reached <= grown <= Universe(edges, sources)
    ensures forall x :: x in grown <==> x in reached || x in found
    ensures forall x :: x in found ==> x !in reached
    ensures forall y :: Adjacent(edges, node, y) ==> y in grown
    ensures forall x :: x in grown ==> Reachable(edges, sources, x)
  {
    grown, found := reached, [];
    for i := 0 to |neighbours|
      invariant reached <= grown <= Universe(edges, sources)
      invariant forall x :: x in grown <==> x in reached || x in found
      invariant forall x :: x in found ==> x !in reached
      invariant forall j | 0 <= j < i :: neighbours[j] in grown
      invariant forall x :: x in grown ==> Reachable(edges, sources, x)
    {
      var next := neighbours[i];
      AdjacentInUniverse(edges, sources, node, next);
      ReachableStep(edges, sources, node, next);
      if next !in grown {
        grown, found := grown + {next}, found + [next];
      }
    }
  }

  method ConflictExposure(g: Graph, source: string, target: string) returns (out: seq<string>)
    ensures StrictlySorted(out)
    ensures forall x :: x in out <==> Exposed(g.nodes, g.edges, source, target, x)
  {
    var nodes, edges := g.nodes, g.edges;
    var start := [];
    for i := 0 to |nodes|
      invariant forall x :: x in start <==> x in Sources(nodes[..i], edges, source)
    {
      assert nodes[..i + 1] == nodes[..i] + [nodes[i]];
      if nodes[i].tag == RuleNode && NodeInRegime(edges, nodes[i].id, source) {
        start := start + [nodes[i].id];
      }
      SourcesMore(nodes[..i], nodes[i], edges, source);
    }
    assert nodes[..|nodes|] == nodes;
    var reached := Closure(edges, start);
    assert (set s | s in start) == Sources(nodes, edges, source);
    var hits := [];
    for i := 0 to |edges|
      invariant forall x :: x in hits <==> OneHop(edges[..i], edges, reached, target, x)
    {
      var e := edges[i];
      assert edges[..i + 1] == edges[..i] + [e];
      if e.tag == ConflictsWith {
        if e.from in reached && NodeInRegime(edges, e.to, target) {
          hits := hits + [e.to];
        }
        if e.to in reached && NodeInRegime(edges, e.from, target) {
          hits := hits + [e.from];
        }
      }
      OneHopMore(edges[..i], e, edges, reached, target);
    }
    assert edges[..|edges|] == edges;
    out := SortDedup(hits);
  }

  ghost predicate OneHop(some: seq<Edge>, edges: seq<Edge>, reached: set<string>, target: string, x: string) {
    NodeInRegime(edges, x, target) &&
    exists e | e in some :: e.tag == ConflictsWith && ((e.to == x && e.from in reached) || (e.from == x && e.to in reached))
  }

  lemma OneHopMore(some: seq<Edge>, e: Edge, edges: seq<Edge>, reached: set<string>, target: string)
    ensures forall x :: OneHop(some + [e], edges, reached, target, x) <==>
              OneHop(some, edges, reached, target, x) || OneHop([e], edges, reached, target, x)
  {
    var all := some + [e];
    assert e in all && forall d | d in some :: d in all;
  }

  lemma SourcesMore(nodes: seq<Node>, n: Node, edges: seq<Edge>, regime: string)
    ensures Sources(nodes + [n], edges, regime) == Sources(nodes, edges, regime) +
            (if n.tag == RuleNode && NodeInRegime(edges, n.id, regime) then {n.id} else {})
  {
    var all := nodes + [n];
    assert all[|nodes|] == n && forall i | 0 <= i < |nodes| :: all[i] == nodes[i];
  }

  // ---- blast radius ----

  predicate CitesDocument(e: Edge, document: string, article: Option<string>) {
    IsCitation(e) && e.to == document && (article.Some? ==> ("article", article.value) in e.props)
  }

  ghost predicate InBlast(edges: seq<Edge>, document: string, article: Option<string>, x: string) {
    || Citing(edges, document, article, x)
    || Holding(edges, document, article, x)
    || (exists e | e in edges :: e.tag == AttestedBy && e.to == x && Holding(edges, document, article, e.from))
  }

  ghost predicate Citing(edges: seq<Edge>, document: string, article: Option<string>, x: string) {
    exists e | e in edges :: e.from == x && CitesDocument(e, document, article)
  }

  ghost predicate Holding(edges: seq<Edge>, document: string, article: Option<string>, x: string) {
    exists e | e in edges :: e.tag == Contains && e.from == x && Citing(edges, document, article, e.to)
  }

  /** Collect `pick(e)` over the edges that `keep` selects. */
  method Collect(edges: seq<Edge>, keep: Edge -> bool, pick: Edge -> string) returns (out: seq<string>)
    ensures forall x :: x in out <==> exists e | e in edges :: keep(e) && pick(e) == x
  {
    out := [];
    for i := 0 to |edges|
      invariant forall x :: x in out <==> exists e | e in edges[..i] :: keep(e) && pick(e) == x
    {
      var e, seen := edges[i], edges[..i];
      assert edges[..i + 1] == seen + [e];
      assert e in seen + [e] && forall d | d in seen :: d in seen + [e];
      if keep(e) {
        out := out + [pick(e)];
      }
    }
    assert edges[..|edges|] == edges;
  }

  /** Everything citing the document, every artifact holding one of those, every attestation of such an artifact. */
  method BlastRadius(g: Graph, document: string, article: Option<string>) returns (out: seq<string>)
    ensures StrictlySorted(out)
    ensures forall x :: x in out <==> InBlast(g.edges, document, article, x)
  {
    var edges := g.edges;
    var citing := Collect(edges, (e: Edge) => CitesDocument(e, document, article), (e: Edge) => e.from);
    assert forall x :: x in citing <==> Citing(edges, document, article, x);
    var artifacts := Collect(edges, (e: Edge) => e.tag == Contains && e.to in citing, (e: Edge) => e.from);
    assert forall x :: x in artifacts <==> Holding(edges, document, article, x);
    var attestations := Collect(edges, (e: Edge) => e.tag == AttestedBy && e.from in artifacts, (e: Edge) => e.to);
    out := SortDedup(citing + artifacts + attestations);
  }

  // ---- projecting one artifact ----

  datatype Citation = Citation(document: string, article: Option<string>, section: Option<string>)

  datatype RuleRef = RuleRef(ruleId: string, source: Citation)

  datatype SpanEntry = SpanEntry(ruleId: string, spans: seq<Citation>)

  datatype Content =
    | RulesContent(rules: seq<RuleRef>, spanIndex: seq<SpanEntry>)
    | IntentContent(actionClass: string, criteriaCount: string, spans: seq<Citation>)

  /** What the graph reads of a decoded artifact. */
  datatype Projection = Projection(
    hex: string, kind: string, regime: string, attestations: seq<(string, string)>, content: Content)

  function Locator(c: Citation): Props {
    (if c.article.Some? then [("article", c.article.value)] else []) +
    (if c.section.Some? then [("section", c.section.value)] else [])
  }

  /** Rule ids are scoped by their artifact: the same rule id in two artifacts is two nodes. */
  function RuleNodeId(hex: string, ruleId: string): string {
    hex + ":" + ruleId
  }

  function RuleEdges(hex: string, r: RuleRef): seq<Edge> {
    [Edge(Contains, hex, RuleNodeId(hex, r.ruleId), []),
     Edge(Cites, RuleNodeId(hex, r.ruleId), r.source.document, Locator(r.source))]
  }

  function SpanEdges(from: string, spans: seq<Citation>): seq<Edge> {
    if spans == [] then []
    else SpanEdges(from, spans[..|spans| - 1]) +
         [Edge(Spans, from, spans[|spans| - 1].document, Locator(spans[|spans| - 1]))]
  }

  function RulesEdges(hex: string, rules: seq<RuleRef>): seq<Edge> {
    if rules == [] then [] else RulesEdges(hex, rules[..|rules| - 1]) + RuleEdges(hex, rules[|rules| - 1])
  }

  function IndexEdges(hex: string, index: seq<SpanEntry>): seq<Edge> {
    if index == [] then []
    else IndexEdges(hex, index[..|index| - 1]) +
         SpanEdges(RuleNodeId(hex, index[|index| - 1].ruleId), index[|index| - 1].spans)
  }

  function AttestationEdges(hex: string, n: nat): seq<Edge> {
    if n == 0 then [] else AttestationEdges(hex, n - 1) + [Edge(AttestedBy, hex, AttestationId(hex, n - 1), [])]
  }

  function AttestationId(hex: string, i: nat): string {
    hex + ":att:" + Decimals.Digits(i)
  }

  function IntentId(hex: string, action: string): string {
    hex + ":intent:" + action
  }

  function ContentEdges(hex: string, content: Content): seq<Edge> {
    match content
    case RulesContent(rules, index) => RulesEdges(hex, rules) + IndexEdges(hex, index)
    case IntentContent(action, _, spans) =>
      [Edge(Contains, hex, IntentId(hex, action), [])] + SpanEdges(IntentId(hex, action), spans)
  }

  function ProjectionEdges(p: Projection): seq<Edge> {
    [Edge(InRegime, p.hex, p.regime, [])] + AttestationEdges(p.hex, |p.attestations|) + ContentEdges(p.hex, p.content)
  }

  /** A citation edge ends in this document. */
  ghost predicate Cited(edges: seq<Edge>, document: string) {
    exists e | e in edges :: IsCitation(e) && e.to == document
  }

  lemma CitedMore(a: seq<Edge>, b: seq<Edge>)
    ensures forall d :: Cited(a + b, d) <==> Cited(a, d) || Cited(b, d)
  {
    assert forall e :: e in a + b <==> e in a || e in b;
  }

  /** The nodes grown by the documents these edges cite, and by nothing else. */
  ghost predicate GrownByDocuments(nodes: seq<Node>, grown: seq<Node>, edges: seq<Edge>) {
    forall t, id :: HasNode(grown, t, id) <==> HasNode(nodes, t, id) || (t == CorpusDocNode && Cited(edges, id))
  }

  lemma GrownTwice(a: seq<Node>, b: seq<Node>, c: seq<Node>, es: seq<Edge>, fs: seq<Edge>)
    requires GrownByDocuments(a, b, es) && GrownByDocuments(b, c, fs)
    ensures GrownByDocuments(a, c, es + fs)
  {
    CitedMore(es, fs);
  }

  /** Add a document node once per document id. */
  method PushCorpusDoc(nodes: seq<Node>, document: string) returns (r: seq<Node>)
    ensures nodes <= r
    ensures forall t, id :: HasNode(r, t, id) <==> HasNode(nodes, t, id) || (t == CorpusDocNode && id == document)
    ensures NoTwins(nodes) ==> NoTwins(r)
    ensures OnlyBareDocuments(nodes, r)
  {
    r := nodes;
    HasOneMore(nodes, Node(CorpusDocNode, document, []));
    if !HasNode(nodes, CorpusDocNode, document) {
      r := nodes + [Node(CorpusDocNode, document, [])];
    }
  }

  /** The nodes added are documents, which carry nothing. */
  ghost predicate OnlyBareDocuments(nodes: seq<Node>, grown: seq<Node>) {
    forall n | n in grown :: n in nodes || (n.tag == CorpusDocNode && n.props == [])
  }

  method PushSpans(from: string, spans: seq<Citation>, nodes: seq<Node>, edges: seq<Edge>)
      returns (ns: seq<Node>, es: seq<Edge>)
    ensures es == edges + SpanEdges(from, spans) && GrownByDocuments(nodes, ns, SpanEdges(from, spans))
    ensures OnlyBareDocuments(nodes, ns)
  {
    ns, es := nodes, edges;
    for i := 0 to |spans|
      invariant es == edges + SpanEdges(from, spans[..i]) && GrownByDocuments(nodes, ns, SpanEdges(from, spans[..i]))
      invariant OnlyBareDocuments(nodes, ns)
    {
      assert spans[..i + 1][..i] == spans[..i];
      var e := Edge(Spans, from, spans[i].document, Locator(spans[i]));
      CitedMore(SpanEdges(from, spans[..i]), [e]);
      ns := PushCorpusDoc(ns, spans[i].document);
      es := es + [e];
    }
    assert spans[..|spans|] == spans;
  }

  method PushRules(hex: string, rules: seq<RuleRef>, nodes: seq<Node>, edges: seq<Edge>)
      returns (ns: seq<Node>, es: seq<Edge>)
    ensures es == edges + RulesEdges(hex, rules)
    ensures forall t, id :: HasNode(ns, t, id) <==>
              HasNode(nodes, t, id) || (t == RuleNode && HasRule(hex, rules, id)) ||
              (t == CorpusDocNode && Cited(RulesEdges(hex, rules), id))
    ensures OnlyNamedRules(hex, rules, nodes, ns)
  {
    ns, es := nodes, edges;
    for i := 0 to |rules|
      invariant es == edges + RulesEdges(hex, rules[..i])
      invariant OnlyNamedRules(hex, rules, nodes, ns)
      invariant forall t, id :: HasNode(ns, t, id) <==>
                  HasNode(nodes, t, id) || (t == RuleNode && HasRule(hex, rules[..i], id)) ||
                  (t == CorpusDocNode && Cited(RulesEdges(hex, rules[..i]), id))
    {
      var r := rules[i];
      assert rules[..i + 1] == rules[..i] + [r] && rules[..i + 1][..i] == rules[..i];
      HasRuleMore(hex, rules[..i], r);
      RuleCites(hex, rules[..i], r);
      ns, es := PushRule(hex, r, ns, es);
    }
    assert rules[..|rules|] == rules;
  }

  method PushRule(hex: string, r: RuleRef, nodes: seq<Node>, edges: seq<Edge>) returns (ns: seq<Node>, es: seq<Edge>)
    ensures es == edges + RuleEdges(hex, r)
    ensures forall t, id :: HasNode(ns, t, id) <==>
              HasNode(nodes, t, id) || (t == RuleNode && id == RuleNodeId(hex, r.ruleId)) || (t == CorpusDocNode && id == r.source.document)
    ensures forall n | n in ns :: n in nodes || NamedRule(hex, r, n)
  {
    var rule := Node(RuleNode, RuleNodeId(hex, r.ruleId), [("rule_id", r.ruleId)]);
    HasOneMore(nodes, rule);
    ns := PushCorpusDoc(nodes + [rule], r.source.document);
    es := edges + [Edge(Contains, hex, RuleNodeId(hex, r.ruleId), [])];
    es := es + [Edge(Cites, RuleNodeId(hex, r.ruleId), r.source.document, Locator(r.source))];
  }

  /** A document, which carries nothing, or the rule, which carries its own id. */
  predicate NamedRule(hex: string, r: RuleRef, n: Node) {
    (n.tag == CorpusDocNode && n.props == []) || n == Node(RuleNode, RuleNodeId(hex, r.ruleId), [("rule_id", r.ruleId)])
  }

  /** The nodes added are documents and rules. */
  ghost predicate OnlyNamedRules(hex: string, rules: seq<RuleRef>, nodes: seq<Node>, grown: seq<Node>) {
    forall n | n in grown :: n in nodes || exists r | r in rules :: NamedRule(hex, r, n)
  }

  lemma RuleCites(hex: string, rules: seq<RuleRef>, r: RuleRef)
    ensures forall d :: Cited(RulesEdges(hex, rules + [r]), d) <==> Cited(RulesEdges(hex, rules), d) || d == r.source.document
  {
    assert (rules + [r])[..|rules|] == rules;
    CitedMore(RulesEdges(hex, rules), RuleEdges(hex, r));
    assert RuleEdges(hex, r)[1] in RuleEdges(hex, r);
  }

  ghost predicate HasRule(hex: string, rules: seq<RuleRef>, id: string) {
    exists r | r in rules :: RuleNodeId(hex, r.ruleId) == id
  }

  lemma HasRuleMore(hex: string, rules: seq<RuleRef>, r: RuleRef)
    ensures forall id :: HasRule(hex, rules + [r], id) <==> HasRule(hex, rules, id) || id == RuleNodeId(hex, r.ruleId)
  {
    assert r in rules + [r] && forall x | x in rules :: x in rules + [r];
  }

  method PushIndex(hex: string, index: seq<SpanEntry>, nodes: seq<Node>, edges: seq<Edge>)
      returns (ns: seq<Node>, es: seq<Edge>)
    ensures es == edges + IndexEdges(hex, index) && GrownByDocuments(nodes, ns, IndexEdges(hex, index))
    ensures OnlyBareDocuments(nodes, ns)
  {
    ns, es := nodes, edges;
    for i := 0 to |index|
      invariant es == edges + IndexEdges(hex, index[..i]) && GrownByDocuments(nodes, ns, IndexEdges(hex, index[..i]))
      invariant OnlyBareDocuments(nodes, ns)
    {
      assert index[..i + 1][..i] == index[..i];
      var from := RuleNodeId(hex, index[i].ruleId);
      ghost var before := ns;
      ns, es := PushSpans(from, index[i].spans, ns, es);
      GrownTwice(nodes, before, ns, IndexEdges(hex, index[..i]), SpanEdges(from, index[i].spans));
    }
    assert index[..|index|] == index;
  }

  ghost predicate IsAttestation(p: Projection, id: string) {
    exists i | 0 <= i < |p.attestations| :: AttestationId(p.hex, i) == id
  }

  /** The nodes of a projection: its artifact, regime, attestations, rules or intent, and every document an edge cites. */
  ghost predicate Projected(p: Projection, t: NodeLabel, id: string) {
    match t
    case ArtifactNode => id == p.hex
    case RegimeNode => id == p.regime
    case AttestationNode => IsAttestation(p, id)
    case RuleNode => p.content.RulesContent? && HasRule(p.hex, p.content.rules, id)
    case IntentNode => p.content.IntentContent? && id == IntentId(p.hex, p.content.actionClass)
    case CorpusDocNode => Cited(ProjectionEdges(p), id)
  }

  /** What a node of the projection carries. */
  ghost predicate Told(p: Projection, n: Node) {
    match n.tag
    case ArtifactNode => n.props == [("kind", p.kind), ("regime_id", p.regime)]
    case AttestationNode =>
      exists i | 0 <= i < |p.attestations| ::
        n == Node(AttestationNode, AttestationId(p.hex, i), [("type", p.attestations[i].0), ("signer_key_id", p.attestations[i].1)])
    case RuleNode =>
      p.content.RulesContent? &&
      exists r | r in p.content.rules :: NamedRule(p.hex, r, n)
    case IntentNode =>
      p.content.IntentContent? && n.props == [("action_class", p.content.actionClass), ("criteria_count", p.content.criteriaCount)]
    case _ => n.props == []
  }

  /** The projection: its edges in extraction order, and a node for exactly what it is made of. */
  method ExtractGraph(p: Projection) returns (nodes: seq<Node>, edges: seq<Edge>)
    ensures edges == ProjectionEdges(p)
    ensures forall t, id :: HasNode(nodes, t, id) <==> Projected(p, t, id)
    ensures forall n | n in nodes :: Told(p, n)
  {
    nodes, edges := ExtractFrame(p);
    CitationsAreContent(p);
    match p.content {
      case RulesContent(rules, index) =>
        nodes, edges := PushRules(p.hex, rules, nodes, edges);
        nodes, edges := PushIndex(p.hex, index, nodes, edges);
        CitedMore(RulesEdges(p.hex, rules), IndexEdges(p.hex, index));
      case IntentContent(action, count, spans) =>
        nodes, edges := PushIntent(p.hex, action, count, spans, nodes, edges);
    }
  }

  method PushIntent(hex: string, action: string, count: string, spans: seq<Citation>, nodes: seq<Node>, edges: seq<Edge>)
      returns (ns: seq<Node>, es: seq<Edge>)
    ensures es == edges + ContentEdges(hex, IntentContent(action, count, spans))
    ensures forall t, id :: HasNode(ns, t, id) <==>
              HasNode(nodes, t, id) || (t == IntentNode && id == IntentId(hex, action)) ||
              (t == CorpusDocNode && Cited(ContentEdges(hex, IntentContent(action, count, spans)), id))
    ensures forall n | n in ns ::
              n in nodes || (n.tag == CorpusDocNode && n.props == []) ||
              n == Node(IntentNode, IntentId(hex, action), [("action_class", action), ("criteria_count", count)])
  {
    var intent := Node(IntentNode, IntentId(hex, action), [("action_class", action), ("criteria_count", count)]);
    HasOneMore(nodes, intent);
    IntentCites(hex, action, count, spans, edges);
    ns, es := PushSpans(intent.id, spans, nodes + [intent], edges + [Edge(Contains, hex, intent.id, [])]);
  }

  lemma IntentCites(hex: string, action: string, count: string, spans: seq<Citation>, edges: seq<Edge>)
    ensures edges + [Edge(Contains, hex, IntentId(hex, action), [])] + SpanEdges(IntentId(hex, action), spans) ==
            edges + ContentEdges(hex, IntentContent(action, count, spans))
    ensures forall d :: Cited(ContentEdges(hex, IntentContent(action, count, spans)), d) <==> Cited(SpanEdges(IntentId(hex, action), spans), d)
  {
    CitedMore([Edge(Contains, hex, IntentId(hex, action), [])], SpanEdges(IntentId(hex, action), spans));
  }

  /** What every projection opens with, whatever its content. */
  method ExtractFrame(p: Projection) returns (nodes: seq<Node>, edges: seq<Edge>)
    ensures edges == [Edge(InRegime, p.hex, p.regime, [])] + AttestationEdges(p.hex, |p.attestations|)
    ensures forall t, id :: HasNode(nodes, t, id) <==>
              (t == ArtifactNode && id == p.hex) || (t == RegimeNode && id == p.regime) || (t == AttestationNode && IsAttestation(p, id))
    ensures forall n | n in nodes :: Told(p, n)
  {
    var (artifact, regime) := (Node(ArtifactNode, p.hex, [("kind", p.kind), ("regime_id", p.regime)]), Node(RegimeNode, p.regime, []));
    nodes := [artifact, regime];
    HasOneMore([], artifact);
    HasOneMore([artifact], regime);
    assert [] + [artifact] == [artifact] && [artifact] + [regime] == nodes;
    edges := [Edge(InRegime, p.hex, p.regime, [])];
    for i := 0 to |p.attestations|
      invariant edges == [Edge(InRegime, p.hex, p.regime, [])] + AttestationEdges(p.hex, i)
      invariant forall n | n in nodes :: Told(p, n)
      invariant forall t, id :: HasNode(nodes, t, id) <==>
                  (t == ArtifactNode && id == p.hex) || (t == RegimeNode && id == p.regime) ||
                  (t == AttestationNode && exists j | 0 <= j < i :: AttestationId(p.hex, j) == id)
    {
      var att := p.attestations[i];
      var node := Node(AttestationNode, AttestationId(p.hex, i), [("type", att.0), ("signer_key_id", att.1)]);
      HasOneMore(nodes, node);
      nodes := nodes + [node];
      edges := edges + [Edge(AttestedBy, p.hex, AttestationId(p.hex, i), [])];
    }
  }

  lemma CitationsAreContent(p: Projection)
    ensures forall d :: Cited(ProjectionEdges(p), d) <==> Cited(ContentEdges(p.hex, p.content), d)
  {
    var frame := [Edge(InRegime, p.hex, p.regime, [])] + AttestationEdges(p.hex, |p.attestations|);
    AttestationEdgesAttest(p.hex, |p.attestations|);
    CitedMore(frame, ContentEdges(p.hex, p.content));
  }

  // ---- conflicts stay inside one artifact ----

  /** A conflict T4 reports between two of an artifact's own rules. */
  datatype RuleConflict = RuleConflict(first: string, second: string, kind: string, severity: string)

  function ConflictEdge(hex: string, c: RuleConflict): Edge {
    var (a, b) := if StrLess(c.second, c.first) then (c.second, c.first) else (c.first, c.second);
    Edge(ConflictsWith, RuleNodeId(hex, a), RuleNodeId(hex, b), [("class", c.kind), ("severity", c.severity)])
  }

  function ConflictEdges(hex: string, conflicts: seq<RuleConflict>): seq<Edge> {
    seq(|conflicts|, i requires 0 <= i < |conflicts| => ConflictEdge(hex, conflicts[i]))
  }

  /** An exported artifact: its projection and the conflicts recomputed over its rules. */
  datatype Export = Export(projection: Projection, conflicts: seq<RuleConflict>) {
    ghost predicate Valid() {
      && |projection.hex| == 64
      && (conflicts != [] ==> projection.content.RulesContent?)
      && forall i | 0 <= i < |conflicts| ::
           HasRule(projection.hex, projection.content.rules, RuleNodeId(projection.hex, conflicts[i].first)) &&
           HasRule(projection.hex, projection.content.rules, RuleNodeId(projection.hex, conflicts[i].second))
    }

    function Edges(): seq<Edge> {
      ProjectionEdges(projection) + ConflictEdges(projection.hex, conflicts)
    }
  }

  /** The edge set of the merged graph: exactly the edges of the exported artifacts. */
  ghost predicate MergedFrom(edges: seq<Edge>, exports: seq<Export>) {
    forall e :: e in edges <==> exists x | x in exports :: e in x.Edges()
  }

  /** The export: each artifact's projection and conflicts, merged into one graph. */
  method MergeExports(exports: seq<Export>) returns (g: Graph)
    ensures fresh(g) && MergedFrom(g.edges, exports) && NoTwins(g.nodes) && NoRepeats(g.edges)
    ensures forall t, id :: HasNode(g.nodes, t, id) <==> exists x | x in exports :: Projected(x.projection, t, id)
  {
    g := new Graph();
    for i := 0 to |exports|
      invariant MergedFrom(g.edges, exports[..i]) && NoTwins(g.nodes) && NoRepeats(g.edges)
      invariant forall t, id :: HasNode(g.nodes, t, id) <==> exists x | x in exports[..i] :: Projected(x.projection, t, id)
      modifies g
    {
      var x, done := exports[i], exports[..i];
      assert exports[..i + 1] == done + [x] && x in done + [x] && forall y | y in done :: y in done + [x];
      var nodes, edges := ExtractGraph(x.projection);
      g.Merge(nodes, edges + ConflictEdges(x.projection.hex, x.conflicts));
    }
    assert exports[..|exports|] == exports;
  }

  ghost predicate DistinctArtifacts(exports: seq<Export>) {
    && (forall x | x in exports :: x.Valid())
    && (forall x, y | x in exports && y in exports && x.projection.hex == y.projection.hex :: x == y)
  }

  /** What an edge of one artifact's export looks like. */
  ghost predicate Scoped(e: Edge, x: Export) {
    var hex := x.projection.hex;
    match e.tag
    case InRegime => e.from == hex && e.to == x.projection.regime
    case Contains => e.from == hex && |e.to| > 64 && e.to[..64] == hex
    case ConflictsWith =>
      |e.from| > 64 && e.from[..64] == hex && |e.to| > 64 && e.to[..64] == hex &&
      HeldBy(x, e.from) && HeldBy(x, e.to)
    case _ => true
  }

  ghost predicate HeldBy(x: Export, id: string) {
    exists e | e in x.Edges() :: e.tag == Contains && e.to == id
  }

  lemma {:induction false} SpanEdgesSpan(from: string, spans: seq<Citation>)
    ensures forall e | e in SpanEdges(from, spans) :: e.tag == Spans
  {
    if spans != [] {
      SpanEdgesSpan(from, spans[..|spans| - 1]);
    }
  }

  lemma {:induction false} IndexEdgesSpan(hex: string, index: seq<SpanEntry>)
    ensures forall e | e in IndexEdges(hex, index) :: e.tag == Spans
  {
    if index != [] {
      IndexEdgesSpan(hex, index[..|index| - 1]);
      SpanEdgesSpan(RuleNodeId(hex, index[|index| - 1].ruleId), index[|index| - 1].spans);
    }
  }

  lemma {:induction false} AttestationEdgesAttest(hex: string, n: nat)
    ensures forall e | e in AttestationEdges(hex, n) :: e.tag == AttestedBy
  {
    if n > 0 {
      AttestationEdgesAttest(hex, n - 1);
    }
  }

  lemma {:induction false} RulesEdgesHold(hex: string, rules: seq<RuleRef>)
    requires |hex| == 64
    ensures forall e | e in RulesEdges(hex, rules) ::
              e.tag == Cites || (e.tag == Contains && e.from == hex && |e.to| > 64 && e.to[..64] == hex)
    ensures forall id | HasRule(hex, rules, id) :: Edge(Contains, hex, id, []) in RulesEdges(hex, rules)
  {
    if rules != [] {
      var init, r := rules[..|rules| - 1], rules[|rules| - 1];
      RulesEdgesHold(hex, init);
      HasRuleMore(hex, init, r);
      assert rules == init + [r];
      assert RuleNodeId(hex, r.ruleId)[..64] == hex;
      assert RuleEdges(hex, r)[0] in RuleEdges(hex, r);
    }
  }

  lemma EdgesAreScoped(x: Export)
    requires x.Valid()
    ensures forall e | e in x.Edges() :: Scoped(e, x)
  {
    var p := x.projection;
    AttestationEdgesAttest(p.hex, |p.attestations|);
    match p.content {
      case RulesContent(rules, index) =>
        RulesEdgesHold(p.hex, rules);
        IndexEdgesSpan(p.hex, index);
        forall i | 0 <= i < |x.conflicts|
          ensures Scoped(ConflictEdge(p.hex, x.conflicts[i]), x)
        {
          ConflictScoped(x, x.conflicts[i]);
        }
      case IntentContent(action, _, spans) =>
        SpanEdgesSpan(IntentId(p.hex, action), spans);
        assert IntentId(p.hex, action)[..64] == p.hex;
    }
  }

  lemma ConflictScoped(x: Export, c: RuleConflict)
    requires x.Valid() && c in x.conflicts
    ensures Scoped(ConflictEdge(x.projection.hex, c), x)
  {
    var hex, rules := x.projection.hex, x.projection.content.rules;
    RulesEdgesHold(hex, rules);
    forall id | id in {c.first, c.second}
      ensures HeldBy(x, RuleNodeId(hex, id)) && RuleNodeId(hex, id)[..64] == hex
    {
      assert HasRule(hex, rules, RuleNodeId(hex, id));
      assert Edge(Contains, hex, RuleNodeId(hex, id), []) in x.Edges();
    }
  }

  lemma {:induction false} ArtifactOfFrom(edges: seq<Edge>, node: string)
    ensures node in ArtifactOf(edges) <==> exists e | e in edges :: e.tag == Contains && e.to == node
    ensures node in ArtifactOf(edges) ==> Edgewise(edges, Contains, ArtifactOf(edges)[node], node)
  {
    if edges != [] {
      var init, e := edges[..|edges| - 1], edges[|edges| - 1];
      ArtifactOfFrom(init, node);
      assert edges == init + [e] && e in edges && forall d | d in init :: d in edges;
    }
  }

  lemma {:induction false} RegimeOfFrom(edges: seq<Edge>, hex: string)
    ensures hex in RegimeOf(edges) <==> exists e | e in edges :: e.tag == InRegime && e.from == hex
    ensures hex in RegimeOf(edges) ==> Edgewise(edges, InRegime, hex, RegimeOf(edges)[hex])
  {
    if edges != [] {
      var init, e := edges[..|edges| - 1], edges[|edges| - 1];
      RegimeOfFrom(init, hex);
      assert edges == init + [e] && e in edges && forall d | d in init :: d in edges;
    }
  }

  ghost predicate Edgewise(edges: seq<Edge>, tag: EdgeLabel, from: string, to: string) {
    exists e | e in edges :: e.tag == tag && e.from == from && e.to == to
  }

  /** In a merged graph a held node's regime is its own artifact's. */
  lemma HeldNodeRegime(edges: seq<Edge>, exports: seq<Export>, x: Export, node: string, regime: string)
    requires DistinctArtifacts(exports) && MergedFrom(edges, exports) && x in exports
    requires HeldBy(x, node) && |node| > 64 && node[..64] == x.projection.hex
    ensures NodeInRegime(edges, node, regime) <==> regime == x.projection.regime
  {
    HeldNodeArtifact(edges, exports, x, node);
    HeldArtifactRegime(edges, exports, x);
  }

  lemma HeldNodeArtifact(edges: seq<Edge>, exports: seq<Export>, x: Export, node: string)
    requires DistinctArtifacts(exports) && MergedFrom(edges, exports) && x in exports
    requires HeldBy(x, node) && |node| > 64 && node[..64] == x.projection.hex
    ensures node in ArtifactOf(edges) && ArtifactOf(edges)[node] == x.projection.hex
  {
    ArtifactOfFrom(edges, node);
    var held :| held in x.Edges() && held.tag == Contains && held.to == node;
    assert held in edges;
    var c :| c in edges && c.tag == Contains && c.from == ArtifactOf(edges)[node] && c.to == node;
    var y :| y in exports && c in y.Edges();
    EdgesAreScoped(y);
  }

  lemma HeldArtifactRegime(edges: seq<Edge>, exports: seq<Export>, x: Export)
    requires DistinctArtifacts(exports) && MergedFrom(edges, exports) && x in exports
    ensures var hex := x.projection.hex; hex in RegimeOf(edges) && RegimeOf(edges)[hex] == x.projection.regime
  {
    var hex := x.projection.hex;
    RegimeOfFrom(edges, hex);
    assert ProjectionEdges(x.projection)[0] in x.Edges();
    assert Edge(InRegime, hex, x.projection.regime, []) in edges;
    var r :| r in edges && r.tag == InRegime && r.from == hex && r.to == RegimeOf(edges)[hex];
    var z :| z in exports && r in z.Edges();
    EdgesAreScoped(z);
  }

  /** Both ends of a conflict edge lie in one artifact, hence in the same regime. */
  lemma ConflictPartnersShareRegime(edges: seq<Edge>, exports: seq<Export>, e: Edge, regime: string)
    requires DistinctArtifacts(exports) && MergedFrom(edges, exports)
    requires e in edges && e.tag == ConflictsWith
    ensures |e.from| > 64 && |e.to| > 64 && e.from[..64] == e.to[..64] && e.from[..64] in ArtifactIds(exports)
    ensures NodeInRegime(edges, e.from, regime) <==> NodeInRegime(edges, e.to, regime)
  {
    var x :| x in exports && e in x.Edges();
    EdgesAreScoped(x);
    HeldNodeRegime(edges, exports, x, e.from, regime);
    HeldNodeRegime(edges, exports, x, e.to, regime);
  }

  function ArtifactIds(exports: seq<Export>): set<string> {
    set x | x in exports :: x.projection.hex
  }

  /** The reached end of the conflict edge that exposes a node. */
  lemma ExposedThrough(nodes: seq<Node>, edges: seq<Edge>, source: string, target: string, x: string) returns (e: Edge, partner: string)
    requires Exposed(nodes, edges, source, target, x)
    ensures e in edges && e.tag == ConflictsWith && ((e.to == x && partner == e.from) || (e.from == x && partner == e.to))
    ensures Reachable(edges, Sources(nodes, edges, source), partner) && NodeInRegime(edges, x, target)
  {
    e :| e in edges && e.tag == ConflictsWith &&
         ((e.to == x && Reachable(edges, Sources(nodes, edges, source), e.from)) ||
          (e.from == x && Reachable(edges, Sources(nodes, edges, source), e.to)));
    partner := if e.to == x && Reachable(edges, Sources(nodes, edges, source), e.from) then e.from else e.to;
  }

  /** So an exposed rule is always reached through a partner of its own artifact and regime that the source's citations reach. */
  lemma ExposureNeedsReachedPartner(nodes: seq<Node>, edges: seq<Edge>, exports: seq<Export>, source: string, target: string, x: string)
    returns (partner: string)
    requires DistinctArtifacts(exports) && MergedFrom(edges, exports)
    requires Exposed(nodes, edges, source, target, x)
    ensures Reachable(edges, Sources(nodes, edges, source), partner) && NodeInRegime(edges, partner, target)
    ensures |partner| > 64 && |x| > 64 && partner[..64] == x[..64]
  {
    var e;
    e, partner := ExposedThrough(nodes, edges, source, target, x);
    ConflictPartnersShareRegime(edges, exports, e, target);
  }
}
