/** The two oracles of a merged graph, said of the exported artifacts themselves: who cites what, where, and who is affected. */
module Oracles {
  import opened Wrappers
  import opened Strings
  import opened Graphs
  import Decimals

  // ---- the edges of a projection ----

  /** Where in a document, as an edge carries it. */
  function Place(c: Citation): Props {
    match (c.article, c.section)
    case (None, None) => []
    case (Some(a), None) => [("article", a)]
    case (None, Some(s)) => [("section", s)]
    case (Some(a), Some(s)) => [("article", a), ("section", s)]
  }

  ghost predicate Spanned(from: string, spans: seq<Citation>, e: Edge) {
    exists c | c in spans :: e == Edge(Spans, from, c.document, Place(c))
  }

  ghost predicate RuleEdge(hex: string, r: RuleRef, e: Edge) {
    e == Edge(Contains, hex, hex + ":" + r.ruleId, []) || e == Edge(Cites, hex + ":" + r.ruleId, r.source.document, Place(r.source))
  }

  ghost predicate ContentEdge(hex: string, content: Content, e: Edge) {
    match content
    case RulesContent(rules, index) =>
      (exists r | r in rules :: RuleEdge(hex, r, e)) || (exists s | s in index :: Spanned(hex + ":" + s.ruleId, s.spans, e))
    case IntentContent(action, _, spans) =>
      e == Edge(Contains, hex, hex + ":intent:" + action, []) || Spanned(hex + ":intent:" + action, spans, e)
  }

  ghost predicate Attests(p: Projection, id: string) {
    exists i: nat | i < |p.attestations| :: NumberedAttestation(p.hex, i, id)
  }

  predicate NumberedAttestation(hex: string, i: nat, id: string) {
    id == hex + ":att:" + Decimals.Digits(i)
  }

  lemma PlaceIsLocator(c: Citation)
    ensures Locator(c) == Place(c)
  {
  }

  lemma {:induction false} SpanEdgesHas(from: string, spans: seq<Citation>, e: Edge)
    ensures e in SpanEdges(from, spans) <==> Spanned(from, spans, e)
  {
    if spans != [] {
      var (init, last) := (spans[..|spans| - 1], spans[|spans| - 1]);
      SpanEdgesHas(from, init, e);
      PlaceIsLocator(last);
      assert spans == init + [last];
    }
  }

  lemma {:induction false} IndexEdgesHas(hex: string, index: seq<SpanEntry>, e: Edge)
    ensures e in IndexEdges(hex, index) <==> exists s | s in index :: Spanned(hex + ":" + s.ruleId, s.spans, e)
  {
    if index != [] {
      var (init, last) := (index[..|index| - 1], index[|index| - 1]);
      IndexEdgesHas(hex, init, e);
      SpanEdgesHas(RuleNodeId(hex, last.ruleId), last.spans, e);
      assert index == init + [last];
    }
  }

  lemma {:induction false} RulesEdgesHas(hex: string, rules: seq<RuleRef>, e: Edge)
    ensures e in RulesEdges(hex, rules) <==> exists r | r in rules :: RuleEdge(hex, r, e)
  {
    if rules != [] {
      var (init, last) := (rules[..|rules| - 1], rules[|rules| - 1]);
      RulesEdgesHas(hex, init, e);
      RuleEdgesAre(hex, last, e);
      assert rules == init + [last];
    }
  }

  lemma RuleEdgesAre(hex: string, r: RuleRef, e: Edge)
    ensures e in RuleEdges(hex, r) <==> RuleEdge(hex, r, e)
  {
    PlaceIsLocator(r.source);
  }

  lemma {:induction false} AttestationEdgesHas(hex: string, n: nat, e: Edge)
    ensures e in AttestationEdges(hex, n) <==>
            e.tag == AttestedBy && e.from == hex && e.props == [] && exists i: nat | i < n :: NumberedAttestation(hex, i, e.to)
  {
    if n > 0 {
      AttestationEdgesHas(hex, n - 1, e);
      assert AttestationId(hex, n - 1) == hex + ":att:" + Decimals.Digits(n - 1);
      assert NumberedAttestation(hex, n - 1, e.to) <==> e.to == AttestationId(hex, n - 1);
    }
  }

  lemma ContentEdgesHas(hex: string, content: Content, e: Edge)
    ensures e in ContentEdges(hex, content) <==> ContentEdge(hex, content, e)
  {
    match content {
      case RulesContent(rules, index) =>
        RulesEdgesHas(hex, rules, e);
        IndexEdgesHas(hex, index, e);
      case IntentContent(action, _, spans) =>
        SpanEdgesHas(IntentId(hex, action), spans, e);
    }
  }

  /** Each edge of a projection, by what it says: the regime, an attestation, a rule or intent held, a document cited or spanned and where. */
  lemma ProjectionEdgesExactly(p: Projection, e: Edge)
    ensures e in ProjectionEdges(p) <==>
            e == Edge(InRegime, p.hex, p.regime, []) ||
            (e.tag == AttestedBy && e.from == p.hex && e.props == [] && Attests(p, e.to)) ||
            ContentEdge(p.hex, p.content, e)
  {
    AttestationEdgesHas(p.hex, |p.attestations|, e);
    ContentEdgesHas(p.hex, p.content, e);
  }

  // ---- who cites what ----

  /** The citation is of this document, and of this article of it when one is asked for. */
  predicate Names(c: Citation, document: string, article: Option<string>) {
    c.document == document && (article.Some? ==> c.article == article)
  }

  /** A rule of the artifact by its source or a span of it, or its intent by a span, cites the document there. */
  ghost predicate CitesIt(p: Projection, id: string, document: string, article: Option<string>) {
    match p.content
    case RulesContent(rules, index) =>
      (exists r | r in rules :: id == p.hex + ":" + r.ruleId && Names(r.source, document, article)) ||
      (exists s | s in index :: id == p.hex + ":" + s.ruleId && exists c | c in s.spans :: Names(c, document, article))
    case IntentContent(action, _, spans) =>
      id == p.hex + ":intent:" + action && exists c | c in spans :: Names(c, document, article)
  }

  /** A rule of the artifact, or its intent. */
  ghost predicate Holds(p: Projection, id: string) {
    match p.content
    case RulesContent(rules, _) => exists r | r in rules :: id == p.hex + ":" + r.ruleId
    case IntentContent(action, _, _) => id == p.hex + ":intent:" + action
  }

  lemma NamesByPlace(tag: EdgeLabel, from: string, c: Citation, document: string, article: Option<string>)
    requires tag == Cites || tag == Spans
    ensures CitesDocument(Edge(tag, from, c.document, Place(c)), document, article) <==> Names(c, document, article)
  {
  }

  lemma SpansCite(from: string, spans: seq<Citation>, document: string, article: Option<string>)
    ensures (exists e | Spanned(from, spans, e) :: CitesDocument(e, document, article)) <==> exists c | c in spans :: Names(c, document, article)
  {
    if e :| Spanned(from, spans, e) && CitesDocument(e, document, article) {
      var c :| c in spans && e == Edge(Spans, from, c.document, Place(c));
      NamesByPlace(Spans, from, c, document, article);
    }
    if c :| c in spans && Names(c, document, article) {
      NamesByPlace(Spans, from, c, document, article);
      assert Spanned(from, spans, Edge(Spans, from, c.document, Place(c)));
    }
  }

  lemma CitesItExactly(p: Projection, id: string, document: string, article: Option<string>)
    ensures CitesIt(p, id, document, article) <==>
            exists e | e in ProjectionEdges(p) :: e.from == id && CitesDocument(e, document, article)
  {
    if e :| e in ProjectionEdges(p) && e.from == id && CitesDocument(e, document, article) {
      ProjectionEdgesExactly(p, e);
      EdgeCites(p, e, document, article);
    }
    if CitesIt(p, id, document, article) {
      var e := CitingEdge(p, id, document, article);
      ProjectionEdgesExactly(p, e);
    }
  }

  lemma EdgeCites(p: Projection, e: Edge, document: string, article: Option<string>)
    requires ContentEdge(p.hex, p.content, e) && CitesDocument(e, document, article)
    ensures CitesIt(p, e.from, document, article)
  {
    match p.content {
      case RulesContent(rules, index) =>
        if r :| r in rules && RuleEdge(p.hex, r, e) {
          NamesByPlace(Cites, e.from, r.source, document, article);
        } else {
          var s :| s in index && Spanned(p.hex + ":" + s.ruleId, s.spans, e);
          SpansCite(p.hex + ":" + s.ruleId, s.spans, document, article);
        }
      case IntentContent(action, _, spans) =>
        SpansCite(p.hex + ":intent:" + action, spans, document, article);
    }
  }

  lemma CitingEdge(p: Projection, id: string, document: string, article: Option<string>) returns (e: Edge)
    requires CitesIt(p, id, document, article)
    ensures ContentEdge(p.hex, p.content, e) && e.from == id && CitesDocument(e, document, article)
  {
    match p.content {
      case RulesContent(rules, index) =>
        if r :| r in rules && id == p.hex + ":" + r.ruleId && Names(r.source, document, article) {
          e := Edge(Cites, id, r.source.document, Place(r.source));
          NamesByPlace(Cites, id, r.source, document, article);
          assert RuleEdge(p.hex, r, e);
        } else {
          var s :| s in index && id == p.hex + ":" + s.ruleId && exists c | c in s.spans :: Names(c, document, article);
          var c :| c in s.spans && Names(c, document, article);
          e := Edge(Spans, id, c.document, Place(c));
          NamesByPlace(Spans, id, c, document, article);
          assert Spanned(p.hex + ":" + s.ruleId, s.spans, e);
        }
      case IntentContent(action, _, spans) =>
        var c :| c in spans && Names(c, document, article);
        e := Edge(Spans, id, c.document, Place(c));
        NamesByPlace(Spans, id, c, document, article);
    }
  }

  // ---- the blast radius ----

  /** Something the artifact holds cites the document there. */
  ghost predicate Affected(p: Projection, document: string, article: Option<string>) {
    exists id | CitesIt(p, id, document, article) :: Holds(p, id)
  }

  lemma CitedOpensWithAddress(p: Projection, id: string)
    requires |p.hex| == 64
    ensures Holds(p, id) ==> |id| > 64 && id[..64] == p.hex
    ensures forall d, a :: CitesIt(p, id, d, a) ==> |id| > 64 && id[..64] == p.hex
  {
  }

  lemma OneArtifact(exports: seq<Export>, x: Export, y: Export)
    requires DistinctArtifacts(exports) && x in exports && y in exports && x.projection.hex == y.projection.hex
    ensures x == y
  {
  }

  lemma ConflictsDoNotCite(x: Export, e: Edge)
    ensures e in ConflictEdges(x.projection.hex, x.conflicts) ==> e.tag == ConflictsWith
  {
  }

  lemma CitingExactly(exports: seq<Export>, edges: seq<Edge>, document: string, article: Option<string>, id: string)
    requires MergedFrom(edges, exports)
    ensures Citing(edges, document, article, id) <==> exists x | x in exports :: CitesIt(x.projection, id, document, article)
  {
    if e :| e in edges && e.from == id && CitesDocument(e, document, article) {
      var x :| x in exports && e in x.Edges();
      ConflictsDoNotCite(x, e);
      CitesItExactly(x.projection, id, document, article);
    }
    if x :| x in exports && CitesIt(x.projection, id, document, article) {
      CitesItExactly(x.projection, id, document, article);
      var e :| e in ProjectionEdges(x.projection) && e.from == id && CitesDocument(e, document, article);
      assert e in x.Edges() && e in edges;
    }
  }

  lemma HoldsExactly(x: Export, e: Edge)
    requires e.tag == Contains
    ensures e in x.Edges() <==> e.from == x.projection.hex && e.props == [] && Holds(x.projection, e.to)
  {
    ConflictsDoNotCite(x, e);
    ProjectionEdgesExactly(x.projection, e);
  }

  lemma HoldingExactly(exports: seq<Export>, edges: seq<Edge>, document: string, article: Option<string>, id: string)
    requires DistinctArtifacts(exports) && MergedFrom(edges, exports)
    ensures Holding(edges, document, article, id) <==> exists x | x in exports :: id == x.projection.hex && Affected(x.projection, document, article)
  {
    if e :| e in edges && e.tag == Contains && e.from == id && Citing(edges, document, article, e.to) {
      var x :| x in exports && e in x.Edges();
      HoldsExactly(x, e);
      CitingExactly(exports, edges, document, article, e.to);
      var y :| y in exports && CitesIt(y.projection, e.to, document, article);
      CitedOpensWithAddress(x.projection, e.to);
      CitedOpensWithAddress(y.projection, e.to);
      OneArtifact(exports, x, y);
    }
    if x :| x in exports && id == x.projection.hex && Affected(x.projection, document, article) {
      var held :| Holds(x.projection, held) && CitesIt(x.projection, held, document, article);
      CitingExactly(exports, edges, document, article, held);
      var e := Edge(Contains, id, held, []);
      HoldsExactly(x, e);
      assert e in edges;
    }
  }

  lemma AttestsExactly(x: Export, e: Edge)
    requires e.tag == AttestedBy
    ensures e in x.Edges() <==> e.from == x.projection.hex && e.props == [] && Attests(x.projection, e.to)
  {
    ConflictsDoNotCite(x, e);
    ProjectionEdgesExactly(x.projection, e);
  }

  /**
   Amending a document, or one article of it, affects what cites it there, each artifact that holds something that does, and
   that artifact's attestations; nothing else.
   */
  lemma BlastExactly(exports: seq<Export>, edges: seq<Edge>, document: string, article: Option<string>, id: string)
    requires DistinctArtifacts(exports) && MergedFrom(edges, exports)
    ensures InBlast(edges, document, article, id) <==>
            exists x | x in exports ::
              CitesIt(x.projection, id, document, article) ||
              (Affected(x.projection, document, article) && (id == x.projection.hex || Attests(x.projection, id)))
  {
    CitingExactly(exports, edges, document, article, id);
    HoldingExactly(exports, edges, document, article, id);
    AttestedExactly(exports, edges, document, article, id);
  }

  lemma AttestedExactly(exports: seq<Export>, edges: seq<Edge>, document: string, article: Option<string>, id: string)
    requires DistinctArtifacts(exports) && MergedFrom(edges, exports)
    ensures (exists e | e in edges :: e.tag == AttestedBy && e.to == id && Holding(edges, document, article, e.from)) <==>
            exists x | x in exports :: Affected(x.projection, document, article) && Attests(x.projection, id)
  {
    if e :| e in edges && e.tag == AttestedBy && e.to == id && Holding(edges, document, article, e.from) {
      HoldingExactly(exports, edges, document, article, e.from);
      var x :| x in exports && e in x.Edges();
      AttestsExactly(x, e);
      var y :| y in exports && e.from == y.projection.hex && Affected(y.projection, document, article);
      OneArtifact(exports, x, y);
    }
    if x :| x in exports && Affected(x.projection, document, article) && Attests(x.projection, id) {
      HoldingExactly(exports, edges, document, article, x.projection.hex);
      var e := Edge(AttestedBy, x.projection.hex, id, []);
      AttestsExactly(x, e);
      assert e in edges;
    }
  }

  // ---- the citation closure ----

  /** One of the two is a rule or intent that cites the other. */
  ghost predicate Linked(exports: seq<Export>, a: string, b: string) {
    exists x | x in exports :: CitesIt(x.projection, a, b, None) || CitesIt(x.projection, b, a, None)
  }

  lemma AdjacentExactly(exports: seq<Export>, edges: seq<Edge>, a: string, b: string)
    requires MergedFrom(edges, exports)
    ensures Adjacent(edges, a, b) <==> Linked(exports, a, b)
  {
    CitingExactly(exports, edges, b, None, a);
    CitingExactly(exports, edges, a, None, b);
    AdjacentCites(edges, a, b);
  }

  lemma AdjacentCites(edges: seq<Edge>, a: string, b: string)
    ensures Adjacent(edges, a, b) <==> Citing(edges, b, None, a) || Citing(edges, a, None, b)
  {
    if e :| e in edges && IsCitation(e) && ((e.from == a && e.to == b) || (e.from == b && e.to == a)) {
      assert CitesDocument(e, e.to, None);
    }
    if e :| e in edges && e.from == a && CitesDocument(e, b, None) {
      assert IsCitation(e) && e.to == b;
    }
    if e :| e in edges && e.from == b && CitesDocument(e, a, None) {
      assert IsCitation(e) && e.to == a;
    }
  }

  /** A chain of citations, each followed from either end. */
  ghost predicate Chain(exports: seq<Export>, walk: seq<string>) {
    walk != [] && forall i | 0 <= i < |walk| - 1 :: Linked(exports, walk[i], walk[i + 1])
  }

  ghost predicate Connected(exports: seq<Export>, sources: set<string>, id: string) {
    exists walk :: Chain(exports, walk) && walk[0] in sources && walk[|walk| - 1] == id
  }

  /** What the closure reaches is what a chain of the artifacts' own citations connects to its sources. */
  lemma ReachableExactly(exports: seq<Export>, edges: seq<Edge>, sources: set<string>, id: string)
    requires MergedFrom(edges, exports)
    ensures Reachable(edges, sources, id) <==> Connected(exports, sources, id)
  {
    forall walk
      ensures IsWalk(edges, walk) <==> Chain(exports, walk)
    {
      WalkIsChain(exports, edges, walk);
    }
    if walk :| IsWalk(edges, walk) && walk[0] in sources && walk[|walk| - 1] == id {
      assert Chain(exports, walk);
    }
    if walk :| Chain(exports, walk) && walk[0] in sources && walk[|walk| - 1] == id {
      assert IsWalk(edges, walk);
    }
  }

  lemma WalkIsChain(exports: seq<Export>, edges: seq<Edge>, walk: seq<string>)
    requires MergedFrom(edges, exports)
    ensures IsWalk(edges, walk) <==> Chain(exports, walk)
  {
    forall i | 0 <= i < |walk| - 1
      ensures Adjacent(edges, walk[i], walk[i + 1]) <==> Linked(exports, walk[i], walk[i + 1])
    {
      AdjacentExactly(exports, edges, walk[i], walk[i + 1]);
    }
  }

  // ---- the exposure ----

  /** The nodes of the rules of a regime's artifacts. */
  ghost function RulesOf(exports: seq<Export>, regime: string): set<string> {
    set x, r | x in exports && x.projection.regime == regime && x.projection.content.RulesContent? && r in x.projection.content.rules ::
      x.projection.hex + ":" + r.ruleId
  }

  /** The nodes are those of the exported projections. */
  ghost predicate NodesFrom(nodes: seq<Node>, exports: seq<Export>) {
    forall t, id :: HasNode(nodes, t, id) <==> exists x | x in exports :: Projected(x.projection, t, id)
  }

  lemma HeldIsHeld(x: Export, id: string)
    ensures HeldBy(x, id) <==> Holds(x.projection, id)
  {
    if e :| e in x.Edges() && e.tag == Contains && e.to == id {
      HoldsExactly(x, e);
    }
    if Holds(x.projection, id) {
      HoldsExactly(x, Edge(Contains, x.projection.hex, id, []));
    }
  }

  lemma HeldInRegime(exports: seq<Export>, edges: seq<Edge>, x: Export, id: string, regime: string)
    requires DistinctArtifacts(exports) && MergedFrom(edges, exports) && x in exports && Holds(x.projection, id)
    ensures NodeInRegime(edges, id, regime) <==> x.projection.regime == regime
  {
    HeldIsHeld(x, id);
    CitedOpensWithAddress(x.projection, id);
    HeldNodeRegime(edges, exports, x, id, regime);
  }

  lemma SourcesExactly(exports: seq<Export>, nodes: seq<Node>, edges: seq<Edge>, regime: string)
    requires DistinctArtifacts(exports) && MergedFrom(edges, exports) && NodesFrom(nodes, exports)
    ensures Sources(nodes, edges, regime) == RulesOf(exports, regime)
  {
    forall id
      ensures id in Sources(nodes, edges, regime) <==> id in RulesOf(exports, regime)
    {
      SourceIsNode(nodes, edges, regime, id);
      if HasNode(nodes, RuleNode, id) && NodeInRegime(edges, id, regime) {
        NodeIsRule(exports, nodes, edges, regime, id);
      }
      if id in RulesOf(exports, regime) {
        RuleIsNode(exports, nodes, edges, regime, id);
      }
    }
  }

  lemma SourceIsNode(nodes: seq<Node>, edges: seq<Edge>, regime: string, id: string)
    ensures id in Sources(nodes, edges, regime) <==> HasNode(nodes, RuleNode, id) && NodeInRegime(edges, id, regime)
  {
  }

  lemma NodeIsRule(exports: seq<Export>, nodes: seq<Node>, edges: seq<Edge>, regime: string, id: string)
    requires DistinctArtifacts(exports) && MergedFrom(edges, exports) && NodesFrom(nodes, exports)
    requires HasNode(nodes, RuleNode, id) && NodeInRegime(edges, id, regime)
    ensures id in RulesOf(exports, regime)
  {
    var x :| x in exports && Projected(x.projection, RuleNode, id);
    var r :| r in x.projection.content.rules && RuleNodeId(x.projection.hex, r.ruleId) == id;
    HeldInRegime(exports, edges, x, id, regime);
    assert id == x.projection.hex + ":" + r.ruleId;
  }

  lemma RuleIsNode(exports: seq<Export>, nodes: seq<Node>, edges: seq<Edge>, regime: string, id: string)
    requires DistinctArtifacts(exports) && MergedFrom(edges, exports) && NodesFrom(nodes, exports)
    requires id in RulesOf(exports, regime)
    ensures HasNode(nodes, RuleNode, id) && NodeInRegime(edges, id, regime)
  {
    var x, r :| x in exports && x.projection.regime == regime && x.projection.content.RulesContent? &&
                r in x.projection.content.rules && id == x.projection.hex + ":" + r.ruleId;
    HeldInRegime(exports, edges, x, id, regime);
    assert RuleNodeId(x.projection.hex, r.ruleId) == id;
    assert Projected(x.projection, RuleNode, id);
  }

  /** The ends of a conflict of this artifact, either way round. */
  ghost predicate Ends(x: Export, a: string, b: string) {
    exists c | c in x.conflicts :: Between(x.projection.hex, c, a, b)
  }

  predicate Between(hex: string, c: RuleConflict, a: string, b: string) {
    (a == hex + ":" + c.first && b == hex + ":" + c.second) || (a == hex + ":" + c.second && b == hex + ":" + c.first)
  }

  lemma EndsExactly(x: Export, a: string, b: string)
    requires x.Valid()
    ensures Ends(x, a, b) <==>
            exists e | e in x.Edges() :: e.tag == ConflictsWith && ((e.from == a && e.to == b) || (e.from == b && e.to == a))
    ensures Ends(x, a, b) ==> Holds(x.projection, a) && Holds(x.projection, b)
  {
    if e :| e in x.Edges() && e.tag == ConflictsWith && ((e.from == a && e.to == b) || (e.from == b && e.to == a)) {
      EdgeIsConflict(x, e);
    }
    if c :| c in x.conflicts && Between(x.projection.hex, c, a, b) {
      ConflictIsEdge(x, c);
      ConflictEndsHeld(x, c);
    }
  }

  lemma EdgeIsConflict(x: Export, e: Edge)
    requires e in x.Edges() && e.tag == ConflictsWith
    ensures Ends(x, e.from, e.to) && Ends(x, e.to, e.from)
  {
    ProjectionEdgesExactly(x.projection, e);
    var k :| 0 <= k < |x.conflicts| && e == ConflictEdge(x.projection.hex, x.conflicts[k]);
    assert x.conflicts[k] in x.conflicts;
    assert Between(x.projection.hex, x.conflicts[k], e.from, e.to) && Between(x.projection.hex, x.conflicts[k], e.to, e.from);
  }

  lemma ConflictIsEdge(x: Export, c: RuleConflict)
    requires c in x.conflicts
    ensures var e := ConflictEdge(x.projection.hex, c); e in x.Edges() && e.tag == ConflictsWith && Between(x.projection.hex, c, e.from, e.to)
  {
    var k :| 0 <= k < |x.conflicts| && x.conflicts[k] == c;
    assert ConflictEdges(x.projection.hex, x.conflicts)[k] == ConflictEdge(x.projection.hex, c);
  }

  lemma ConflictEndsHeld(x: Export, c: RuleConflict)
    requires x.Valid() && c in x.conflicts
    ensures Holds(x.projection, x.projection.hex + ":" + c.first) && Holds(x.projection, x.projection.hex + ":" + c.second)
  {
    var (hex, rules) := (x.projection.hex, x.projection.content.rules);
    assert HasRule(hex, rules, RuleNodeId(hex, c.first)) && HasRule(hex, rules, RuleNodeId(hex, c.second));
  }

  /** A rule is exposed when its artifact, of the target regime, has it in conflict with a rule that the source's citations connect. */
  ghost predicate ExposedRule(exports: seq<Export>, source: string, target: string, id: string) {
    exists x, partner | x in exports ::
      x.projection.regime == target && Ends(x, id, partner) && Connected(exports, RulesOf(exports, source), partner)
  }

  lemma ExposureExactly(exports: seq<Export>, nodes: seq<Node>, edges: seq<Edge>, source: string, target: string, id: string)
    requires DistinctArtifacts(exports) && MergedFrom(edges, exports) && NodesFrom(nodes, exports)
    ensures Exposed(nodes, edges, source, target, id) <==> ExposedRule(exports, source, target, id)
  {
    SourcesExactly(exports, nodes, edges, source);
    var sources := RulesOf(exports, source);
    if Exposed(nodes, edges, source, target, id) {
      var e, partner := ExposedThrough(nodes, edges, source, target, id);
      ReachableExactly(exports, edges, sources, partner);
      var x :| x in exports && e in x.Edges();
      EndsExactly(x, id, partner);
      HeldInRegime(exports, edges, x, id, target);
    }
    if x, partner :| x in exports && x.projection.regime == target && Ends(x, id, partner) && Connected(exports, sources, partner) {
      EndsExactly(x, id, partner);
      HeldInRegime(exports, edges, x, id, target);
      ReachableExactly(exports, edges, sources, partner);
      var e :| e in x.Edges() && e.tag == ConflictsWith && ((e.from == id && e.to == partner) || (e.from == partner && e.to == id));
      assert e in edges;
    }
  }
}
