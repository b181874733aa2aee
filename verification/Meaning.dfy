/** What rules mean, apart from how the executor goes about them: groups, decision tables, operators. */
module Meanings {
  import opened Wrappers
  import opened Facts
  import opened Strings
  import opened Exec
  import opened Decimals

  // ---- groups ----

  /** The members a group uses: its `all` unless there are none, else its `any`. */
  function Used(g: Group): seq<Item> {
    if g.all.Members? && g.all.items != [] then g.all.items else if g.any.Members? then g.any.items else []
  }

  /** The members as a group of their own. */
  function Alone(items: seq<Item>): Group {
    Group(Members(items), Absent)
  }

  function Ones(checks: seq<Condition>): seq<Item> {
    seq(|checks|, i requires 0 <= i < |checks| => One(checks[i]))
  }

  lemma ItemsSplit(item: Item, rest: seq<Item>)
    ensures FlatItems([item] + rest) == FlatItem(item) + FlatItems(rest)
  {
    assert ([item] + rest)[1..] == rest;
  }

  lemma Assoc(x: seq<Condition>, y: seq<Condition>, z: seq<Condition>)
    ensures x + (y + z) == (x + y) + z
  {
  }

  lemma {:induction false} ItemsConcat(a: seq<Item>, b: seq<Item>)
    ensures FlatItems(a + b) == FlatItems(a) + FlatItems(b)
  {
    if a == [] {
      assert a + b == b;
    } else {
      var first, rest := a[0], a[1..];
      assert a == [first] + rest && a + b == [first] + (rest + b);
      calc {
        FlatItems(a + b);
        { ItemsSplit(first, rest + b); }
        FlatItem(first) + FlatItems(rest + b);
        { ItemsConcat(rest, b); }
        FlatItem(first) + (FlatItems(rest) + FlatItems(b));
        { Assoc(FlatItem(first), FlatItems(rest), FlatItems(b)); }
        (FlatItem(first) + FlatItems(rest)) + FlatItems(b);
        { ItemsSplit(first, rest); }
        FlatItems(a) + FlatItems(b);
      }
    }
  }

  lemma OneItem(item: Item)
    ensures FlatItems([item]) == FlatItem(item)
  {
    assert [item][1..] == [];
    assert FlatItem(item) + [] == FlatItem(item);
  }

  lemma {:induction false} OnesFlat(checks: seq<Condition>)
    ensures FlatItems(Ones(checks)) == checks
  {
    if checks != [] {
      OnesFlat(checks[1..]);
      assert Ones(checks)[1..] == Ones(checks[1..]);
      assert [checks[0]] + checks[1..] == checks;
    }
  }

  /** A group of conditions alone flattens to those conditions, and any group to what its used members do. */
  lemma PlainGroup(g: Group, checks: seq<Condition>)
    ensures Flat(g) == Flat(Alone(Used(g)))
    ensures Used(g) == Ones(checks) ==> Flat(g) == checks
  {
    OnesFlat(checks);
  }

  /** A nested group counts for nothing but its members: put in its place they flatten to the same list. */
  lemma SpliceKeeps(before: seq<Item>, h: Group, after: seq<Item>)
    ensures Flat(Alone(before + [Nested(h)] + after)) == Flat(Alone(before + Used(h) + after))
  {
    ItemsConcat(before + [Nested(h)], after);
    ItemsConcat(before, [Nested(h)]);
    ItemsConcat(before + Used(h), after);
    ItemsConcat(before, Used(h));
    OneItem(Nested(h));
  }

  /** The condition is among the members, or among those a nested group uses, at any depth. */
  ghost predicate Asked(c: Condition, items: seq<Item>)
    decreases items, 0
  {
    exists i | 0 <= i < |items| :: AskedItem(c, items[i])
  }

  ghost predicate AskedOf(c: Condition, g: Group)
    decreases g, 1
  {
    if g.all.Members? && g.all.items != [] then Asked(c, g.all.items) else g.any.Members? && Asked(c, g.any.items)
  }

  ghost predicate AskedItem(c: Condition, item: Item)
    decreases item, 2
  {
    match item
    case One(d) => c == d
    case Nested(h) => AskedOf(c, h)
  }

  lemma {:induction false} FlatAsks(c: Condition, g: Group)
    ensures c in Flat(g) <==> AskedOf(c, g)
    decreases g, 1
  {
    if g.all.Members? && g.all.items != [] {
      ItemsAsk(c, g.all.items);
    } else if g.any.Members? {
      ItemsAsk(c, g.any.items);
    }
  }

  lemma {:induction false} ItemsAsk(c: Condition, items: seq<Item>)
    ensures c in FlatItems(items) <==> Asked(c, items)
    decreases items, 0
  {
    if items != [] {
      ItemAsks(c, items[0]);
      ItemsAsk(c, items[1..]);
      AskedMore(c, items);
    }
  }

  lemma {:induction false} ItemAsks(c: Condition, item: Item)
    ensures c in FlatItem(item) <==> AskedItem(c, item)
    decreases item, 2
  {
    if item.Nested? {
      FlatAsks(c, item.group);
    }
  }

  lemma AskedMore(c: Condition, items: seq<Item>)
    requires items != []
    ensures Asked(c, items) <==> AskedItem(c, items[0]) || Asked(c, items[1..])
  {
    if i :| 0 <= i < |items| && AskedItem(c, items[i]) {
      if i > 0 {
        assert items[1..][i - 1] == items[i];
      }
    }
    if i :| 0 <= i < |items[1..]| && AskedItem(c, items[1..][i]) {
      assert items[i + 1] == items[1..][i];
    }
  }

  /**
   A rule with a non-empty `all` applies exactly when every condition it uses holds, at any depth, whatever the nested
   groups are; any other group asks for one of them, and asks nothing when it uses none.
   */
  lemma AppliesExactly(text: FloatText, rule: Rule, facts: FactSet)
    ensures rule.appliesIf.None? ==> Evaluate(text, rule, facts).applicable
    ensures rule.appliesIf.Some? ==> (Evaluate(text, rule, facts).applicable <==> GroupHolds(text, facts, rule.appliesIf.value))
  {
    if rule.appliesIf.Some? {
      HoldsExactly(text, facts, rule.appliesIf.value);
    }
  }

  ghost predicate GroupHolds(text: FloatText, facts: FactSet, g: Group) {
    if g.all.Members? && g.all.items != [] then forall c :: AskedOf(c, g) ==> Check(text, facts, c)
    else (forall c :: !AskedOf(c, g)) || exists c :: AskedOf(c, g) && Check(text, facts, c)
  }

  lemma HoldsExactly(text: FloatText, facts: FactSet, g: Group)
    ensures Holds(text, facts, Flat(g), GroupMode(g)) <==> GroupHolds(text, facts, g)
  {
    forall c: Condition
      ensures c in Flat(g) <==> AskedOf(c, g)
    {
      FlatAsks(c, g);
    }
    if Flat(g) != [] {
      assert Flat(g)[0] in Flat(g) && AskedOf(Flat(g)[0], g);
    }
    if c :| c in Flat(g) && Check(text, facts, c) {
      assert AskedOf(c, g) && Check(text, facts, c);
    }
    if c :| AskedOf(c, g) && Check(text, facts, c) {
      assert c in Flat(g) && Check(text, facts, c);
    }
  }

  // ---- decision tables ----

  function With(rule: Rule, tree: Tree): Rule {
    rule.(tree := tree)
  }

  /** At a node the facts' answer picks the branch, and is the first step of the path; what follows is the branch's. */
  lemma NodeExactly(text: FloatText, rule: Rule, c: Condition, yes: Tree, no: Tree, facts: FactSet)
    requires rule.tree == Node(c, yes, no)
    ensures var answer := Check(text, facts, c);
            var (e, branch) := (Evaluate(text, rule, facts), Evaluate(text, With(rule, if answer then yes else no), facts));
            e.applicable == branch.applicable && e.decision == branch.decision && e.obligations == branch.obligations &&
            (e.applicable ==> e.decisionPath == [NormStep(c.field, c.op, answer)] + branch.decisionPath)
  {
    RowStep(text, facts, c, yes, no);
    var answer := Check(text, facts, c);
    var row := Row(text, facts, if answer then yes else no);
    assert BranchSteps([Branch(c, answer)] + row.branches) == [NormStep(c.field, c.op, answer)] + BranchSteps(row.branches);
  }

  /** At a leaf an applicable rule gives its result and obligations; an inapplicable rule gives nothing, wherever it stands. */
  lemma LeafExactly(text: FloatText, rule: Rule, leaf: Leaf, facts: FactSet)
    ensures var e := Evaluate(text, rule, facts);
            e.ruleId == rule.id &&
            (!e.applicable ==> e.decision == None && e.obligations == [] && e.decisionPath == []) &&
            (e.applicable && rule.tree == AtLeaf(leaf) ==>
               e.decision == Some(leaf.result) && e.decisionPath == [] &&
               e.obligations == if leaf.obligations.Some? then leaf.obligations.value else [])
  {
  }

  /** The applicability steps are the shortest recording of the used conditions that settles the rule. */
  lemma StepsExactly(text: FloatText, rule: Rule, g: Group, facts: FactSet)
    requires rule.appliesIf == Some(g)
    ensures ShortestDeciding(text, facts, Flat(g), if g.all.Members? && g.all.items != [] then All else Any,
                             Evaluate(text, rule, facts).applicabilitySteps)
  {
    StepsAreShortest(text, facts, Flat(g), GroupMode(g));
  }

  // ---- operators ----

  /** A field with no fact is a field with no value. */
  lemma MissingIsNull(text: FloatText, facts: FactSet, field: string, c: Condition)
    ensures Check(text, facts - {field}, c) == Check(text, facts[field := Null], c)
  {
  }

  /** The number a fact and an operand stand in, scaled to whole numbers: `f * 10^s` against `m`, or `f` against `m * 10^-s`. */
  predicate Above(n: int, m: int, s: int) {
    if s > 0 then n * Pow10(s) > m else n > m * Pow10(-s)
  }

  predicate Below(n: int, m: int, s: int) {
    if s > 0 then n * Pow10(s) < m else n < m * Pow10(-s)
  }

  lemma Scaled(n: int, m: int, s: int)
    ensures (n as real > DecimalReal(m, s) <==> Above(n, m, s)) && (n as real < DecimalReal(m, s) <==> Below(n, m, s))
  {
    if s > 0 {
      QuotientAgainst(n, m, Pow10(s));
    } else {
      WholeAgainst(n, m * Pow10(-s));
    }
  }

  lemma WholeAgainst(n: int, k: int)
    ensures (n as real > k as real <==> n > k) && (n as real < k as real <==> n < k)
  {
  }

  lemma QuotientAgainst(n: int, m: int, p: int)
    requires p > 0
    ensures var x := m as real / p as real; (n as real > x <==> n * p > m) && (n as real < x <==> n * p < m)
  {
    var x := m as real / p as real;
    Undivided(m as real, p as real);
    ScaledReal(n as real, x, p as real);
    assert n as real * p as real == (n * p) as real;
    WholeAgainst(n * p, m);
  }

  lemma Undivided(y: real, p: real)
    requires p > 0.0
    ensures y / p * p == y
  {
  }

  lemma ScaledReal(x: real, y: real, p: real)
    requires p > 0.0
    ensures (x > y <==> x * p > y * p) && (x < y <==> x * p < y * p)
  {
    if x > y {
      assert (x - y) * p > 0.0;
    } else if x < y {
      assert (y - x) * p > 0.0;
    }
  }

  /** A whole number against a decimal, in whole numbers; true and false count as one and zero. */
  lemma IntegerAgainstDecimal(text: FloatText, f: Fact, m: i128, s: i8)
    requires f.FInt? || f.FBool?
    ensures var n := if f.FInt? then f.n else if f.flag then 1 else 0;
            (Eval(text, f, Gt, Dec(m, s)) <==> Above(n, m, s)) && (Eval(text, f, Lt, Dec(m, s)) <==> Below(n, m, s)) &&
            (Eval(text, f, Gte, Dec(m, s)) <==> !Below(n, m, s)) && (Eval(text, f, Lte, Dec(m, s)) <==> !Above(n, m, s)) &&
            (Eval(text, f, Eq, Dec(m, s)) <==> !Above(n, m, s) && !Below(n, m, s)) &&
            (Eval(text, f, NotEq, Dec(m, s)) <==> Above(n, m, s) || Below(n, m, s))
  {
    Scaled(if f.FInt? then f.n else if f.flag then 1 else 0, m, s);
  }

  /** A fraction against any numeric operand. */
  lemma FractionAgainstNumber(text: FloatText, r: real, v: Scalar)
    requires v.Dec? || v.Bool?
    ensures var x := if v.Dec? then DecimalReal(v.mantissa, v.scale) else if v.flag then 1.0 else 0.0;
            (Eval(text, FFloat(r), Gt, v) <==> r > x) && (Eval(text, FFloat(r), Lt, v) <==> r < x) &&
            (Eval(text, FFloat(r), Gte, v) <==> r >= x) && (Eval(text, FFloat(r), Lte, v) <==> r <= x) &&
            (Eval(text, FFloat(r), Eq, v) <==> r == x) && (Eval(text, FFloat(r), NotEq, v) <==> r != x)
  {
  }

  /** Text against text, by the first character that differs. */
  lemma TextAgainstText(text: FloatText, a: string, b: string)
    ensures var (less, greater) := (exists k: nat :: DiffersAt(a, b, k), exists k: nat :: DiffersAt(b, a, k));
            (Eval(text, FStr(a), Lt, Str(b)) <==> less) && (Eval(text, FStr(a), Gt, Str(b)) <==> greater) &&
            (Eval(text, FStr(a), Gte, Str(b)) <==> !less) && (Eval(text, FStr(a), Lte, Str(b)) <==> !greater) &&
            (Eval(text, FStr(a), Eq, Str(b)) <==> a == b) && (Eval(text, FStr(a), NotEq, Str(b)) <==> a != b)
  {
    LessExactly(a, b);
    LessExactly(b, a);
  }

  predicate Numeric(f: Fact, v: Scalar) {
    (f.FInt? || f.FFloat? || f.FBool?) && (v.Dec? || v.Bool?)
  }

  /** Nothing else compares: mixed kinds, missing facts and lists are in no order, and unequal unless two lists agree item by item. */
  lemma OthersDoNotCompare(text: FloatText, f: Fact, v: Scalar)
    requires !Numeric(f, v) && !(f.FStr? && v.Str?)
    ensures !Eval(text, f, Gt, v) && !Eval(text, f, Lt, v) && !Eval(text, f, Gte, v) && !Eval(text, f, Lte, v)
    ensures Eval(text, f, Eq, v) <==>
            f.FList? && v.List? && |f.items| == |v.items| && forall i | 0 <= i < |f.items| :: Eval(text, f.items[i], Eq, v.items[i])
    ensures Eval(text, f, NotEq, v) <==> !Eval(text, f, Eq, v)
    ensures Eval(text, f, Exists, v) <==> f != Null
  {
  }

  /** Membership, on lists of one kind: by text, by whole number, by truth value; nothing is in what is no list. */
  lemma MembershipExactly(text: FloatText, v: Scalar)
    ensures forall f :: Eval(text, f, NotIn, v) <==> !Eval(text, f, In, v)
    ensures !v.List? ==> forall f :: !Eval(text, f, In, v)
    ensures v.List? && (forall i | 0 <= i < |v.items| :: v.items[i].Str?) ==>
              forall a :: Eval(text, FStr(a), In, v) <==> Str(a) in v.items
    ensures v.List? && (forall i | 0 <= i < |v.items| :: v.items[i].Bool?) ==>
              forall b :: Eval(text, FBool(b), In, v) <==> Bool(b) in v.items
  {
  }

  lemma IntegerMembership(text: FloatText, n: i128, items: seq<Scalar>)
    requires forall i | 0 <= i < |items| :: items[i].Dec? && items[i].scale == 0
    ensures Eval(text, FInt(n), In, List(items)) <==> Dec(n, 0) in items
  {
    forall i | 0 <= i < |items|
      ensures PyStrScalar(text, items[i]) == PyStrFact(text, FInt(n)) <==> items[i] == Dec(n, 0)
    {
      if PyStrScalar(text, items[i]) == PyStrFact(text, FInt(n)) {
        PrintsDiffer(items[i].mantissa, n);
      }
    }
  }

  /** How members print in a list: texts in quotes, the rest as it is; a missing fact has a name of its own. */
  lemma ListsPrint(text: FloatText, s: string, b: bool)
    ensures var printed := "['" + s + "', " + (if b then "True" else "False") + "]";
            PyStrFact(text, FList([FStr(s), FBool(b)])) == printed && PyStrScalar(text, List([Str(s), Bool(b)])) == printed
    ensures PyStrFact(text, Null) == "None"
  {
    var quoted, named := "'" + s + "'", if b then "True" else "False";
    var (f, v) := ([FStr(s), FBool(b)], [Str(s), Bool(b)]);
    var (reprs, members) :=
      (seq(|f|, i requires 0 <= i < |f| => PyReprFact(text, f[i])), seq(|v|, i requires 0 <= i < |v| => PyReprScalar(text, v[i])));
    assert PyStrFact(text, FBool(b)) == named && PyStrScalar(text, Bool(b)) == named;
    assert reprs[0] == quoted && reprs[1] == named && members[0] == quoted && members[1] == named;
    assert reprs == [quoted, named] && members == [quoted, named];
    TwoJoined(quoted, named);
    assert "[" + (quoted + ", " + named) + "]" == "['" + s + "', " + named + "]";
  }

  lemma TwoJoined(a: string, b: string)
    ensures Joined([a, b], ", ") == a + ", " + b
  {
    assert [a, b][1..] == [b];
  }

  lemma PrintsDiffer(m: int, n: int)
    requires DecimalToString(m, 0) == DecimalToString(n, 0)
    ensures m == n
  {
    var (a, b) := (Digits(Abs(m)), Digits(Abs(n)));
    assert Magnitude(a, 0) == a && Magnitude(b, 0) == b;
    assert IsDigit(a[0]) && IsDigit(b[0]);
    ValueOfDigits(Abs(m));
    ValueOfDigits(Abs(n));
    assert (m < 0) == (n < 0) by {
      assert Signed(m < 0, a)[0] == Signed(n < 0, b)[0];
    }
    if m < 0 {
      assert ("-" + a)[1..] == a && ("-" + b)[1..] == b;
    }
  }
}
