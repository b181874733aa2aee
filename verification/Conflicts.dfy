/** T4 scope analysis: premises read off the top-level `all` conditions, and what disjoint premises guarantee. */
module Conflicts {
  import opened Wrappers
  import opened Facts
  import opened Exec
  import Decimals

  type Premises = map<string, set<string>>

  function Stringify(v: Scalar): string {
    match v
    case Str(s) => s
    case Bool(b) => if b then "true" else "false"
    case Dec(m, s) => IntText(m) + ":" + IntText(s)
    case List(items) => "[" + Joined(seq(|items|, i requires 0 <= i < |items| => Stringify(items[i])), ",") + "]"
  }

  /** The values a top-level member allows its field, if it is a condition that constrains one. */
  function Allowed(item: Item): Option<set<string>> {
    if item.Nested? then None
    else if item.cond.op == Eq then Some({Stringify(item.cond.value)})
    else if item.cond.op == In && item.cond.value.List? then
      Some(set i | 0 <= i < |item.cond.value.items| :: Stringify(item.cond.value.items[i]))
    else None
  }

  function TopLevel(rule: Rule): seq<Item> {
    if rule.appliesIf.Some? && rule.appliesIf.value.all.Members? then rule.appliesIf.value.all.items else []
  }

  /** The values allowed for a field: every value some constraining member allows. */
  ghost predicate Allows(items: seq<Item>, field: string, value: string) {
    exists item | item in items :: item.One? && item.cond.field == field && Allowed(item).Some? && value in Allowed(item).value
  }

  ghost predicate Constrains(items: seq<Item>, field: string) {
    exists item | item in items :: item.One? && item.cond.field == field && Allowed(item).Some?
  }

  ghost predicate ArePremises(p: Premises, items: seq<Item>) {
    && (forall f :: f in p <==> Constrains(items, f))
    && (forall f, v :: f in p ==> (v in p[f] <==> Allows(items, f, v)))
  }

  method ExtractPremises(rule: Rule) returns (p: Premises)
    ensures ArePremises(p, TopLevel(rule))
  {
    p := map[];
    var items := TopLevel(rule);
    for i := 0 to |items|
      invariant ArePremises(p, items[..i])
    {
      var item := items[i];
      assert items[..i + 1] == items[..i] + [item];
      ghost var before := p;
      var allowed := Allowed(item);
      if allowed.Some? {
        var f := item.cond.field;
        p := p[f := (if f in p then p[f] else {}) + allowed.value];
      }
      OneMore(before, p, items[..i], item);
    }
    assert items[..|items|] == items;
  }

  lemma OneMore(before: Premises, after: Premises, items: seq<Item>, item: Item)
    requires ArePremises(before, items)
    requires after == if Allowed(item).None? then before
                      else before[item.cond.field := (if item.cond.field in before then before[item.cond.field] else {}) + Allowed(item).value]
    ensures ArePremises(after, items + [item])
  {
    var all := items + [item];
    assert item in all && forall x | x in items :: x in all;
    forall f
      ensures f in after <==> Constrains(all, f)
    {
    }
    forall f, v | f in after
      ensures v in after[f] <==> Allows(all, f, v)
    {
      assert Allows(all, f, v) <==> Allows(items, f, v) || Allows([item], f, v);
    }
  }

  // ---- scope overlap ----

  ghost predicate Overlap(a: Premises, b: Premises) {
    (exists f :: f in a && f in b) && forall f | f in a && f in b :: !(a[f] !! b[f])
  }

  method ScopesOverlap(a: Premises, b: Premises) returns (overlap: bool)
    ensures overlap <==> Overlap(a, b)
  {
    var shared := false;
    var left := a.Keys;
    while left != {}
      invariant left <= a.Keys
      invariant shared <==> exists f :: f in a.Keys - left && f in b
      invariant forall f | f in a.Keys - left && f in b :: !(a[f] !! b[f])
    {
      var f :| f in left;
      left := left - {f};
      if f in b {
        shared := true;
        if a[f] !! b[f] {
          return false;
        }
      }
    }
    overlap := shared;
  }

  // ---- which facts meet two premises ----

  /** The conditions premises are read off. */
  predicate IsPremise(c: Condition) {
    c.op == Eq || (c.op == In && c.value.List?)
  }

  /** Equal numbers, equal texts, or lists that agree item by item. */
  predicate SameOperand(v: Scalar, w: Scalar) {
    if OperandNumber(v).Some? && OperandNumber(w).Some? then OperandNumber(v).value == OperandNumber(w).value
    else
      match (v, w)
      case (Str(a), Str(b)) => a == b
      case (List(a), List(b)) => |a| == |b| && forall i | 0 <= i < |a| :: SameOperand(a[i], b[i])
      case _ => false
  }

  /** Every text Python prints a number as: as a float, as an int if it is whole, and as a bool if it is 0 or 1. */
  function NumberTexts(text: FloatText, r: real): set<string> {
    {text(r)} +
    (if r == r.Floor as real then {IntText(r.Floor)} else {}) +
    (if r == 1.0 then {"True"} else if r == 0.0 then {"False"} else {})
  }

  /** Every text Python prints a fact as that equals this operand. */
  function Texts(text: FloatText, v: Scalar): set<string>
    decreases v, 0
  {
    match v
    case Str(s) => {s}
    case List(items) => set parts | parts in ItemTexts(text, items) :: "[" + Joined(parts, ", ") + "]"
    case _ => NumberTexts(text, OperandNumber(v).value)
  }

  /** The same inside a list, where Python quotes strings. */
  function QuotedTexts(text: FloatText, v: Scalar): set<string>
    decreases v, 1
  {
    if v.Str? then {"'" + v.text + "'"} else Texts(text, v)
  }

  function ItemTexts(text: FloatText, items: seq<Scalar>): set<seq<string>>
    decreases items
  {
    if items == [] then {[]}
    else set first, rest | first in QuotedTexts(text, items[0]) && rest in ItemTexts(text, items[1..]) :: [first] + rest
  }

  /** Whether one fact can meet both premises, computed from the operands. */
  predicate Meets(text: FloatText, c: Condition, d: Condition)
    requires IsPremise(c) && IsPremise(d)
  {
    if c.op == Eq then
      if d.op == Eq then SameOperand(c.value, d.value) else MemberPrints(text, d.value.items, Texts(text, c.value))
    else if d.op == Eq then MemberPrints(text, c.value.items, Texts(text, d.value))
    else
      exists i | 0 <= i < |d.value.items| :: MemberPrints(text, c.value.items, {PyStrScalar(text, d.value.items[i])})
  }

  predicate MemberPrints(text: FloatText, items: seq<Scalar>, texts: set<string>) {
    exists i | 0 <= i < |items| :: PyStrScalar(text, items[i]) in texts
  }

  /** A fact equal to an operand: for a number, the float. */
  function Equal(v: Scalar): Fact {
    match v
    case Str(s) => FStr(s)
    case List(items) => FList(seq(|items|, i requires 0 <= i < |items| => Equal(items[i])))
    case _ => FFloat(OperandNumber(v).value)
  }

  lemma {:induction false} SameOperandHasFact(v: Scalar, w: Scalar)
    requires SameOperand(v, w)
    ensures EvalEq(Equal(v), v) && EvalEq(Equal(v), w)
  {
    if v.List? {
      forall i | 0 <= i < |v.items|
        ensures EvalEq(Equal(v.items[i]), v.items[i]) && EvalEq(Equal(v.items[i]), w.items[i])
      {
        SameOperandHasFact(v.items[i], w.items[i]);
      }
    }
  }

  lemma {:induction false} EqualToBoth(f: Fact, v: Scalar, w: Scalar)
    requires EvalEq(f, v) && EvalEq(f, w)
    ensures SameOperand(v, w)
  {
    if v.List? {
      forall i | 0 <= i < |v.items|
        ensures SameOperand(v.items[i], w.items[i])
      {
        EqualToBoth(f.items[i], v.items[i], w.items[i]);
      }
    }
  }

  lemma {:induction false} PrintedFactIsText(text: FloatText, f: Fact, v: Scalar)
    requires EvalEq(f, v)
    ensures PyStrFact(text, f) in Texts(text, v) && PyReprFact(text, f) in QuotedTexts(text, v)
    decreases v, 0
  {
    if v.List? {
      PrintedItemsAreTexts(text, f.items, v.items);
      assert seq(|f.items|, i requires 0 <= i < |f.items| => PyReprFact(text, f.items[i])) == Printed(text, f.items);
    }
  }

  /** The facts of a list as Python prints them inside one. */
  function Printed(text: FloatText, fs: seq<Fact>): seq<string> {
    if fs == [] then [] else [PyReprFact(text, fs[0])] + Printed(text, fs[1..])
  }

  lemma {:induction false} PrintedItemsAreTexts(text: FloatText, fs: seq<Fact>, vs: seq<Scalar>)
    requires |fs| == |vs| && forall i | 0 <= i < |fs| :: EvalEq(fs[i], vs[i])
    ensures Printed(text, fs) in ItemTexts(text, vs)
    ensures |Printed(text, fs)| == |fs| && forall i | 0 <= i < |fs| :: Printed(text, fs)[i] == PyReprFact(text, fs[i])
    decreases vs
  {
    if fs != [] {
      PrintedFactIsText(text, fs[0], vs[0]);
      PrintedItemsAreTexts(text, fs[1..], vs[1..]);
    }
  }

  lemma {:induction false} TextHasFact(text: FloatText, v: Scalar, s: string) returns (f: Fact)
    requires s in Texts(text, v)
    ensures EvalEq(f, v) && PyStrFact(text, f) == s
    decreases v, 0
  {
    match v
    case Str(_) => f := FStr(s);
    case List(items) =>
      var parts :| parts in ItemTexts(text, items) && s == "[" + Joined(parts, ", ") + "]";
      var fs := PartsHaveFacts(text, items, parts);
      f := FList(fs);
      assert seq(|fs|, i requires 0 <= i < |fs| => PyReprFact(text, fs[i])) == parts;
    case _ =>
      var r := OperandNumber(v).value;
      if s == text(r) {
        f := FFloat(r);
      } else if r == r.Floor as real && s == IntText(r.Floor) {
        f := FInt(r.Floor);
      } else {
        f := FBool(r == 1.0);
      }
  }

  lemma {:induction false} QuotedTextHasFact(text: FloatText, v: Scalar, s: string) returns (f: Fact)
    requires s in QuotedTexts(text, v)
    ensures EvalEq(f, v) && PyReprFact(text, f) == s
    decreases v, 1
  {
    if v.Str? {
      f := FStr(v.text);
    } else {
      f := TextHasFact(text, v, s);
    }
  }

  lemma {:induction false} PartsHaveFacts(text: FloatText, vs: seq<Scalar>, parts: seq<string>) returns (fs: seq<Fact>)
    requires parts in ItemTexts(text, vs)
    ensures |fs| == |vs| == |parts|
    ensures forall i | 0 <= i < |fs| :: EvalEq(fs[i], vs[i]) && PyReprFact(text, fs[i]) == parts[i]
    decreases vs
  {
    fs := [];
    if vs != [] {
      var first, rest :| first in QuotedTexts(text, vs[0]) && rest in ItemTexts(text, vs[1..]) && parts == [first] + rest;
      var f := QuotedTextHasFact(text, vs[0], first);
      var more := PartsHaveFacts(text, vs[1..], rest);
      fs := [f] + more;
    }
  }

  /** One fact meets two premises exactly when the operands say so. */
  lemma MeetsExactly(text: FloatText, c: Condition, d: Condition)
    requires IsPremise(c) && IsPremise(d)
    ensures Meets(text, c, d) <==> exists f :: Eval(text, f, c.op, c.value) && Eval(text, f, d.op, d.value)
  {
    if c.op == Eq && d.op == Eq {
      MeetsEquals(text, c, d);
    } else if c.op == Eq {
      EqualsMeetsMember(text, c.value, d.value);
    } else if d.op == Eq {
      EqualsMeetsMember(text, d.value, c.value);
    } else {
      MeetsMembers(text, c, d);
    }
  }

  lemma MeetsEquals(text: FloatText, c: Condition, d: Condition)
    requires c.op == Eq && d.op == Eq
    ensures Meets(text, c, d) <==> exists f :: Eval(text, f, c.op, c.value) && Eval(text, f, d.op, d.value)
  {
    if Meets(text, c, d) {
      SameOperandHasFact(c.value, d.value);
      assert Eval(text, Equal(c.value), c.op, c.value);
    }
    if f :| Eval(text, f, c.op, c.value) && Eval(text, f, d.op, d.value) {
      EqualToBoth(f, c.value, d.value);
    }
  }

  lemma MeetsMembers(text: FloatText, c: Condition, d: Condition)
    requires IsPremise(c) && IsPremise(d) && c.op == In && d.op == In
    ensures Meets(text, c, d) <==> exists f :: Eval(text, f, c.op, c.value) && Eval(text, f, d.op, d.value)
  {
    if i :| 0 <= i < |d.value.items| && MemberPrints(text, c.value.items, {PyStrScalar(text, d.value.items[i])}) {
      var f := FStr(PyStrScalar(text, d.value.items[i]));
      assert Eval(text, f, c.op, c.value) && Eval(text, f, d.op, d.value);
    }
    if f :| Eval(text, f, c.op, c.value) && Eval(text, f, d.op, d.value) {
      var i :| 0 <= i < |d.value.items| && PyStrScalar(text, d.value.items[i]) == PyStrFact(text, f);
      assert MemberPrints(text, c.value.items, {PyStrScalar(text, d.value.items[i])});
    }
  }

  lemma EqualsMeetsMember(text: FloatText, v: Scalar, list: Scalar)
    requires list.List?
    ensures MemberPrints(text, list.items, Texts(text, v)) <==> exists f :: Eval(text, f, Eq, v) && Eval(text, f, In, list)
  {
    if i :| 0 <= i < |list.items| && PyStrScalar(text, list.items[i]) in Texts(text, v) {
      var f := TextHasFact(text, v, PyStrScalar(text, list.items[i]));
      assert Eval(text, f, Eq, v) && Eval(text, f, In, list);
    }
    if f :| Eval(text, f, Eq, v) && Eval(text, f, In, list) {
      PrintedFactIsText(text, f, v);
    }
  }

  // ---- what disjoint premises guarantee the executor ----

  lemma {:induction false} FlatHasTopLevel(items: seq<Item>, item: Item)
    requires item in items && item.One?
    ensures item.cond in FlatItems(items)
  {
    if items[0] != item {
      FlatHasTopLevel(items[1..], item);
    }
  }

  /** The premises of a rule on a field. */
  ghost predicate PremiseOf(rule: Rule, field: string, c: Condition) {
    One(c) in TopLevel(rule) && c.field == field && IsPremise(c)
  }

  lemma PremiseHolds(text: FloatText, rule: Rule, field: string, c: Condition, facts: FactSet)
    requires PremiseOf(rule, field, c) && Applies(text, facts, rule.appliesIf)
    ensures Eval(text, Lookup(facts, field), c.op, c.value)
  {
    FlatHasTopLevel(TopLevel(rule), One(c));
    assert Check(text, facts, c);
  }

  /** Two rules with premises on one field that no fact meets together are never applicable to the same facts. */
  lemma UnmetPremisesNeverCoApply(text: FloatText, a: Rule, b: Rule, field: string, c: Condition, d: Condition, facts: FactSet)
    requires PremiseOf(a, field, c) && PremiseOf(b, field, d) && !Meets(text, c, d)
    ensures !(Applies(text, facts, a.appliesIf) && Applies(text, facts, b.appliesIf))
  {
    if Applies(text, facts, a.appliesIf) && Applies(text, facts, b.appliesIf) {
      PremiseHolds(text, a, field, c, facts);
      PremiseHolds(text, b, field, d, facts);
      MeetsExactly(text, c, d);
    }
  }

  /** A string, or a list of strings to be a member of. */
  predicate TextOperand(c: Condition) {
    c.value.Str? || (c.op == In && c.value.List? && forall i | 0 <= i < |c.value.items| :: c.value.items[i].Str?)
  }

  /** On text operands T4's disjointness is exact. */
  lemma TextPremisesMeetExactly(text: FloatText, c: Condition, d: Condition)
    requires IsPremise(c) && IsPremise(d) && TextOperand(c) && TextOperand(d)
    ensures Meets(text, c, d) <==> !(Allowed(One(c)).value !! Allowed(One(d)).value)
  {
    var x, y := Allowed(One(c)).value, Allowed(One(d)).value;
    if Meets(text, c, d) {
      if c.op == In && d.op == In {
        var j :| 0 <= j < |d.value.items| && MemberPrints(text, c.value.items, {PyStrScalar(text, d.value.items[j])});
        var i :| 0 <= i < |c.value.items| && PyStrScalar(text, c.value.items[i]) in {PyStrScalar(text, d.value.items[j])};
        assert Stringify(c.value.items[i]) in x && Stringify(d.value.items[j]) in y;
      } else if c.op == In {
        assert d.value.text in x && d.value.text in y;
      } else {
        assert c.value.text in x && c.value.text in y;
      }
    } else {
      forall s | s in x && s in y
        ensures false
      {
        TextOf(c, s);
        TextOf(d, s);
      }
    }
  }

  /** A text T4 reads off a text operand is that operand, or one of its members. */
  lemma TextOf(c: Condition, s: string)
    requires IsPremise(c) && TextOperand(c) && s in Allowed(One(c)).value
    ensures if c.op == Eq then c.value == Str(s) else exists i :: 0 <= i < |c.value.items| && c.value.items[i] == Str(s)
  {
    if c.op == In {
      var i :| 0 <= i < |c.value.items| && Stringify(c.value.items[i]) == s;
      assert c.value.items[i] == Str(s);
    }
  }

  /** Two rules whose premises on a shared field are disjoint and text are never applicable to the same facts. */
  lemma DisjointScopesNeverCoApply(text: FloatText, a: Rule, b: Rule, pa: Premises, pb: Premises, field: string, facts: FactSet)
    requires ArePremises(pa, TopLevel(a)) && ArePremises(pb, TopLevel(b))
    requires forall c | PremiseOf(a, field, c) || PremiseOf(b, field, c) :: TextOperand(c)
    requires field in pa && field in pb && pa[field] !! pb[field]
    ensures !(Applies(text, facts, a.appliesIf) && Applies(text, facts, b.appliesIf))
  {
    var c := SomePremise(a, pa, field);
    var d := SomePremise(b, pb, field);
    TextPremisesMeetExactly(text, c, d);
    UnmetPremisesNeverCoApply(text, a, b, field, c, d, facts);
  }

  lemma SomePremise(rule: Rule, p: Premises, field: string) returns (c: Condition)
    requires ArePremises(p, TopLevel(rule)) && field in p
    ensures PremiseOf(rule, field, c) && Allowed(One(c)).value <= p[field]
  {
    assert Constrains(TopLevel(rule), field);
    var item :| item in TopLevel(rule) && item.One? && item.cond.field == field && Allowed(item).Some?;
    c := item.cond;
    forall v | v in Allowed(item).value
      ensures v in p[field]
    {
      assert Allows(TopLevel(rule), field, v);
    }
  }

  // ---- when two scopes do co-apply ----

  ghost predicate CoApply(text: FloatText, a: Rule, b: Rule) {
    exists facts :: Applies(text, facts, a.appliesIf) && Applies(text, facts, b.appliesIf)
  }

  /** A rule whose scope is premises only, one to a field. */
  predicate OnlyPremises(rule: Rule) {
    && TopLevel(rule) != []
    && (forall item | item in TopLevel(rule) :: item.One? && IsPremise(item.cond))
    && (forall item, other | item in TopLevel(rule) && other in TopLevel(rule) ::
          item.One? && other.One? && item.cond.field == other.cond.field ==> item == other)
  }

  /** Every premise of either rule can be met, and so can any two of them that share a field. */
  ghost predicate AllMeet(text: FloatText, a: Rule, b: Rule) {
    forall c, d | Premise(a, b, c) && Premise(a, b, d) && c.field == d.field :: Meets(text, c, d)
  }

  predicate Premise(a: Rule, b: Rule, c: Condition) {
    IsPremise(c) && (One(c) in TopLevel(a) || One(c) in TopLevel(b))
  }

  /** Where every member is a condition, flattening keeps exactly those. */
  lemma {:induction false} FlatIsTopLevel(items: seq<Item>)
    requires forall item | item in items :: item.One?
    ensures forall c :: c in FlatItems(items) <==> One(c) in items
  {
    if items != [] {
      assert items == [items[0]] + items[1..];
      FlatIsTopLevel(items[1..]);
    }
  }

  lemma PremiseBranches(a: Rule, b: Rule)
    requires OnlyPremises(a) && OnlyPremises(b)
    ensures forall x :: x in Aim(Checks(a.appliesIf) + Checks(b.appliesIf), true) <==> x.taken && Premise(a, b, x.cond)
  {
    var checks := Checks(a.appliesIf) + Checks(b.appliesIf);
    AimedAt(checks);
    FlatIsTopLevel(TopLevel(a));
    FlatIsTopLevel(TopLevel(b));
    forall c: Condition
      ensures c in checks <==> Premise(a, b, c)
    {
      assert c in checks <==> One(c) in TopLevel(a) || One(c) in TopLevel(b);
      if One(c) in TopLevel(a) || One(c) in TopLevel(b) {
        assert IsPremise(One(c).cond);
      }
    }
  }

  lemma AimedAt(checks: seq<Condition>)
    ensures forall x :: x in Aim(checks, true) <==> x.taken && x.cond in checks
  {
    forall x: Branch | x.taken && x.cond in checks
      ensures x in Aim(checks, true)
    {
      var i :| 0 <= i < |checks| && checks[i] == x.cond;
      assert Aim(checks, true)[i] == x;
    }
  }

  lemma BothApply(text: FloatText, a: Rule, b: Rule, facts: FactSet)
    requires OnlyPremises(a) && OnlyPremises(b)
    ensures Applies(text, facts, a.appliesIf) && Applies(text, facts, b.appliesIf) <==>
            Agrees(text, facts, Aim(Checks(a.appliesIf) + Checks(b.appliesIf), true))
  {
    var checks := Checks(a.appliesIf) + Checks(b.appliesIf);
    PremiseBranches(a, b);
    FlatIsTopLevel(TopLevel(a));
    FlatIsTopLevel(TopLevel(b));
    forall c | c in checks
      ensures Premise(a, b, c)
    {
      assert One(c) in TopLevel(a) || One(c) in TopLevel(b);
    }
    assert Agrees(text, facts, Aim(checks, true)) <==> forall c | c in checks :: Check(text, facts, c) by {
      assert forall c | c in checks :: Branch(c, true) in Aim(checks, true);
    }
  }

  /** With one premise to a field in each rule, the premises on a field are at most two. */
  lemma PremisesAnswerable(text: FloatText, a: Rule, b: Rule, c: Condition)
    requires OnlyPremises(a) && OnlyPremises(b) && AllMeet(text, a, b) && Premise(a, b, c)
    ensures Answerable(text, Aim(Checks(a.appliesIf) + Checks(b.appliesIf), true), c.field)
  {
    var branches := Aim(Checks(a.appliesIf) + Checks(b.appliesIf), true);
    PremiseBranches(a, b);
    var d := c;
    if e :| Premise(a, b, e) && e.field == c.field && e != c {
      d := e;
    }
    MeetsExactly(text, c, d);
    var f :| Eval(text, f, c.op, c.value) && Eval(text, f, d.op, d.value);
    assert Answers(text, f, branches, c.field);
  }

  /** Such rules are ever applicable together exactly when their premises meet, field by field. */
  lemma PremiseRulesCoApplyExactly(text: FloatText, a: Rule, b: Rule)
    requires OnlyPremises(a) && OnlyPremises(b)
    ensures CoApply(text, a, b) <==> AllMeet(text, a, b)
  {
    var branches := Aim(Checks(a.appliesIf) + Checks(b.appliesIf), true);
    forall facts: FactSet
      ensures Applies(text, facts, a.appliesIf) && Applies(text, facts, b.appliesIf) <==> Agrees(text, facts, branches)
    {
      BothApply(text, a, b, facts);
    }
    TakeableFieldwise(text, branches);
    PremiseBranches(a, b);
    if Takeable(text, branches) {
      forall c, d | Premise(a, b, c) && Premise(a, b, d) && c.field == d.field
        ensures Meets(text, c, d)
      {
        assert Branch(c, true) in branches && Branch(d, true) in branches;
        var f := SomeAnswer(text, branches, c.field);
        assert Eval(text, f, c.op, c.value) && Eval(text, f, d.op, d.value);
        MeetsExactly(text, c, d);
      }
    }
    if AllMeet(text, a, b) {
      forall branch | branch in branches
        ensures Answerable(text, branches, branch.cond.field)
      {
        PremisesAnswerable(text, a, b, branch.cond);
      }
    }
  }

  /** Premises on text operands, none of them an empty list. */
  predicate TextScope(rule: Rule) {
    OnlyPremises(rule) &&
    forall item | item in TopLevel(rule) && item.One? :: TextOperand(item.cond) && item.cond.value != List([])
  }

  /** On such rules T4's overlap is exact: scopes that share a field overlap if and only if some facts are in both. */
  lemma TextScopesOverlapExactly(text: FloatText, a: Rule, b: Rule, pa: Premises, pb: Premises)
    requires ArePremises(pa, TopLevel(a)) && ArePremises(pb, TopLevel(b)) && TextScope(a) && TextScope(b)
    ensures Overlap(pa, pb) <==> (exists field :: field in pa && field in pb) && CoApply(text, a, b)
  {
    PremiseRulesCoApplyExactly(text, a, b);
    if Overlap(pa, pb) {
      forall c, d | Premise(a, b, c) && Premise(a, b, d) && c.field == d.field
        ensures Meets(text, c, d)
      {
        OverlappingTextMeets(text, a, b, pa, pb, c, d);
      }
    }
    if field :| field in pa && field in pb && CoApply(text, a, b) {
      forall f | f in pa && f in pb
        ensures !(pa[f] !! pb[f])
      {
        var c := SomePremise(a, pa, f);
        var d := SomePremise(b, pb, f);
        assert Premise(a, b, c) && Premise(a, b, d);
        TextPremisesMeetExactly(text, c, d);
      }
    }
  }

  lemma OverlappingTextMeets(text: FloatText, a: Rule, b: Rule, pa: Premises, pb: Premises, c: Condition, d: Condition)
    requires ArePremises(pa, TopLevel(a)) && ArePremises(pb, TopLevel(b)) && TextScope(a) && TextScope(b)
    requires Overlap(pa, pb) && Premise(a, b, c) && Premise(a, b, d) && c.field == d.field
    ensures Meets(text, c, d)
  {
    TextPremisesMeetExactly(text, c, d);
    if c == d {
      assert TextOperand(c) && c.value != List([]);
      if c.op == In {
        assert Stringify(c.value.items[0]) in Allowed(One(c)).value;
      } else {
        assert Stringify(c.value) in Allowed(One(c)).value;
      }
    } else if One(c) in TopLevel(a) {
      assert One(d) in TopLevel(b);
      OnePremiseAllows(a, pa, c);
      OnePremiseAllows(b, pb, d);
    } else {
      assert One(d) in TopLevel(a);
      OnePremiseAllows(b, pb, c);
      OnePremiseAllows(a, pa, d);
    }
  }

  lemma OnePremiseAllows(rule: Rule, p: Premises, c: Condition)
    requires ArePremises(p, TopLevel(rule)) && OnlyPremises(rule) && One(c) in TopLevel(rule)
    ensures c.field in p && p[c.field] == Allowed(One(c)).value
  {
    var field := c.field;
    assert IsPremise(One(c).cond);
    assert Constrains(TopLevel(rule), field);
    forall v
      ensures v in p[field] <==> v in Allowed(One(c)).value
    {
      assert v in p[field] <==> Allows(TopLevel(rule), field, v);
    }
  }

  function SingleCheck(id: string, c: Condition): Rule {
    Rule(id, Some(Group(Members([One(c)]), Absent)), AtLeaf(Leaf("r", None)))
  }

  /**
   For two rules of one premise each, over the same field: some facts make both applicable exactly when the premises
   meet. So T4's verdict that disjoint scopes never co-apply is right exactly when they do not.
   */
  lemma SingleChecksCoApplyExactly(text: FloatText, c: Condition, d: Condition)
    requires IsPremise(c) && IsPremise(d) && c.field == d.field
    ensures CoApply(text, SingleCheck("a", c), SingleCheck("b", d)) <==> Meets(text, c, d)
  {
    MeetsExactly(text, c, d);
    var a, b := SingleCheck("a", c), SingleCheck("b", d);
    if Meets(text, c, d) {
      var f :| Eval(text, f, c.op, c.value) && Eval(text, f, d.op, d.value);
      var facts: FactSet := map[c.field := f];
      SingleApplies(text, "a", c, facts);
      SingleApplies(text, "b", d, facts);
      assert Applies(text, facts, a.appliesIf) && Applies(text, facts, b.appliesIf);
    }
    if CoApply(text, a, b) {
      var facts :| Applies(text, facts, a.appliesIf) && Applies(text, facts, b.appliesIf);
      assert One(c) in TopLevel(a) && One(d) in TopLevel(b);
      if !Meets(text, c, d) {
        UnmetPremisesNeverCoApply(text, a, b, c.field, c, d, facts);
      }
    }
  }

  lemma SingleApplies(text: FloatText, id: string, c: Condition, facts: FactSet)
    ensures Applies(text, facts, SingleCheck(id, c).appliesIf) <==> Check(text, facts, c)
  {
    var items := [One(c)];
    assert FlatItems(items[1..]) == [];
    assert FlatItems(items) == [c];
  }

  /** `1` and `1.0` print differently, yet one fact equals both: disjoint premises, and both rules apply. */
  lemma NumericPremisesCanMislead(text: FloatText)
    ensures var (c, d) := (Condition("f", Eq, Dec(1, 0)), Condition("f", Eq, Dec(10, 1)));
            Misleading(text, SingleCheck("a", c), SingleCheck("b", d), "f", {"1:0"}, {"10:1"}, FInt(1))
  {
    var c, d := Condition("f", Eq, Dec(1, 0)), Condition("f", Eq, Dec(10, 1));
    DecimalsStringify();
    SinglePremise("a", c, "1:0");
    SinglePremise("b", d, "10:1");
    SingleApplies(text, "a", c, map["f" := FInt(1)]);
    SingleApplies(text, "b", d, map["f" := FInt(1)]);
    OneEqualsBoth(text, c, d);
  }

  lemma OneEqualsBoth(text: FloatText, c: Condition, d: Condition)
    requires c == Condition("f", Eq, Dec(1, 0)) && d == Condition("f", Eq, Dec(10, 1))
    ensures Check(text, map["f" := FInt(1)], c) && Check(text, map["f" := FInt(1)], d)
  {
    assert Decimals.Pow10(1) == 10 * Decimals.Pow10(0);
  }

  /** `true` is written one way by T4 and another by Python: `in [true]` and `in ["True"]` both hold of it. */
  lemma BooleanPremisesCanMislead(text: FloatText)
    ensures var (c, d) := (Condition("f", In, List([Bool(true)])), Condition("f", In, List([Str("True")])));
            Misleading(text, SingleCheck("a", c), SingleCheck("b", d), "f", {"true"}, {"True"}, FBool(true))
  {
    var c, d := Condition("f", In, List([Bool(true)])), Condition("f", In, List([Str("True")]));
    SinglePremise("a", c, "true");
    SinglePremise("b", d, "True");
    SingleApplies(text, "a", c, map["f" := FBool(true)]);
    SingleApplies(text, "b", d, map["f" := FBool(true)]);
    assert PyStrScalar(text, c.value.items[0]) == "True" && PyStrScalar(text, d.value.items[0]) == "True";
  }

  /** The premises of two rules on a field are disjoint, and yet this fact makes both applicable. */
  ghost predicate Misleading(text: FloatText, a: Rule, b: Rule, field: string, x: set<string>, y: set<string>, f: Fact) {
    ArePremises(map[field := x], TopLevel(a)) && ArePremises(map[field := y], TopLevel(b)) && x !! y &&
    Applies(text, map[field := f], a.appliesIf) && Applies(text, map[field := f], b.appliesIf)
  }

  lemma DecimalsStringify()
    ensures Stringify(Dec(1, 0)) == "1:0" && Stringify(Dec(10, 1)) == "10:1"
  {
    assert Decimals.Digits(0) == "0" && Decimals.Digits(1) == "1" && Decimals.Digits(10) == "10";
    assert Decimals.Zeros(0) == "";
    assert IntText(0) == "0" && IntText(1) == "1" && IntText(10) == "10";
  }

  lemma SinglePremise(id: string, c: Condition, value: string)
    requires IsPremise(c) && if c.op == Eq then Stringify(c.value) == value
                             else |c.value.items| == 1 && Stringify(c.value.items[0]) == value
    ensures ArePremises(map[c.field := {value}], TopLevel(SingleCheck(id, c)))
  {
    assert One(c) in TopLevel(SingleCheck(id, c));
  }
}
