/** Several numeric comparisons on one field: whether one fact answers them all, decided on finitely many numbers. */
module Thresholds {
  import opened Wrappers
  import opened Facts
  import opened Exec

  predicate IsThreshold(c: Condition) {
    c.op in {Eq, NotEq, Gt, Lt, Gte, Lte} && OperandNumber(c.value).Some?
  }

  function Threshold(c: Condition): real
    requires IsThreshold(c)
  {
    OperandNumber(c.value).value
  }

  /** Only a number answers the comparison this way. */
  predicate NeedsNumber(b: Branch) {
    b.taken == (b.cond.op != NotEq)
  }

  /** Every condition on the field compares it with a number. */
  predicate OnlyThresholds(branches: seq<Branch>, field: string) {
    forall b | b in branches && b.cond.field == field :: IsThreshold(b.cond)
  }

  function ThresholdsOf(branches: seq<Branch>, field: string): set<real> {
    set b | b in branches && b.cond.field == field && IsThreshold(b.cond) :: Threshold(b.cond)
  }

  /** The thresholds, a point between any two of them, and a point beyond each. */
  function Candidates(ts: set<real>): set<real> {
    (set a, b | a in ts && b in ts :: (a + b) / 2.0) + (set a | a in ts :: a - 1.0) + (set a | a in ts :: a + 1.0)
  }

  predicate SameSide(r: real, c: real, t: real) {
    (r < t <==> c < t) && (t < r <==> t < c)
  }

  lemma {:induction false} Largest(ts: set<real>) returns (m: real)
    requires exists t :: t in ts
    ensures m in ts && forall t | t in ts :: t <= m
  {
    var t :| t in ts;
    var others := ts - {t};
    m := t;
    if exists u :: u in others {
      var rest := Largest(others);
      m := if t < rest then rest else t;
    }
    assert forall u | u in ts :: u == t || u in others;
  }

  lemma {:induction false} Smallest(ts: set<real>) returns (m: real)
    requires exists t :: t in ts
    ensures m in ts && forall t | t in ts :: m <= t
  {
    var t :| t in ts;
    var others := ts - {t};
    m := t;
    if exists u :: u in others {
      var rest := Smallest(others);
      m := if rest < t then rest else t;
    }
    assert forall u | u in ts :: u == t || u in others;
  }

  /** Every number lies as some candidate does, relative to every threshold. */
  lemma CandidateBeside(ts: set<real>, r: real) returns (c: real)
    requires exists t :: t in ts
    ensures c in Candidates(ts) && forall t | t in ts :: SameSide(r, c, t)
  {
    var below, above := set t | t in ts && t < r, set t | t in ts && r < t;
    if r in ts {
      c := (r + r) / 2.0;
    } else if l :| l in below {
      var lo := Largest(below);
      if h :| h in above {
        var hi := Smallest(above);
        c := (lo + hi) / 2.0;
        assert lo < r < hi && lo < c < hi;
      } else {
        c := lo + 1.0;
      }
    } else {
      var hi := Smallest(ts);
      c := hi - 1.0;
      assert forall t | t in ts :: r < t by {
        assert forall t | t in ts && t < r :: t in below;
      }
    }
    forall t | t in ts
      ensures SameSide(r, c, t)
    {
      assert t in below || t in above || t == r;
    }
  }

  predicate AnswersAt(text: FloatText, r: real, branches: seq<Branch>, field: string) {
    Answers(text, FFloat(r), branches, field)
  }

  /** Nothing on the field asks for a number, or a candidate answers all of it. */
  predicate SomeNumberAnswers(text: FloatText, branches: seq<Branch>, field: string) {
    (forall b | b in branches && b.cond.field == field :: !NeedsNumber(b)) ||
    exists c | c in Candidates(ThresholdsOf(branches, field)) :: AnswersAt(text, c, branches, field)
  }

  /** A threshold is met by a fact exactly as by the fact's number, and by nothing else that needs one. */
  lemma ThresholdReadsNumber(text: FloatText, f: Fact, b: Branch)
    requires IsThreshold(b.cond)
    ensures AsNumber(f).Some? ==> Eval(text, f, b.cond.op, b.cond.value) == Eval(text, FFloat(AsNumber(f).value), b.cond.op, b.cond.value)
    ensures AsNumber(f).None? ==> (Eval(text, f, b.cond.op, b.cond.value) == b.taken <==> !NeedsNumber(b))
  {
  }

  lemma SameSideSameVerdict(text: FloatText, r: real, c: real, b: Branch)
    requires IsThreshold(b.cond) && SameSide(r, c, Threshold(b.cond))
    ensures Eval(text, FFloat(r), b.cond.op, b.cond.value) == Eval(text, FFloat(c), b.cond.op, b.cond.value)
  {
  }

  /** One fact answers all the comparisons on a field exactly when none needs a number or a candidate answers them. */
  lemma ThresholdsAnswerableExactly(text: FloatText, branches: seq<Branch>, field: string)
    requires OnlyThresholds(branches, field)
    ensures Answerable(text, branches, field) <==> SomeNumberAnswers(text, branches, field)
  {
    if Answerable(text, branches, field) {
      AnswerIsCandidate(text, branches, field, SomeAnswer(text, branches, field));
    }
    if forall b | b in branches && b.cond.field == field :: !NeedsNumber(b) {
      forall b | b in branches && b.cond.field == field
        ensures Eval(text, Null, b.cond.op, b.cond.value) == b.taken
      {
        ThresholdReadsNumber(text, Null, b);
      }
      assert Answers(text, Null, branches, field);
    }
    if c :| c in Candidates(ThresholdsOf(branches, field)) && AnswersAt(text, c, branches, field) {
      assert Answers(text, FFloat(c), branches, field);
    }
  }

  lemma AnswerIsCandidate(text: FloatText, branches: seq<Branch>, field: string, f: Fact)
    requires OnlyThresholds(branches, field) && Answers(text, f, branches, field)
    ensures SomeNumberAnswers(text, branches, field)
  {
    if b :| b in branches && b.cond.field == field && NeedsNumber(b) {
      ThresholdReadsNumber(text, f, b);
      assert Threshold(b.cond) in ThresholdsOf(branches, field);
      var c := CandidateBeside(ThresholdsOf(branches, field), AsNumber(f).value);
      forall x | x in branches && x.cond.field == field
        ensures Eval(text, FFloat(c), x.cond.op, x.cond.value) == x.taken
      {
        ThresholdReadsNumber(text, f, x);
        assert Threshold(x.cond) in ThresholdsOf(branches, field);
        SameSideSameVerdict(text, AsNumber(f).value, c, x);
      }
      assert AnswersAt(text, c, branches, field);
    }
  }
}
