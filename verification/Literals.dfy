/** The decimal literals the compiler reads, as a grammar, and the numbers they stand for. */
module Literals {
  import opened Wrappers
  import opened Decimals

  predicate Blank(s: string) {
    forall i | 0 <= i < |s| :: IsWhitespace(s[i])
  }

  /** An optional sign, then digits before or after an optional point. */
  predicate Spelled(t: string, sign: string, whole: string, pointed: bool, frac: string) {
    && t == sign + (whole + if pointed then "." + frac else "")
    && sign in {"", "+", "-"} && AllDigits(whole) && AllDigits(frac) && whole + frac != "" && (!pointed ==> frac == "")
  }

  /** The number the digits spell, and where the point falls. */
  function Number(sign: string, whole: string, frac: string): (int, nat)
    requires AllDigits(whole) && AllDigits(frac)
  {
    var n: int := Value(whole + frac);
    (if sign == "-" then -n else n, |frac|)
  }

  /** Digits count by their place, the leading one most. */
  lemma {:induction false} LeadingDigit(c: char, s: string)
    requires IsDigit(c) && AllDigits(s)
    ensures AllDigits([c] + s) && Value([c] + s) == (c as int - '0' as int) * Pow10(|s|) + Value(s)
  {
    var t := [c] + s;
    if s == "" {
      assert t[..0] == "";
    } else {
      var init := s[..|s| - 1];
      LeadingDigit(c, init);
      assert t[..|t| - 1] == [c] + init && t[|t| - 1] == s[|s| - 1];
      Shift(c as int - '0' as int, Pow10(|init|), Value(init));
    }
  }

  lemma Shift(d: int, p: int, v: int)
    ensures (d * p + v) * 10 == d * (10 * p) + v * 10
  {
  }

  // ---- blanks around a literal ----

  predicate Tight(t: string) {
    t != "" && !IsWhitespace(t[0]) && !IsWhitespace(t[|t| - 1])
  }

  lemma {:induction false} TrimsBlanks(before: string, t: string, after: string)
    requires Blank(before) && Blank(after) && Tight(t)
    ensures Trim(before + t + after) == t
    decreases |before| + |after|
  {
    var s := before + t + after;
    if before != "" {
      assert s[0] == before[0] && s[1..] == before[1..] + t + after;
      TrimsBlanks(before[1..], t, after);
    } else if after != "" {
      assert s[0] == t[0] && s[|s| - 1] == after[|after| - 1] && s[..|s| - 1] == before + t + after[..|after| - 1];
      TrimsBlanks(before, t, after[..|after| - 1]);
    } else {
      assert s == t;
    }
  }

  lemma {:induction false} TrimSplits(s: string) returns (before: string, after: string)
    ensures s == before + Trim(s) + after && Blank(before) && Blank(after)
    decreases |s|
  {
    if s == "" {
      before, after := "", "";
    } else if IsWhitespace(s[0]) {
      before, after := TrimSplits(s[1..]);
      before := [s[0]] + before;
    } else if IsWhitespace(s[|s| - 1]) {
      before, after := TrimSplits(s[..|s| - 1]);
      after := after + [s[|s| - 1]];
    } else {
      before, after := "", "";
    }
  }

  // ---- cutting ----

  lemma SpelledIsTight(t: string, sign: string, whole: string, pointed: bool, frac: string)
    requires Spelled(t, sign, whole, pointed, frac)
    ensures Tight(t)
  {
    var body := whole + if pointed then "." + frac else "";
    assert t[|t| - 1] == body[|body| - 1];
    if sign == "" {
      assert t == body;
    }
    assert IsDigit(body[0]) || body[0] == '.' by {
      if whole != "" { assert body[0] == whole[0]; }
    }
    assert IsDigit(body[|body| - 1]) || body[|body| - 1] == '.' by {
      if pointed && frac != "" { assert body[|body| - 1] == frac[|frac| - 1]; }
    }
  }

  /** Cutting goes by the sign, then by the first point. */
  lemma CutIs(t: string, neg: bool, body: string, point: nat)
    requires t != "" && (neg <==> t[0] == '-') && body == (if t[0] == '-' || t[0] == '+' then t[1..] else t) && point == IndexOf(body, '.')
    ensures Cut(t) == if point == |body| then Literal(neg, body, "") else Literal(neg, body[..point], body[point + 1..])
  {
  }

  lemma BodyOpens(body: string, whole: string, pointed: bool, frac: string)
    requires body == (whole + if pointed then "." + frac else "") && AllDigits(whole) && whole + frac != "" && (!pointed ==> frac == "")
    ensures body != "" && body[0] != '-' && body[0] != '+'
  {
    if whole != "" {
      assert body[0] == whole[0] && IsDigit(whole[0]);
    } else {
      assert body[0] == '.';
    }
  }

  lemma SpelledCuts(t: string, sign: string, whole: string, pointed: bool, frac: string)
    requires Spelled(t, sign, whole, pointed, frac)
    ensures Cut(t) == Literal(sign == "-", whole, frac)
  {
    var rest := if pointed then "." + frac else "";
    var body := whole + rest;
    BodyOpens(body, whole, pointed, frac);
    if sign == "" {
      assert t == body;
    } else {
      assert t[0] == sign[0] && t[1..] == body;
    }
    IndexOfFirst(whole, rest);
    CutIs(t, sign == "-", body, |whole|);
    if pointed {
      assert body[..|whole|] == whole && body[|whole| + 1..] == frac;
    } else {
      assert body == whole;
    }
  }

  /** Every text cut into digits is spelled by what it was cut into. */
  lemma CutSpells(t: string) returns (sign: string, pointed: bool)
    requires var lit := Cut(t); t != "" && lit.whole + lit.frac != "" && AllDigits(lit.whole) && AllDigits(lit.frac)
    ensures Spelled(t, sign, Cut(t).whole, pointed, Cut(t).frac) && (sign == "-" <==> Cut(t).neg)
  {
    var body;
    sign, body := SignSplits(t);
    pointed := PointSplits(body, Cut(t).whole, Cut(t).frac);
  }

  lemma SignSplits(t: string) returns (sign: string, body: string)
    requires t != ""
    ensures t == sign + body && sign in {"", "+", "-"} && (sign == "-" <==> Cut(t).neg)
    ensures var point := IndexOf(body, '.');
            if point == |body| then Cut(t).whole == body && Cut(t).frac == ""
            else Cut(t).whole == body[..point] && Cut(t).frac == body[point + 1..]
  {
    body := if t[0] == '-' || t[0] == '+' then t[1..] else t;
    sign := if t[0] == '-' then "-" else if t[0] == '+' then "+" else "";
    CutIs(t, t[0] == '-', body, IndexOf(body, '.'));
    assert t[0] == '-' || t[0] == '+' ==> t == [t[0]] + t[1..];
  }

  lemma PointSplits(body: string, whole: string, frac: string) returns (pointed: bool)
    requires var point := IndexOf(body, '.');
             if point == |body| then whole == body && frac == "" else whole == body[..point] && frac == body[point + 1..]
    ensures body == whole + (if pointed then "." + frac else "") && (!pointed ==> frac == "")
  {
    var point := IndexOf(body, '.');
    pointed := point != |body|;
    if pointed {
      assert body == body[..point] + ("." + body[point + 1..]);
    }
  }

  // ---- the grammar ----

  ghost predicate Denotes(s: string, d: Decimal) {
    exists before, t, sign, whole, pointed, frac, after ::
      Written(s, before, t, after) && Stands(t, sign, whole, pointed, frac, d)
  }

  predicate Stands(t: string, sign: string, whole: string, pointed: bool, frac: string, d: Decimal) {
    Spelled(t, sign, whole, pointed, frac) && |frac| <= 127 && Value(whole + frac) <= I128_MAX &&
    (d.mantissa, d.scale) == Number(sign, whole, frac)
  }

  predicate Written(s: string, before: string, t: string, after: string) {
    s == before + t + after && Blank(before) && Blank(after)
  }

  /** A literal parses exactly when it is spelled so, blanks around it aside, and its digits and places fit; to the number spelled. */
  lemma ParseExactly(s: string, d: Decimal)
    ensures Parse(s) == Some(d) <==> Denotes(s, d)
  {
    if Parse(s) == Some(d) {
      ParsedDenotes(s, d);
    }
    if Denotes(s, d) {
      var before, t, sign, whole, pointed, frac, after :| Written(s, before, t, after) && Stands(t, sign, whole, pointed, frac, d);
      SpelledParses(before, t, after, sign, whole, pointed, frac, d);
    }
  }

  lemma ParsedDenotes(s: string, d: Decimal)
    requires Parse(s) == Some(d)
    ensures Denotes(s, d)
  {
    var before, after := TrimSplits(s);
    var lit := Cut(Trim(s));
    LiteralIs(lit, d);
    var sign, pointed := CutSpells(Trim(s));
    assert Written(s, before, Trim(s), after) && Stands(Trim(s), sign, lit.whole, pointed, lit.frac, d);
  }

  lemma LiteralIs(lit: Literal, d: Decimal)
    ensures ParseLiteral(lit) == Some(d) <==>
            lit.whole + lit.frac != "" && AllDigits(lit.whole) && AllDigits(lit.frac) && |lit.frac| <= 127 &&
            Value(lit.whole + lit.frac) <= I128_MAX && (d.mantissa, d.scale) == Number(if lit.neg then "-" else "", lit.whole, lit.frac)
  {
  }

  lemma SpelledParses(before: string, t: string, after: string, sign: string, whole: string, pointed: bool, frac: string, d: Decimal)
    requires Blank(before) && Blank(after) && Stands(t, sign, whole, pointed, frac, d)
    ensures Parse(before + t + after) == Some(d)
  {
    SpelledIsTight(t, sign, whole, pointed, frac);
    TrimsBlanks(before, t, after);
    SpelledCuts(t, sign, whole, pointed, frac);
    LiteralIs(Cut(t), d);
  }
}
