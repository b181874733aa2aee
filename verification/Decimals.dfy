/**
 Exact decimals: the printer of the preview runtime, the parser of the compiler, and the canonicalising
 parser of the intent-spec command.
 */
module Decimals {
  import opened Wrappers

  const I128_MAX: int := 0x7fff_ffff_ffff_ffff_ffff_ffff_ffff_ffff
  type i128 = x: int | -I128_MAX - 1 <= x <= I128_MAX
  type i8 = x: int | -0x80 <= x < 0x80

  /** `mantissa * 10^-scale`. */
  datatype Decimal = Decimal(mantissa: i128, scale: i8)

  // ---- digits ----

  function Pow10(n: nat): (p: nat)
    ensures p > 0
  {
    if n == 0 then 1 else 10 * Pow10(n - 1)
  }

  predicate IsDigit(c: char) {
    '0' <= c <= '9'
  }

  predicate AllDigits(s: string) {
    forall i :: 0 <= i < |s| ==> IsDigit(s[i])
  }

  function Digits(n: nat): (s: string)
    ensures |s| > 0 && AllDigits(s)
  {
    var last := [('0' as int + n % 10) as char];
    if n < 10 then last else Digits(n / 10) + last
  }

  function Value(s: string): nat
    requires AllDigits(s)
  {
    if s == "" then 0 else Value(s[..|s| - 1]) * 10 + (s[|s| - 1] as int - '0' as int)
  }

  function Zeros(n: nat): (s: string)
    ensures |s| == n && forall i :: 0 <= i < n ==> s[i] == '0'
  {
    seq(n, _ => '0')
  }

  lemma {:induction false} ValueOfDigits(n: nat)
    ensures Value(Digits(n)) == n
  {
    var s := Digits(n);
    if n >= 10 {
      ValueOfDigits(n / 10);
      assert s[..|s| - 1] == Digits(n / 10);
    }
  }

  lemma {:induction false} LeadingZeros(n: nat, s: string)
    requires AllDigits(s)
    ensures AllDigits(Zeros(n) + s) && Value(Zeros(n) + s) == Value(s)
    decreases n + |s|
  {
    var z := Zeros(n) + s;
    if s != "" {
      LeadingZeros(n, s[..|s| - 1]);
      assert z[..|z| - 1] == Zeros(n) + s[..|s| - 1];
    } else if n > 0 {
      LeadingZeros(n - 1, s);
      assert z[..|z| - 1] == Zeros(n - 1) + s;
    }
  }

  // ---- decimal_to_string ----

  function Abs(n: int): nat {
    if n < 0 then -n else n
  }

  function Signed(neg: bool, body: string): string {
    if neg then "-" + body else body
  }

  function Magnitude(digits: string, scale: int): string {
    if scale <= 0 then digits + Zeros(-scale)
    else if |digits| <= scale then "0." + Zeros(scale - |digits|) + digits
    else digits[..|digits| - scale] + "." + digits[|digits| - scale..]
  }

  function DecimalToString(mantissa: int, scale: int): string {
    Signed(mantissa < 0, Magnitude(Digits(Abs(mantissa)), scale))
  }

  // ---- parse_decimal ----

  predicate IsWhitespace(c: char) {
    var n := c as int;
    9 <= n <= 13 || n == 0x20 || n == 0x85 || n == 0xa0 || n == 0x1680 || 0x2000 <= n <= 0x200a
    || n == 0x2028 || n == 0x2029 || n == 0x202f || n == 0x205f || n == 0x3000
  }

  function Trim(s: string): string {
    if s == "" then s
    else if IsWhitespace(s[0]) then Trim(s[1..])
    else if IsWhitespace(s[|s| - 1]) then Trim(s[..|s| - 1])
    else s
  }

  function IndexOf(s: string, c: char): (i: nat)
    ensures i <= |s| && (i < |s| ==> s[i] == c) && c !in s[..i]
  {
    if s == "" || s[0] == c then 0 else 1 + IndexOf(s[1..], c)
  }

  /** A literal cut at its sign and at its first point. */
  datatype Literal = Literal(neg: bool, whole: string, frac: string)

  function Cut(t: string): Literal {
    var neg := t != "" && t[0] == '-';
    var body := if t != "" && t[0] in {'-', '+'} then t[1..] else t;
    var point := IndexOf(body, '.');
    if point == |body| then Literal(neg, body, "") else Literal(neg, body[..point], body[point + 1..])
  }

  function Parse(s: string): Option<Decimal> {
    var t := Trim(s);
    if t == "" then None else ParseLiteral(Cut(t))
  }

  function ParseLiteral(lit: Literal): Option<Decimal> {
    if lit.whole == "" && lit.frac == "" then None
    else if !AllDigits(lit.whole) || !AllDigits(lit.frac) then None
    else
      var n: int := Value(lit.whole + lit.frac);
      if n > I128_MAX then None
      else if |lit.frac| > 127 then None
      else Some(Decimal(if lit.neg then -n else n, |lit.frac|))
  }

  // ---- the round trip ----

  lemma TrimKeeps(s: string)
    requires s != "" && !IsWhitespace(s[0]) && !IsWhitespace(s[|s| - 1])
    ensures Trim(s) == s
  {
  }

  lemma {:induction false} IndexOfFirst(a: string, rest: string)
    requires AllDigits(a) && (rest == "" || rest[0] == '.')
    ensures IndexOf(a + rest, '.') == |a|
  {
    if a == "" {
      assert a + rest == rest;
    } else {
      IndexOfFirst(a[1..], rest);
      assert (a + rest)[0] == a[0] && (a + rest)[1..] == a[1..] + rest;
    }
  }

  function Fraction(frac: string): string {
    if frac == "" then "" else "." + frac
  }

  lemma CutsUnsigned(whole: string, frac: string)
    requires AllDigits(whole) && AllDigits(frac) && whole != ""
    ensures var body := whole + Fraction(frac);
            IsDigit(body[0]) && IsDigit(body[|body| - 1]) && Cut(body) == Literal(false, whole, frac)
  {
    var body := whole + Fraction(frac);
    IndexOfFirst(whole, Fraction(frac));
    assert body[0] == whole[0];
    if frac == "" {
      assert body == whole;
    } else {
      assert body[|body| - 1] == frac[|frac| - 1];
      assert body[..|whole|] == whole && body[|whole| + 1..] == frac;
    }
  }

  /** What the printer writes: an optional sign, digits, and a fraction when there is one. */
  lemma ParsesPieces(neg: bool, whole: string, frac: string)
    requires AllDigits(whole) && AllDigits(frac) && whole != ""
    ensures var s := Signed(neg, whole + Fraction(frac));
            Trim(s) == s && s != "" && Cut(s) == Literal(neg, whole, frac)
  {
    CutsUnsigned(whole, frac);
    CutsSigned(neg, whole + Fraction(frac));
  }

  lemma CutsSigned(neg: bool, body: string)
    requires body != "" && IsDigit(body[0]) && IsDigit(body[|body| - 1])
    ensures var s := Signed(neg, body);
            s != "" && Trim(s) == s && Cut(s) == Cut(body).(neg := neg)
  {
    var s := Signed(neg, body);
    assert s[|s| - 1] == body[|body| - 1];
    TrimKeeps(s);
    if neg {
      assert s[1..] == body;
    }
  }

  /** Printing then parsing is the identity, except that the least i128 has no parsable magnitude. */
  lemma PrintParse(mantissa: i128, scale: i8)
    requires 0 <= scale
    ensures Parse(DecimalToString(mantissa, scale)) ==
            if mantissa == -I128_MAX - 1 then None else Some(Decimal(mantissa, scale))
  {
    ValueOfDigits(Abs(mantissa));
    var whole, frac := MagnitudePieces(Digits(Abs(mantissa)), scale);
    ParsesNumber(mantissa, whole, frac);
  }

  lemma MagnitudePieces(digits: string, scale: nat) returns (whole: string, frac: string)
    requires AllDigits(digits) && digits != ""
    ensures AllDigits(whole) && AllDigits(frac) && whole != "" && |frac| == scale
    ensures Value(whole + frac) == Value(digits)
    ensures Magnitude(digits, scale) == whole + Fraction(frac)
  {
    if scale == 0 {
      whole, frac := digits, "";
      assert digits + "" == digits && digits + Zeros(0) == digits;
    } else if |digits| <= scale {
      whole, frac := "0", Zeros(scale - |digits|) + digits;
      LeadingZeros(1 + scale - |digits|, digits);
      assert whole + frac == Zeros(1 + scale - |digits|) + digits;
      assert "0" + ("." + frac) == "0." + Zeros(scale - |digits|) + digits;
    } else {
      var point := |digits| - scale;
      whole, frac := digits[..point], digits[point..];
      assert whole + frac == digits;
      assert whole + ("." + frac) == whole + "." + frac;
    }
  }

  lemma ParsesNumber(n: int, whole: string, frac: string)
    requires AllDigits(whole) && AllDigits(frac) && whole != "" && |frac| <= 127
    requires AllDigits(whole + frac) && Value(whole + frac) == Abs(n)
    ensures Parse(Signed(n < 0, whole + Fraction(frac))) ==
            if Abs(n) > I128_MAX then None else Some(Decimal(n, |frac|))
  {
    ParsesPieces(n < 0, whole, frac);
    ParsesLiteral(n, whole, frac);
  }

  lemma ParsesLiteral(n: int, whole: string, frac: string)
    requires AllDigits(whole) && AllDigits(frac) && whole != "" && |frac| <= 127
    requires AllDigits(whole + frac) && Value(whole + frac) == Abs(n)
    ensures ParseLiteral(Literal(n < 0, whole, frac)) ==
            if Abs(n) > I128_MAX then None else Some(Decimal(n, |frac|))
  {
  }

  /** A negative scale prints as the integer it denotes. */
  lemma PrintNegativeScale(mantissa: int, scale: int)
    requires scale <= 0 && Abs(mantissa * Pow10(-scale)) <= I128_MAX
    ensures Parse(DecimalToString(mantissa, scale)) == Some(Decimal(mantissa * Pow10(-scale), 0))
  {
    var digits := Digits(Abs(mantissa));
    ValueOfDigits(Abs(mantissa));
    TrailingZeros(digits, -scale);
    PositivePower(mantissa, -scale);
    var whole := digits + Zeros(-scale);
    assert whole + "" == whole;
    ParsesNumber(mantissa * Pow10(-scale), whole, "");
  }

  lemma PositivePower(m: int, n: nat)
    ensures Abs(m * Pow10(n)) == Abs(m) * Pow10(n) && (m < 0 <==> m * Pow10(n) < 0)
  {
  }

  lemma {:induction false} TrailingZeros(s: string, n: nat)
    requires AllDigits(s)
    ensures AllDigits(s + Zeros(n)) && Value(s + Zeros(n)) == Value(s) * Pow10(n)
  {
    var z := s + Zeros(n);
    if n == 0 {
      assert z == s;
    } else {
      TrailingZeros(s, n - 1);
      assert z[..|z| - 1] == s + Zeros(n - 1);
    }
  }

  // ---- canonical form ----

  /** `a` and `b` denote the same rational number (scales are never negative after parsing). */
  ghost predicate SameNumber(a: Decimal, b: Decimal)
    requires a.scale >= 0 && b.scale >= 0
  {
    a.mantissa * Pow10(b.scale) == b.mantissa * Pow10(a.scale)
  }

  predicate Canonical(d: Decimal) {
    d.scale >= 0 && (d.mantissa == 0 ==> d.scale == 0) && (d.scale > 0 ==> d.mantissa % 10 != 0)
  }

  /** Fold to canonical form: strip trailing zeros; zero has scale 0. Every division here is exact. */
  function Fold(d: Decimal): (c: Decimal)
    requires d.scale >= 0
    decreases d.scale
  {
    if d.scale > 0 && d.mantissa % 10 == 0 then Fold(Decimal(d.mantissa / 10, d.scale - 1))
    else if d.mantissa == 0 then Decimal(0, 0)
    else d
  }

  lemma {:induction false} FoldIsCanonical(d: Decimal)
    requires d.scale >= 0
    ensures Canonical(Fold(d)) && SameNumber(d, Fold(d))
    decreases d.scale
  {
    if d.scale > 0 && d.mantissa % 10 == 0 {
      var e := Decimal(d.mantissa / 10, d.scale - 1);
      FoldIsCanonical(e);
      TimesTen(e.mantissa, Pow10(Fold(e).scale), Fold(e).mantissa, Pow10(e.scale));
    }
  }

  lemma TimesTen(a: int, b: int, c: int, d: int)
    requires a * b == c * d
    ensures (10 * a) * b == c * (10 * d)
  {
  }

  lemma Rotate(x: int, y: int, z: int)
    ensures x * y * z == x * z * y
  {
  }

  lemma {:induction false} PowSplit(m: nat, n: nat)
    ensures Pow10(m + n) == Pow10(m) * Pow10(n)
  {
    if m > 0 {
      PowSplit(m - 1, n);
    }
  }

  lemma ScaleUp(a: Decimal, b: Decimal)
    requires 0 <= a.scale <= b.scale && SameNumber(a, b)
    ensures b.mantissa == a.mantissa * Pow10(b.scale - a.scale)
  {
    var p, q := Pow10(a.scale), Pow10(b.scale - a.scale);
    PowSplit(b.scale - a.scale, a.scale);
    Regroup(a.mantissa, q, p);
    Cancel(a.mantissa * q, b.mantissa, p);
  }

  lemma Regroup(x: int, y: int, z: int)
    ensures x * (y * z) == x * y * z
  {
  }

  lemma Cancel(x: int, y: int, p: int)
    requires p > 0 && x * p == y * p
    ensures x == y
  {
  }

  lemma CanonicalUnique(a: Decimal, b: Decimal)
    requires Canonical(a) && Canonical(b) && SameNumber(a, b)
    ensures a == b
  {
    if a.scale <= b.scale {
      CanonicalUniqueOrdered(a, b);
    } else {
      CanonicalUniqueOrdered(b, a);
    }
  }

  lemma CanonicalUniqueOrdered(a: Decimal, b: Decimal)
    requires Canonical(a) && Canonical(b) && SameNumber(a, b) && a.scale <= b.scale
    ensures a == b
  {
    ScaleUp(a, b);
    if a.scale < b.scale {
      TenDivides(a.mantissa, b.scale - a.scale);
    }
  }

  lemma TenDivides(m: int, n: nat)
    requires n > 0
    ensures (m * Pow10(n)) % 10 == 0
  {
    PullTen(m, Pow10(n - 1));
    TenMultiple(m * Pow10(n - 1));
  }

  lemma PullTen(m: int, p: int)
    ensures m * (10 * p) == 10 * (m * p)
  {
  }

  lemma TenMultiple(k: int)
    ensures (10 * k) % 10 == 0
  {
  }

  lemma SameNumberTrans(a: Decimal, b: Decimal, c: Decimal)
    requires a.scale >= 0 && b.scale >= 0 && c.scale >= 0 && SameNumber(a, b) && SameNumber(b, c)
    ensures SameNumber(a, c)
  {
    CrossMultiply(a.mantissa, b.mantissa, c.mantissa, Pow10(a.scale), Pow10(b.scale), Pow10(c.scale));
  }

  lemma CrossMultiply(a: int, b: int, c: int, p: int, q: int, r: int)
    requires q > 0 && a * q == b * p && b * r == c * q
    ensures a * r == c * p
  {
    calc {
      a * r * q;
      { Rotate(a, r, q); }
      b * p * r;
      { Rotate(b, p, r); }
      c * q * p;
      { Rotate(c, q, p); }
      c * p * q;
    }
    Cancel(a * r, c * p, q);
  }

  /** Two parsed decimals denote the same number exactly when they fold to the same value. */
  lemma FoldDecidesEquality(a: Decimal, b: Decimal)
    requires a.scale >= 0 && b.scale >= 0
    ensures SameNumber(a, b) <==> Fold(a) == Fold(b)
  {
    FoldIsCanonical(a);
    FoldIsCanonical(b);
    if SameNumber(a, b) {
      SameNumberTrans(Fold(a), a, b);
      SameNumberTrans(Fold(a), b, Fold(b));
      CanonicalUnique(Fold(a), Fold(b));
    } else if Fold(a) == Fold(b) {
      SameNumberTrans(a, Fold(a), b);
    }
  }

  // ---- the intent-spec parser ----

  datatype DecimalError = Empty | NoDigits | NonDigit | TooManyFractionDigits | Overflow

  /** Accepts the compiler's literals and no others, and returns the same number in canonical form. */
  method ParseCanonical(s: string) returns (r: Result<Decimal, DecimalError>)
    ensures r.Ok? <==> Parse(s).Some?
    ensures r.Ok? ==> Canonical(r.value) && SameNumber(r.value, Parse(s).value) && r.value == Fold(Parse(s).value)
    ensures r == Err(Empty) <==> forall i :: 0 <= i < |s| ==> IsWhitespace(s[i])
    ensures r == Err(TooManyFractionDigits) ==> |Cut(Trim(s)).frac| > 127
    ensures r == Err(Overflow) ==> AllDigits(Cut(Trim(s)).whole + Cut(Trim(s)).frac)
                                   && Value(Cut(Trim(s)).whole + Cut(Trim(s)).frac) > I128_MAX
  {
    var t := Trim(s);
    TrimEmpty(s);
    if t == "" {
      return Err(Empty);
    }
    var lit := Cut(t);
    if lit.whole == "" && lit.frac == "" {
      return Err(NoDigits);
    }
    if !AllDigits(lit.whole) || !AllDigits(lit.frac) {
      return Err(NonDigit);
    }
    if |lit.frac| > 127 {
      return Err(TooManyFractionDigits);
    }
    var n: int := Value(lit.whole + lit.frac);
    if n > I128_MAX {
      return Err(Overflow);
    }
    var mantissa: i128, scale: i8 := n, |lit.frac|;
    if lit.neg {
      mantissa := -n;
    }
    ghost var parsed := Decimal(mantissa, scale);
    assert Parse(s) == Some(parsed);
    while scale > 0 && mantissa % 10 == 0
      invariant scale >= 0 && Fold(Decimal(mantissa, scale)) == Fold(parsed)
    {
      mantissa := mantissa / 10;
      scale := scale - 1;
    }
    if mantissa == 0 {
      scale := 0;
    }
    FoldIsCanonical(parsed);
    r := Ok(Decimal(mantissa, scale));
  }

  lemma {:induction false} TrimEmpty(s: string)
    ensures Trim(s) == "" <==> forall i :: 0 <= i < |s| ==> IsWhitespace(s[i])
    decreases |s|
  {
    if s != "" && IsWhitespace(s[0]) {
      TrimEmpty(s[1..]);
      assert forall i :: 1 <= i < |s| ==> s[i] == s[1..][i - 1];
    } else if s != "" && IsWhitespace(s[|s| - 1]) {
      TrimEmpty(s[..|s| - 1]);
    }
  }
}
