/**
 Facts, operands and the condition semantics everything else rests on.

 Floating-point facts and fractional operands are exact rationals (`real`); the text Python's `str` gives a
 float is a parameter, so every result holds for every such rendering.
 */
module Facts {
  import opened Wrappers
  import opened Decimals
  import opened Strings

  datatype Operator = Eq | NotEq | In | NotIn | Gt | Lt | Gte | Lte | Exists

  datatype Scalar =
    | Str(text: string)
    | Bool(flag: bool)
    | Dec(mantissa: i128, scale: i8)
    | List(items: seq<Scalar>)

  datatype Fact =
    | Null
    | FBool(flag: bool)
    | FInt(n: int)
    | FFloat(r: real)
    | FStr(text: string)
    | FList(items: seq<Fact>)

  type FactSet = map<string, Fact>

  type FloatText = real -> string

  datatype Condition = Condition(field: string, op: Operator, value: Scalar)

  /** A missing fact and an explicit null are the same. */
  function Lookup(facts: FactSet, field: string): Fact {
    if field in facts then facts[field] else Null
  }

  // ---- numbers ----

  function DecimalReal(mantissa: int, scale: int): real {
    if scale <= 0 then (mantissa * Pow10(-scale)) as real else mantissa as real / Pow10(scale) as real
  }

  function AsNumber(f: Fact): Option<real> {
    match f
    case FInt(n) => Some(n as real)
    case FFloat(r) => Some(r)
    case FBool(b) => Some(if b then 1.0 else 0.0)
    case _ => None
  }

  function OperandNumber(v: Scalar): Option<real> {
    match v
    case Dec(m, s) => Some(DecimalReal(m, s))
    case Bool(b) => Some(if b then 1.0 else 0.0)
    case _ => None
  }

  // ---- Python str() ----

  function IntText(n: int): string {
    DecimalToString(n, 0)
  }

  function Joined(parts: seq<string>, separator: string): string {
    if parts == [] then "" else if |parts| == 1 then parts[0] else parts[0] + separator + Joined(parts[1..], separator)
  }

  function PyStrFact(text: FloatText, f: Fact): string
    decreases f, 0
  {
    match f
    case Null => "None"
    case FBool(b) => if b then "True" else "False"
    case FInt(n) => IntText(n)
    case FFloat(r) => text(r)
    case FStr(s) => s
    case FList(items) =>
      "[" + Joined(seq(|items|, i requires 0 <= i < |items| => PyReprFact(text, items[i])), ", ") + "]"
  }

  function PyReprFact(text: FloatText, f: Fact): string
    decreases f, 1
  {
    if f.FStr? then "'" + f.text + "'" else PyStrFact(text, f)
  }

  function PyStrScalar(text: FloatText, v: Scalar): string
    decreases v, 0
  {
    match v
    case Str(s) => s
    case Bool(b) => if b then "True" else "False"
    case Dec(m, s) => if s <= 0 then DecimalToString(m, s) else text(DecimalReal(m, s))
    case List(items) =>
      "[" + Joined(seq(|items|, i requires 0 <= i < |items| => PyReprScalar(text, items[i])), ", ") + "]"
  }

  function PyReprScalar(text: FloatText, v: Scalar): string
    decreases v, 1
  {
    if v.Str? then "'" + v.text + "'" else PyStrScalar(text, v)
  }

  // ---- compare::evaluate ----

  predicate EvalEq(f: Fact, v: Scalar)
    decreases v
  {
    if AsNumber(f).Some? && OperandNumber(v).Some? then AsNumber(f).value == OperandNumber(v).value
    else
      match (f, v)
      case (FStr(a), Str(b)) => a == b
      case (FList(a), List(b)) => |a| == |b| && forall i | 0 <= i < |a| :: EvalEq(a[i], b[i])
      case _ => false
  }

  predicate EvalGreater(f: Fact, v: Scalar) {
    if AsNumber(f).Some? && OperandNumber(v).Some? then AsNumber(f).value > OperandNumber(v).value
    else f.FStr? && v.Str? && StrLess(v.text, f.text)
  }

  predicate EvalLess(f: Fact, v: Scalar) {
    if AsNumber(f).Some? && OperandNumber(v).Some? then AsNumber(f).value < OperandNumber(v).value
    else f.FStr? && v.Str? && StrLess(f.text, v.text)
  }

  /** Ordering across types is a caught TypeError, hence false for every ordering operator. */
  predicate Comparable(f: Fact, v: Scalar) {
    (AsNumber(f).Some? && OperandNumber(v).Some?) || (f.FStr? && v.Str?)
  }

  predicate EvalIn(text: FloatText, f: Fact, v: Scalar) {
    v.List? && exists i | 0 <= i < |v.items| :: PyStrScalar(text, v.items[i]) == PyStrFact(text, f)
  }

  predicate Eval(text: FloatText, f: Fact, op: Operator, v: Scalar) {
    match op
    case Eq => EvalEq(f, v)
    case NotEq => !EvalEq(f, v)
    case In => EvalIn(text, f, v)
    case NotIn => !EvalIn(text, f, v)
    case Gt => EvalGreater(f, v)
    case Lt => EvalLess(f, v)
    case Gte => Comparable(f, v) && !EvalLess(f, v)
    case Lte => Comparable(f, v) && !EvalGreater(f, v)
    case Exists => f != Null
  }

  predicate Check(text: FloatText, facts: FactSet, c: Condition) {
    Eval(text, Lookup(facts, c.field), c.op, c.value)
  }
}
