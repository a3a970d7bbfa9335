/** The few JavaScript number operations the handlers use, on unbounded reals. */
module JsNum {
  import opened Options

  /** A numeric request field as it arrives: absent (`undefined`), text
      that does not read as a number, or a value that reads as a number,
      sent either as a JSON number (`text` false) or as non-empty text such
      as "0" (`text` true). */
  datatype NumInput = Missing | Garbage | Num(value: real, text: bool)

  /** JavaScript truthiness: absent and the number zero are false; any other
      number and any non-empty text, "0" included, are true. */
  predicate Truthy(x: NumInput)
  {
    match x
    case Missing => false
    case Garbage => true
    case Num(v, text) => text || v != 0.0
  }

  /** `Number(x)`: the value, or None for NaN. */
  function ToNumber(x: NumInput): (r: Option<real>)
    ensures r.Some? <==> x.Num?
  {
    if x.Num? then Some(x.value) else None
  }

  /** `a || b` on two request fields. */
  function Or(a: NumInput, b: NumInput): (r: NumInput)
    ensures Truthy(a) ==> r == a
    ensures !Truthy(a) ==> r == b
  {
    if Truthy(a) then a else b
  }

  /** `Number(a || d)` for a number `d`: the value of `a` when `a` is
      truthy, else `d`; None (NaN) for text that is not a number. */
  function OrNumber(a: NumInput, d: real): (r: Option<real>)
    ensures a.Garbage? <==> r.None?
    ensures Truthy(a) && a.Num? ==> r == Some(a.value)
    ensures !Truthy(a) ==> r == Some(d)
  {
    ToNumber(Or(a, Num(d, false)))
  }

  /** Numeric text is truthy even when it reads as zero, so `a || d` and
      `Number(a) || d` part ways on "0". */
  lemma ZeroTextKeepsZero(d: real)
    requires d != 0.0
    ensures OrNumber(Num(0.0, true), d) == Some(0.0)
    ensures NumberOr(Num(0.0, true), d) == d
    ensures OrNumber(Num(0.0, false), d) == Some(d)
  {
  }

  /** `Number(a) || d`: the number when it is a non-zero number, else `d`. */
  function NumberOr(a: NumInput, d: real): (r: real)
    ensures a.Num? && a.value != 0.0 ==> r == a.value
    ensures !(a.Num? && a.value != 0.0) ==> r == d
  {
    if a.Num? && a.value != 0.0 then a.value else d
  }

  /** `Math.round`: the nearest integer, a half rounded towards +infinity. */
  function Round(x: real): (r: int)
    ensures r as real - 0.5 <= x < r as real + 0.5
  {
    (x + 0.5).Floor
  }

  /** `Math.max` on two numbers. */
  function Max(a: real, b: real): (r: real)
    ensures r >= a && r >= b
    ensures r == a || r == b
  {
    if a >= b then a else b
  }

  /** `Math.min` on two integers. */
  function MinInt(a: int, b: int): (r: int)
    ensures r <= a && r <= b
    ensures r == a || r == b
  {
    if a <= b then a else b
  }
}
