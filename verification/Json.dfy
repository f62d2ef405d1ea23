/** JSON values and the accessors the rule code uses on them. */
module Json {
  import opened Wrappers
  import opened Strings

  type U64 = n: int | 0 <= n < 0x1_0000_0000_0000_0000
  type I64 = n: int | I64_MIN <= n <= I64_MAX
  type NegativeI64 = n: int | I64_MIN <= n < 0 witness -1

  /** A JSON number keeps the integer or floating form it was written in. */
  datatype Num = PosInt(u: U64) | NegInt(i: NegativeI64) | Float(r: real)

  datatype Value =
    | Null
    | Bool(b: bool)
    | Number(n: Num)
    | Str(s: string)
    | Array(elems: seq<Value>)
    | Object(fields: map<string, Value>)
  {
    function AsBool(): Option<bool> {
      if Bool? then Some(b) else None
    }

    function AsI64(): (r: Option<I64>)
    {
      match this
      case Number(PosInt(u)) => if u <= I64_MAX then Some(u) else None
      case Number(NegInt(i)) => Some(i)
      case _ => None
    }

    function AsStr(): Option<string> {
      if Str? then Some(s) else None
    }
  }

  function FromI64(n: I64): (v: Value)
    ensures v.AsI64() == Some(n)
  {
    if n >= 0 then Number(PosInt(n)) else Number(NegInt(n))
  }

  /** A float-to-i64 cast: toward zero, saturating at both ends. */
  function SaturatingCast(r: real): I64 {
    if r >= I64_MAX as real then I64_MAX
    else if r <= I64_MIN as real then I64_MIN
    else if r >= 0.0 then r.Floor
    else -((-r).Floor)
  }

  /**
   * `as_i64().or_else(|| as_f64() as i64)`. An unsigned value too large for i64 rounds to a float
   * of at least 2^63, so the cast saturates whatever the rounding.
   */
  function CoerceI64(n: Num): I64 {
    match n
    case PosInt(u) => if u <= I64_MAX then u else I64_MAX
    case NegInt(i) => i
    case Float(r) => SaturatingCast(r)
  }

  /** The strings of an array, in order; other elements are dropped. */
  function StringsOf(elems: seq<Value>): (strs: seq<string>)
    ensures forall s :: s in strs <==> Str(s) in elems
  {
    if elems == [] then []
    else
      var rest := StringsOf(elems[..|elems| - 1]);
      var last := elems[|elems| - 1];
      assert elems == elems[..|elems| - 1] + [last];
      if last.Str? then rest + [last.s] else rest
  }
}
