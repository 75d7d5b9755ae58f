/**
  The JavaScript values that a field of an element record, or a query entry,
  can hold, and JavaScript strict equality (`===`) on them.
 */
module Values {

  /** A JavaScript number, up to what `===` can observe. `+0` and `-0` are one
      real here, as `===` does not tell them apart. */
  datatype Number = Finite(r: real) | Infinity(positive: bool) | NaN

  /** `undefined` (also what reading an absent optional field yields), `null`,
      and the number, string and boolean primitives. */
  datatype Val = Undef | Null | Num(n: Number) | Str(s: string) | Bool(b: bool)

  /** The sentinel the catalogue uses for "exists but is not well known".
      It is the string 'unknown' itself, not a value of its own: `===` cannot
      tell the sentinel from a field that holds that string. */
  const Unknown: Val := Str("unknown")

  /** `===` on numbers: NaN equals nothing, itself included. */
  predicate NumberStrictEquals(x: Number, y: Number)
  {
    match (x, y)
    case (Finite(a), Finite(b)) => a == b
    case (Infinity(p), Infinity(q)) => p == q
    case _ => false
  }

  /** `===`: false across types, then compared by value within a type. */
  predicate StrictEquals(a: Val, b: Val)
    ensures StrictEquals(a, b) <==> a == b && a != Num(NaN)
  {
    match (a, b)
    case (Undef, Undef) => true
    case (Null, Null) => true
    case (Num(x), Num(y)) => NumberStrictEquals(x, y)
    case (Str(x), Str(y)) => x == y
    case (Bool(x), Bool(y)) => x == y
    case _ => false
  }
}
