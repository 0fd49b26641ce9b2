/** The values a field of a parsed JSON request body can hold, as far as the
    server's checks can tell them apart, and JavaScript's truthiness on them. */
module Json {

  /** `Absent` is a field the body does not have (JavaScript's `undefined`);
      `Int` is a finite number with no fractional part (what
      `Number.isInteger` accepts); `Fraction` is any other number, including
      the Infinity that `JSON.parse` makes of an out-of-range literal such as
      `1e400` (every check treats the two alike: truthy, not an integer);
      `Composite` is an array or an object. */
  datatype Value =
    | Absent
    | Null
    | Bool(b: bool)
    | Int(n: int)
    | Fraction
    | Str(s: string)
    | Composite

  /** JavaScript's `!!v`: `undefined`, `null`, `false`, `0` and `""` are falsy;
      every other value (a non-integral number is never zero) is truthy. */
  predicate Truthy(v: Value)
  {
    match v
    case Absent => false
    case Null => false
    case Bool(b) => b
    case Int(n) => n != 0
    case Fraction => true
    case Str(s) => s != ""
    case Composite => true
  }
}
