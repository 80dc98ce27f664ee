/** Small value types shared by the models of JavaScript code. */
module JsValues {

  datatype Option<+T> = None | Some(value: T)

  /** What `Number(x)` can produce. */
  datatype Num = NaN | Infinity(negative: bool) | Fin(value: real)

  /** `a === b` on numbers: NaN equals nothing. */
  predicate NumEq(a: Num, b: Num) {
    !a.NaN? && a == b
  }

  /** `a >= b` on numbers. */
  predicate NumGe(a: Num, b: Num) {
    match (a, b)
    case (NaN, _) => false
    case (_, NaN) => false
    case (Fin(x), Fin(y)) => x >= y
    case (Infinity(n), _) => !n || b == Infinity(true)
    case (_, Infinity(n)) => n
  }

  predicate IsInteger(a: Num) {
    a.Fin? && a.value.Floor as real == a.value
  }

  /** One octet. */
  type Byte = b: int | 0 <= b < 256
}
