/** JavaScript numbers, with exact reals in place of the finite ones. */
module JsNumbers {

  datatype Number = NaN | PlusInfinity | MinusInfinity | Finite(value: real)

  /** `<=`: nothing compares with NaN. */
  predicate AtMost(a: Number, b: Number) {
    && !a.NaN? && !b.NaN?
    && (a.MinusInfinity? || b.PlusInfinity? || (a.Finite? && b.Finite? && a.value <= b.value))
  }
}
