/** JavaScript numbers, as far as the models need them. */
module JsNumber {
  datatype Number = NonFinite | Finite(value: real)

  /** `Number.isInteger`. */
  predicate IsInteger(n: Number) { n.Finite? && n.value == n.value.Floor as real }
}
