/**
 * The two JavaScript number builtins the core calls. Their internals are not
 * modelled; every operation that uses them takes them as parameters.
 * Numbers are reals; NaN is `None`. Infinities are not modelled.
 */
module Numbers {
  import opened Wrappers

  /** What `parseFloat` makes of a string: a number, or None for NaN. */
  type NumberParser = string -> Option<real>

  /** What `Number.prototype.toString` makes of a (non-NaN) number. */
  type NumberPrinter = real -> string

  /** What `NaN.toString()` returns. */
  const NaNText: string := "NaN"
}
