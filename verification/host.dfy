/** The host's number facilities, kept abstract.

    The calculator keeps its operands as text and converts them to numbers only
    to compute.  Conversion and arithmetic are JavaScript doubles (`parseFloat`,
    `+ - * /`, `toString`); this module does not model IEEE arithmetic, it names
    the operations so that the engine can be stated over any host that provides
    them. */
module HostNumber {

  datatype Option<T> = None | Some(value: T)

  /** A number host over the value type `N`.
      - parse: `parseFloat`, with `None` for a NaN result
      - isZero: the test `x === 0` (true for both signed zeros)
      - add, sub, mul, div: the four arithmetic operators
      - hundred: the number 100 used by the percent key
      - show: `Number.prototype.toString` */
  datatype Host<!N> = Host(
    parse: string -> Option<N>,
    isZero: N -> bool,
    add: (N, N) -> N,
    sub: (N, N) -> N,
    mul: (N, N) -> N,
    div: (N, N) -> N,
    hundred: N,
    show: N -> string)
}
