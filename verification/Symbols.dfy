/** Complex symbols, as they sit in a subframe grid. */
module Symbols {

  datatype Symbol = Symbol(re: real, im: real) {
    function Plus(other: Symbol): Symbol {
      Symbol(re + other.re, im + other.im)
    }
  }

  const ZERO := Symbol(0.0, 0.0)
}
