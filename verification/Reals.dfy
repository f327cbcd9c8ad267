/** The product of two numbers, as a function that proofs may treat as a black box. */
module Reals {

  function RTimes(x: real, y: real): real
  {
    x * y
  }
}
