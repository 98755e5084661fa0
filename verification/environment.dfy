/** Values chosen by whatever the model does not contain: the operating system, a clock, other code. */
module Environment {

  /** Any value of the type; callers learn nothing about which. */
  method Arbitrary<T(0)>() returns (x: T) {
    x := *;
  }
}
