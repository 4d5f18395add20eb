/** The optional value of Rust's `Option<T>`. */
module Wrappers {
  datatype Option<+T> = None | Some(value: T)
}

/** Rust's `std::cmp::Ordering` and the `cmp` of a signed integer. */
module Cmp {
  datatype Ordering = Less | Equal | Greater {
    /** The ordering seen from the other operand (`Ordering::reverse`). */
    function Reverse(): (o: Ordering)
      ensures (this == Less) <==> (o == Greater)
      ensures (this == Equal) <==> (o == Equal)
    {
      match this
      case Less => Greater
      case Equal => Equal
      case Greater => Less
    }
  }

  /** `x.cmp(&y)` on integers. */
  function Compare(x: int, y: int): (o: Ordering)
    ensures o == Less <==> x < y
    ensures o == Equal <==> x == y
    ensures o == Greater <==> x > y
  {
    if x < y then Less else if x == y then Equal else Greater
  }
}
