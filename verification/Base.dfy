// Machine integers and the small result types every other module uses.
module Base {
  const TWO_64: int := 0x1_0000_0000_0000_0000

  type u64 = x: int | 0 <= x < 0x1_0000_0000_0000_0000

  type i64 = x: int | -0x8000_0000_0000_0000 <= x < 0x8000_0000_0000_0000

  datatype Option<+T> = None | Some(value: T)

  // Go's `x++` on a uint64 wraps around.
  function Increment(x: u64): u64 {
    (x + 1) % TWO_64
  }

  // Go's two's-complement result of an int64 operation.
  function WrapI64(x: int): i64 {
    (x + 0x8000_0000_0000_0000) % TWO_64 - 0x8000_0000_0000_0000
  }
}
