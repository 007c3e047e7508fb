/** The optional value used wherever the source returns a null pointer, wxNOT_FOUND or
    an absent editor. */
module Wrappers {

  datatype Option<+T> = None | Some(value: T)

  /** The unsigned 32-bit integers of `unsigned int` and `unsigned` fields. */
  newtype u32 = x: int | 0 <= x < 0x1_0000_0000

  /** C++'s conversion of a signed `int` to `unsigned int`: reduction modulo 2^32. */
  function ToU32(x: int): (r: u32)
    ensures 0 <= x < 0x1_0000_0000 ==> r as int == x
    ensures (r as int - x) % 0x1_0000_0000 == 0
  {
    (x % 0x1_0000_0000) as u32
  }
}
