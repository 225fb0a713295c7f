/** The fixed-width integer conversions the adapter performs at the host boundary. */
module Ints {

  const TWO_32: int := 0x1_0000_0000
  const TWO_31: int := 0x8000_0000

  /** The host's ToInt32 on an integral number: wrap modulo 2^32 into the signed range. */
  function ToInt32(v: int): (r: int)
    ensures -TWO_31 <= r < TWO_31
    ensures (r - v) % TWO_32 == 0
  {
    var m := v % TWO_32;
    if m >= TWO_31 then m - TWO_32 else m
  }

  /** A C++ cast of a non-negative offset to `uint32_t`. */
  function ToUint32(v: nat): (r: nat)
    ensures r < TWO_32
    ensures (r - v) % TWO_32 == 0
  {
    v % TWO_32
  }

  /** Values already in the signed 32-bit range are left alone by ToInt32. */
  lemma ToInt32InRange(v: int)
    requires -TWO_31 <= v < TWO_31
    ensures ToInt32(v) == v
  {
  }

  /** Values already below 2^32 are left alone by the unsigned cast. */
  lemma ToUint32InRange(v: nat)
    requires v < TWO_32
    ensures ToUint32(v) == v
  {
  }
}
