/** Exclusive or of bytes, as the stream and block ciphers use it. */
module Octets {
  function Xor(x: bv8, y: bv8): bv8 { x ^ y }

  lemma XorCancels(x: bv8, y: bv8)
    ensures Xor(Xor(x, y), y) == x
  {
  }
}
