/** Bytes as numbers below 256, the form in which they are stored, sent and received. */
module Octets {
  type Octet = n: nat | n < 256 witness 0

  /** The bits of a byte. */
  function ToBits(v: Octet): bv8 {
    v as bv8
  }

  function FromBits(b: bv8): Octet {
    b as nat
  }

  lemma BitsRoundTrip(b: bv8)
    ensures ToBits(FromBits(b)) == b
  {
  }
}
