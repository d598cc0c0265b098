/** Bytes and the numbers they stand for. */
module ByteNumbers {
  type Byte = bv8
  type Bytes = seq<Byte>

  lemma ByteRoundTrip(n: nat)
    requires n < 256
    ensures (n as bv8) as nat == n
  {
  }
}
