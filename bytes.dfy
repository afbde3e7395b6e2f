/** Go's `byte`: eight bits, arithmetic modulo 256. */
module Bytes {

  type byte = bv8

  lemma ByteRoundTrip(m: int)
    requires 0 <= m < 256
    ensures (m as bv8) as int == m
  {
  }

  /** Go's conversion `byte(x)` of an `int`: keeps the value modulo 256. */
  function ToByte(x: int): (r: byte)
    ensures r as int == x % 256
  {
    ByteRoundTrip(x % 256);
    (x % 256) as bv8
  }

  function Min(a: nat, b: nat): nat
  {
    if a < b then a else b
  }
}
