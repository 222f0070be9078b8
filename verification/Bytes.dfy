/** Octets and big-endian numbers. */
module Bytes {

  type Byte = x: nat | x < 256

  type U16 = x: nat | x < 0x1_0000

  function Be16(n: U16): (b: seq<Byte>)
    ensures |b| == 2
  {
    [n / 256, n % 256]
  }

  function FromBe16(hi: Byte, lo: Byte): U16 {
    hi * 256 + lo
  }

  lemma Be16RoundTrip(n: U16)
    ensures FromBe16(Be16(n)[0], Be16(n)[1]) == n
  {
  }

  lemma FromBe16RoundTrip(b: seq<Byte>)
    requires |b| == 2
    ensures Be16(FromBe16(b[0], b[1])) == b
  {
  }
}
