/** Bytes and the big-endian ("network order") 16-bit header both ends of the stream agree on. */
module Bytes {
  newtype byte = b: int | 0 <= b < 0x100

  type uint16 = n: int | 0 <= n < 0x1_0000

  /** Host value of two bytes that arrived in network order. */
  function Ntohs(first: byte, second: byte): (n: uint16) {
    first as int * 0x100 + second as int
  }

  /** The two bytes of a host value, most significant first. */
  function Htons(n: uint16): (header: seq<byte>)
    ensures |header| == 2
  {
    [(n / 0x100) as byte, (n % 0x100) as byte]
  }

  lemma NtohsHtons(n: uint16)
    ensures Ntohs(Htons(n)[0], Htons(n)[1]) == n
  {}
}
