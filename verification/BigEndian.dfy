/** Fields of a byte string, as `struct.unpack_from` reads them. */
module BigEndian {
  import opened Bytes

  function U16(b: seq<Byte>, at: nat): nat
    requires at + 2 <= |b|
  {
    Be(b[at..at + 2])
  }

  function U32(b: seq<Byte>, at: nat): nat
    requires at + 4 <= |b|
  {
    Be(b[at..at + 4])
  }
}
