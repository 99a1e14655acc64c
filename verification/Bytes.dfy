/** Bytes and the big-endian readers of the EVM code (eof.hpp). */
module Bytes {

  type byte = x: int | 0 <= x < 0x100

  type Code = seq<byte>

  const U16_LIMIT := 0x1_0000

  /** `read_uint16_be`: the two bytes at `i` as an unsigned number. */
  function U16(code: Code, i: nat): (r: int)
    requires i + 1 < |code|
    ensures 0 <= r < U16_LIMIT
  {
    (code[i] as int) * 0x100 + code[i + 1]
  }

  /** `read_int16_be`: the same two bytes as a two's-complement number. */
  function I16(code: Code, i: nat): (r: int)
    requires i + 1 < |code|
    ensures -0x8000 <= r < 0x8000
    ensures (r - U16(code, i)) % U16_LIMIT == 0
  {
    var u := U16(code, i);
    if u < 0x8000 then u else u - U16_LIMIT
  }

  /** The big-endian encoding of a 16-bit number. */
  function Be16(x: int): (b: Code)
    requires 0 <= x < U16_LIMIT
    ensures |b| == 2 && U16(b, 0) == x
  {
    [x / 0x100, x % 0x100]
  }

  /** A 16-bit number is determined by its two bytes. */
  lemma U16Bytes(code: Code, i: nat)
    requires i + 1 < |code|
    ensures code[i..i + 2] == Be16(U16(code, i))
  {
    assert code[i..i + 2] == [code[i], code[i + 1]];
  }

  /** `static_cast<int8_t>`. */
  function AsInt8(x: int): (r: int)
    ensures -0x80 <= r < 0x80 && (x - r) % 0x100 == 0
    ensures -0x80 <= x < 0x80 ==> r == x
  {
    (x + 0x80) % 0x100 - 0x80
  }

  /** Powers of 256. */
  function Pow256(n: nat): (r: nat)
    ensures r > 0
  {
    if n == 0 then 1 else 256 * Pow256(n - 1)
  }
}
