/** The length of a QUIC variable-length integer (section 16 of RFC 9000). */
module Varint {

  const MaxVarInt1: int := 63
  const MaxVarInt2: int := 16383
  const MaxVarInt4: int := 1073741823

  /** quicvarint.Len, for values up to 2^62 - 1. */
  function Len(i: int): int {
    if i <= MaxVarInt1 then 1 else if i <= MaxVarInt2 then 2 else if i <= MaxVarInt4 then 4 else 8
  }
}
