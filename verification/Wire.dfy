/** Sixteen-bit fields as they travel: high byte first. */
module Wire {
  import opened Crc

  function Pack(v: word): seq<byte> {
    [v / 0x100, v % 0x100]
  }

  function Unpack(high: byte, low: byte): word {
    0x100 * high + low
  }
}
