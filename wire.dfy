/** Bytes and 16-bit words as the driver sees them on the I2C bus, and the
    bit tests it applies to single bytes. */
module Wire {

  type byte = x: int | 0 <= x < 0x100
  type u16 = x: int | 0 <= x < 0x1_0000

  /** get_unaligned_le16: the low byte is stored first, so the word's low
      and high bytes are the two bytes read. */
  function Le16(lo: byte, hi: byte): (v: u16)
    ensures v % 0x100 == lo && v / 0x100 == hi
  {
    lo + 0x100 * hi
  }

  /** The two bytes that store `v` little-endian; the partner of Le16. */
  function Le16Bytes(v: u16): (w: seq<byte>)
    ensures |w| == 2 && Le16(w[0], w[1]) == v
  {
    [v % 0x100, v / 0x100]
  }

  lemma Le16BytesOfLe16(lo: byte, hi: byte)
    ensures Le16Bytes(Le16(lo, hi)) == [lo, hi]
  {
  }

  /** The bytes of cpu_to_be16(v) in memory order: the high byte goes out first. */
  function Be16(v: u16): (w: seq<byte>)
    ensures |w| == 2
    ensures w[0] == v / 0x100 && w[1] == v % 0x100
    ensures 0x100 * (w[0] as int) + (w[1] as int) == v
  {
    [v / 0x100, v % 0x100]
  }

  // The driver's masks on a byte, written arithmetically: for 0 <= b < 256,
  // `b & 0x0f` is b mod 16, `b & 0x03` is b mod 4 and `(b & 0x80) != 0`
  // holds exactly when b >= 0x80.

  /** `b & 0x0f`: the low nibble, the part of the byte below 16 that the
      high nibble's multiple of 16 leaves over. */
  function LowNibble(b: byte): (n: nat)
    ensures n < 16 && n <= b && (b - n) % 16 == 0
  {
    b % 16
  }

  /** `(b & 0x80) != 0`: bit 7, the byte's top binary digit. */
  predicate Bit7(b: byte): (isSet: bool)
    ensures isSet <==> (b / 0x80) % 2 == 1
  {
    b >= 0x80
  }

  /** `b & 0x03`: the two low bits. */
  function Low2Bits(b: byte): (n: nat)
    ensures n < 4 && n <= b && (b - n) % 4 == 0
  {
    b % 4
  }

  /** The first `n` bytes of a byte stream. */
  function Take(f: nat -> byte, n: nat): (s: seq<byte>)
    ensures |s| == n
    ensures forall i :: 0 <= i < n ==> s[i] == f(i)
  {
    seq(n, (i: nat) => f(i))
  }
}
