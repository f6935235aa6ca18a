/** The 32-bit Morton (Z-order) code of Assignment1/B/code.c: the low 16 bits of x
    go to the even bit positions of the code and the low 16 bits of y to the odd
    ones. */
module Morton {

  /** Spreads the low 16 bits of v apart, bit k moving to bit 2k, by the four
      shift-or-mask steps morton_encode applies to each coordinate. */
  function Spread(v: bv32): bv32 {
    var v1 := (v | (v << 8)) & 0x00FF_00FF;
    var v2 := (v1 | (v1 << 4)) & 0x0F0F_0F0F;
    var v3 := (v2 | (v2 << 2)) & 0x3333_3333;
    (v3 | (v3 << 1)) & 0x5555_5555
  }

  /** morton_encode: decoding the code recovers the low 16 bits of both
      coordinates. */
  function Encode(x: bv32, y: bv32): (z: bv32)
    ensures Decode(z) == (x & 0xFFFF, y & 0xFFFF)
  {
    CompactSpread(x);
    CompactSpread(y);
    SpreadEven(x);
    SpreadEven(y);
    Spread(x & 0xFFFF) | (Spread(y & 0xFFFF) << 1)
  }

  /** Gathers the even bits of z into the low 16 bits: the inverse of Spread. */
  function Compact(z: bv32): bv32 {
    var z0 := z & 0x5555_5555;
    var z1 := (z0 | (z0 >> 1)) & 0x3333_3333;
    var z2 := (z1 | (z1 >> 2)) & 0x0F0F_0F0F;
    var z3 := (z2 | (z2 >> 4)) & 0x00FF_00FF;
    (z3 | (z3 >> 8)) & 0x0000_FFFF
  }

  /** The coordinates a code stands for. */
  function Decode(z: bv32): (bv32, bv32) {
    (Compact(z), Compact(z >> 1))
  }

  /** Only the low 16 bits of each coordinate matter. */
  lemma EncodeLow16(x: bv32, y: bv32)
    ensures Encode(x, y) == Encode(x & 0xFFFF, y & 0xFFFF)
  {
  }

  /** Bit 2k of the code is bit k of x, bit 2k+1 is bit k of y. */
  lemma EncodeBits(x: bv32, y: bv32, k: bv32)
    requires k < 16
    ensures (Encode(x, y) >> (2 * k)) & 1 == (x >> k) & 1
    ensures (Encode(x, y) >> (2 * k + 1)) & 1 == (y >> k) & 1
  {
  }

  lemma SpreadEven(v: bv32)
    ensures Spread(v & 0xFFFF) & 0xAAAA_AAAA == 0
  {
  }

  lemma CompactSpread(v: bv32)
    ensures Compact(Spread(v & 0xFFFF)) == v & 0xFFFF
  {
  }

  /** Every 32-bit value is the code of its decoded coordinates. */
  lemma EncodeDecode(z: bv32)
    ensures Encode(Decode(z).0, Decode(z).1) == z
  {
  }

  /** Codes that agree come from coordinates that agree on their low 16 bits, so
      distinct 16-bit coordinate pairs have distinct codes; (0, 0) has code 0. */
  lemma EncodeInjective(x: bv32, y: bv32, x': bv32, y': bv32)
    requires Encode(x, y) == Encode(x', y')
    ensures x & 0xFFFF == x' & 0xFFFF && y & 0xFFFF == y' & 0xFFFF
  {
    var d, d' := Decode(Encode(x, y)), Decode(Encode(x', y'));
    assert d == d';
  }

  lemma EncodeZero()
    ensures Encode(0, 0) == 0
  {
  }

  /** For a side of 2^k, k <= 15: codes of coordinates below 2^k are below 4^k ... */
  lemma EncodeBelow(x: bv32, y: bv32, k: bv32)
    requires k <= 15 && x < 1 << k && y < 1 << k
    ensures Encode(x, y) < 1 << (2 * k)
  {
  }

  /** ... and every value below 4^k is the code of coordinates below 2^k. */
  lemma DecodeBelow(z: bv32, k: bv32)
    requires k <= 15 && z < 1 << (2 * k)
    ensures Decode(z).0 < 1 << k && Decode(z).1 < 1 << k
  {
  }
}
