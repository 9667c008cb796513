/**
 * The integer bit manipulation of the TSYS01 driver: byte swapping of PROM
 * words, packing of the three ADC bytes, and assembly of the serial number.
 * Each operation is written with the same Python operators the driver uses
 * (see module Bits); the contracts give its arithmetic meaning.
 */
module Words {
  import opened Bits

  /** A byte as returned by an I2C block read. */
  type Byte = x: int | 0 <= x < 0x100

  /** A 16-bit word as returned by an I2C register read. */
  type Word16 = x: int | 0 <= x < 0x1_0000

  /** The three bytes of an ADC result, most significant first. */
  datatype Block = Block(b0: Byte, b1: Byte, b2: Byte)

  /**
   * `((w & 0xFF) << 8) | (w >> 8)`: the low byte of the register word becomes
   * the high byte of the result and the high byte becomes the low byte.
   */
  function SwapBytes(w: Word16): (r: Word16)
    ensures r / 0x100 == w % 0x100
    ensures r % 0x100 == w / 0x100
  {
    AndLowMask(w, 8);
    assert Shr(w, 8) < Pow2(8);
    OrDisjoint(And(w, 0xFF), 8, Shr(w, 8));
    Or(Shl(And(w, 0xFF), 8), Shr(w, 8))
  }

  /** Swapping twice gives back the word that was read. */
  lemma SwapBytesInvolution(w: Word16)
    ensures SwapBytes(SwapBytes(w)) == w
  {
    var s := SwapBytes(w);
    var s2 := SwapBytes(s);
    assert s2 == (s2 / 0x100) * 0x100 + s2 % 0x100;
    assert w == (w / 0x100) * 0x100 + w % 0x100;
  }

  /** The 24-bit ADC reading: the three bytes as digits of a base-256 number, most significant first. */
  function Pack24(b: Block): (r: nat)
    ensures r < 0x100_0000
  {
    b.b0 * 0x1_0000 + b.b1 * 0x100 + b.b2
  }

  /**
   * The driver's `adc[0] << 16 | adc[1] << 8 | adc[2]` computes Pack24: the
   * shifted bytes occupy disjoint bit ranges, so each `|` adds.
   */
  lemma Pack24IsBitwise(b: Block)
    ensures Or(Or(Shl(b.b0, 16), Shl(b.b1, 8)), b.b2) == Pack24(b)
  {
    assert Pow2(8) == 0x100 && Pow2(16) == 0x1_0000;
    var hi, mid := Shl(b.b0, 16), Shl(b.b1, 8);
    assert hi == (b.b0 * 0x100) * 0x100;
    assert mid < Pow2(16) by {
      assert mid == b.b1 * 0x100;
    }
    OrDisjoint(b.b0, 16, mid);
    assert hi + mid == Shl(b.b0 * 0x100 + b.b1, 8);
    OrDisjoint(b.b0 * 0x100 + b.b1, 8, b.b2);
  }

  /** Splits a 24-bit reading back into its three bytes, most significant first. */
  function Unpack24(adc: nat): (b: Block)
    requires adc < 0x100_0000
  {
    Block(adc / 0x1_0000, (adc / 0x100) % 0x100, adc % 0x100)
  }

  /** Each byte can be recovered from the packed reading. */
  lemma Pack24Unpack24(b: Block)
    ensures Unpack24(Pack24(b)) == b
  {
    var r := Pack24(b);
    assert r == (b.b0 * 0x100 + b.b1) * 0x100 + b.b2;
    DivModUnique(r, 0x100, b.b0 * 0x100 + b.b1, b.b2);
    DivModUnique(r / 0x100, 0x100, b.b0, b.b1);
    assert r / 0x1_0000 == (r / 0x100) / 0x100;
  }

  /** Every 24-bit value is the reading of exactly one byte triple. */
  lemma Unpack24Pack24(adc: nat)
    requires adc < 0x100_0000
    ensures Pack24(Unpack24(adc)) == adc
  {
    var b := Unpack24(adc);
    assert adc / 0x1_0000 == (adc / 0x100) / 0x100;
    assert adc / 0x100 == b.b0 * 0x100 + b.b1;
  }

  /**
   * `2**8 * swap(hi) + (lo >> 8)` with hi the word at 0xAC and lo the word at
   * 0xAE: bits 23..16 of the serial number are the low byte of hi, bits 15..8
   * its high byte, and bits 7..0 the high byte of lo.
   */
  function SerialFromWords(hi: Word16, lo: Word16): (r: nat)
    ensures r < 0x100_0000
    ensures r / 0x1_0000 == hi % 0x100
    ensures (r / 0x100) % 0x100 == hi / 0x100
    ensures r % 0x100 == lo / 0x100
  {
    var s := SwapBytes(hi);
    var low := Shr(lo, 8);
    assert low < 0x100;
    DivModUnique(Shl(s, 8) + low, 0x100, s, low);
    assert (Shl(s, 8) + low) / 0x1_0000 == ((Shl(s, 8) + low) / 0x100) / 0x100;
    Shl(s, 8) + low
  }
}
