/** The bit expressions the fixed-depth decoders evaluate on the bytes of a buffer, each named for
    its shape and proved to yield the integer its postcondition states. Every operand byte is a
    Java `byte`, so it is sign-extended before it is shifted or masked. */
module BitExpressions {
  import opened JavaInt

  /** `(b & 0xF0) >> 4`: the high nibble. */
  method HighNibble(b: Byte) returns (v: int)
    ensures v == b / 16
  {
    HighNibbleMask(b);
    v := Shr(And(Signed(b), 0xF0), 4);
  }

  /** `b & 0xF`: the low nibble. */
  method LowNibble(b: Byte) returns (v: int)
    ensures v == b % 16
  {
    LowNibbleMask(b);
    v := And(Signed(b), 0xF);
  }

  /** `(b0 << 8) | (b1 & 0xFF)`: the signed big-endian 16-bit value of the two bytes. */
  method Join16(b0: Byte, b1: Byte) returns (v: int)
    ensures v == Signed(b0) * 0x100 + b1
  {
    Pow2Values();
    ByteMask(b1);
    OrShifted(Signed(b0), b1, 8);
    v := Or(Shl(Signed(b0), 8), And(Signed(b1), 0xFF));
  }

  /** `(b0 << 4) | ((b1 & 0xF0) >> 4)`: b0 keeps its sign, so a byte from 0x80 up gives a
      negative value. */
  method Join12High(b0: Byte, b1: Byte) returns (v: int)
    ensures v == Signed(b0) * 16 + b1 / 16
  {
    Pow2Values();
    HighNibbleMask(b1);
    OrShifted(Signed(b0), b1 / 16, 4);
    v := Or(Shl(Signed(b0), 4), Shr(And(Signed(b1), 0xF0), 4));
  }

  /** `((b0 & 0xFF) << 4) | ((b1 & 0xF0) >> 4)`: all of b0 above the high nibble of b1. */
  method Join12HighMasked(b0: Byte, b1: Byte) returns (v: int)
    ensures v == b0 * 16 + b1 / 16
  {
    Pow2Values();
    ByteMask(b0);
    HighNibbleMask(b1);
    OrShifted(b0, b1 / 16, 4);
    v := Or(Shl(And(Signed(b0), 0xFF), 4), Shr(And(Signed(b1), 0xF0), 4));
  }

  /** `((b0 & 0xF) << 8) | (b1 & 0xFF)`: the low nibble of b0 above all of b1. */
  method Join12Low(b0: Byte, b1: Byte) returns (v: int)
    ensures v == (b0 % 16) * 0x100 + b1
  {
    Pow2Values();
    LowNibbleMask(b0);
    ByteMask(b1);
    OrShifted(b0 % 16, b1, 8);
    v := Or(Shl(And(Signed(b0), 0xF), 8), And(Signed(b1), 0xFF));
  }

  /** `(b0 << 12) | (b1 << 4) | ((b2 & 0xF0) >> 4)`. Both b0 and b1 are sign-extended; when b1
      is from 0x80 up its sign bits cover b0 entirely. */
  method Join20High(b0: Byte, b1: Byte, b2: Byte) returns (v: int)
    ensures v == (if b1 < 0x80 then Signed(b0) * 0x1000 + b1 * 16 else Signed(b1) * 16) + b2 / 16
  {
    var s0, s1 := Signed(b0), Signed(b1);
    Pow2Values();
    HighNibbleMask(b2);
    OrShifted(s0, s1 * 16, 12);
    var c := if b1 < 0x80 then s0 * 0x100 + s1 else s1;
    assert Or(s0 * 0x1000, s1 * 16) == c * 16;
    OrShifted(c, b2 / 16, 4);
    v := Or(Or(Shl(s0, 12), Shl(s1, 4)), Shr(And(Signed(b2), 0xF0), 4));
  }

  /** `((b0 & 0xF) << 16) | (b1 << 8) | (b2 & 0xFF)`. b1 is sign-extended; when it is from 0x80
      up its sign bits cover the nibble of b0. */
  method Join20Low(b0: Byte, b1: Byte, b2: Byte) returns (v: int)
    ensures v == (if b1 < 0x80 then (b0 % 16) * 0x1_0000 + b1 * 0x100 else Signed(b1) * 0x100) + b2
  {
    var lo, s1 := b0 % 16, Signed(b1);
    Pow2Values();
    LowNibbleMask(b0);
    ByteMask(b2);
    OrShifted(lo, s1 * 0x100, 16);
    var c := if b1 < 0x80 then lo * 0x100 + s1 else s1;
    assert Or(lo * 0x1_0000, s1 * 0x100) == c * 0x100;
    OrShifted(c, b2, 8);
    v := Or(Or(Shl(And(Signed(b0), 0xF), 16), Shl(s1, 8)), And(Signed(b2), 0xFF));
  }

  /** `((b0 & 0xFF) << 12) | ((b1 & 0xFF) << 4) | ((b2 & 0xF0) >> 4)`: twenty bits. */
  method Join20HighMasked(b0: Byte, b1: Byte, b2: Byte) returns (v: int)
    ensures v == b0 * 0x1000 + b1 * 16 + b2 / 16
  {
    Pow2Values();
    ByteMask(b0);
    ByteMask(b1);
    HighNibbleMask(b2);
    OrShifted(b0, b1 * 16, 12);
    assert b0 * 0x1000 + b1 * 16 == (b0 * 0x100 + b1) * 16;
    OrShifted(b0 * 0x100 + b1, b2 / 16, 4);
    v := Or(Or(Shl(And(Signed(b0), 0xFF), 12), Shl(And(Signed(b1), 0xFF), 4)), Shr(And(Signed(b2), 0xF0), 4));
  }

  /** `((b0 & 0xF) << 16) | ((b1 & 0xFF) << 8) | (b2 & 0xFF)`: twenty bits. */
  method Join20LowMasked(b0: Byte, b1: Byte, b2: Byte) returns (v: int)
    ensures v == (b0 % 16) * 0x1_0000 + b1 * 0x100 + b2
  {
    var lo := b0 % 16;
    Pow2Values();
    LowNibbleMask(b0);
    ByteMask(b1);
    ByteMask(b2);
    OrShifted(lo, b1 * 0x100, 16);
    assert lo * 0x1_0000 + b1 * 0x100 == (lo * 0x100 + b1) * 0x100;
    OrShifted(lo * 0x100 + b1, b2, 8);
    v := Or(Or(Shl(And(Signed(b0), 0xF), 16), Shl(And(Signed(b1), 0xFF), 8)), And(Signed(b2), 0xFF));
  }
}
