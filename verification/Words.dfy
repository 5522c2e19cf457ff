/** 32-bit words and their bytes, as numbers. */
module Words {

  /** (c >> 8 * i) & 0xff */
  function Byte(c: nat, i: nat): (b: nat)
    requires i < 4
    ensures b < 256
  {
    match i
    case 0 => c % 256
    case 1 => c / 0x100 % 256
    case 2 => c / 0x1_0000 % 256
    case 3 => c / 0x100_0000 % 256
  }

  /** The word with the given bytes, lowest first. */
  function Pack(b0: nat, b1: nat, b2: nat, b3: nat): nat
  {
    b0 + 256 * (b1 + 256 * (b2 + 256 * b3))
  }

  /** The lowest byte, and what is above it. */
  lemma LowByte(b: nat, c: nat)
    requires b < 256
    ensures (b + 256 * c) % 256 == b && (b + 256 * c) / 256 == c
  {}

  lemma TwoShifts(c: nat)
    ensures c / 0x1_0000 == c / 256 / 256 && c / 0x100_0000 == c / 256 / 256 / 256
  {}

  lemma Bytes(b0: nat, b1: nat, b2: nat, b3: nat)
    requires b0 < 256 && b1 < 256 && b2 < 256 && b3 < 256
    ensures var c := Pack(b0, b1, b2, b3);
            && c < 0x1_0000_0000
            && Byte(c, 0) == b0 && Byte(c, 1) == b1 && Byte(c, 2) == b2 && Byte(c, 3) == b3
            && c / 256 == Pack(b1, b2, b3, 0) && c / 0x100_0000 == b3
  {
    LowByte(b0, b1 + 256 * (b2 + 256 * b3));
    LowByte(b1, b2 + 256 * b3);
    LowByte(b2, b3);
    TwoShifts(Pack(b0, b1, b2, b3));
  }

  lemma Unpack(c: nat)
    requires c < 0x1_0000_0000
    ensures c == Pack(Byte(c, 0), Byte(c, 1), Byte(c, 2), Byte(c, 3))
  {
    var d := c / 0x100;
    var e := d / 0x100;
    assert c / 0x1_0000 == e && c / 0x100_0000 == e / 0x100;
    assert c == c % 256 + 256 * d && d == d % 256 + 256 * e && e == e % 256 + 256 * (e / 256);
    assert e / 0x100 < 256;
  }
}
