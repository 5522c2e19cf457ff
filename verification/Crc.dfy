/**
 The CRC of section 8 of RFC 1952, bit by bit, and what its shift register does to
 sums.  A register is a number of 32 bits, lowest power in the highest bit.
 */
module Crc {
  import opened Bits
  import opened Gf2
  import opened BitStream

  const POLY: nat := 0xedb88320

  predicate Word(c: nat)
  {
    c < Pow2(32)
  }

  /** One zero bit shifted in: multiply by x modulo the polynomial. */
  function ZeroBit(c: nat): nat
  {
    if c % 2 == 1 then Xor(POLY, c / 2) else c / 2
  }

  /** n zero bits shifted in. */
  function Zeros(c: nat, n: nat): nat
    decreases n
  {
    if n == 0 then c else Zeros(ZeroBit(c), n - 1)
  }

  /** One byte shifted in. */
  function Feed(c: nat, b: byte): nat
  {
    Zeros(Xor(c, b), 8)
  }

  /** All bytes shifted in. */
  function Register(c: nat, buf: seq<byte>): nat
  {
    if buf == [] then c else Feed(Register(c, buf[..|buf| - 1]), buf[|buf| - 1])
  }

  function Not(c: nat): nat
  {
    Xor(0xffff_ffff, c)
  }

  /** crc32(crc, buf), with crc that of what comes before buf. */
  function Crc32(crc: nat, buf: seq<byte>): nat
  {
    Not(Register(Not(crc), buf))
  }

  // ---- the register is linear over GF(2)

  lemma ZeroBitXor(a: nat, b: nat)
    ensures ZeroBit(Xor(a, b)) == Xor(ZeroBit(a), ZeroBit(b))
  {
    hide Xor;
    XorHalves(a, b);
    var x, y := a / 2, b / 2;
    XorAssoc(POLY, x, y);
    XorComm(POLY, x);
    XorAssoc(x, POLY, y);
    XorSwap(POLY, x, POLY, y);
    XorSelf(POLY);
    XorZero(Xor(x, y));
  }

  lemma {:induction false} ZerosXor(a: nat, b: nat, n: nat)
    ensures Zeros(Xor(a, b), n) == Xor(Zeros(a, n), Zeros(b, n))
    decreases n
  {
    hide Xor, ZeroBit;
    if n != 0 {
      ZeroBitXor(a, b);
      ZerosXor(ZeroBit(a), ZeroBit(b), n - 1);
    }
  }

  lemma {:induction false} ZerosAdd(c: nat, m: nat, n: nat)
    ensures Zeros(Zeros(c, m), n) == Zeros(c, m + n)
    decreases m
  {
    hide ZeroBit;
    if m != 0 {
      ZerosAdd(ZeroBit(c), m - 1, n);
    }
  }

  /** Bits below the lowest power are just shifted down. */
  lemma {:induction false} ZerosShl(x: nat, n: nat)
    ensures Zeros(Shl(x, n), n) == x
  {
    if n != 0 {
      assert ZeroBit(Shl(x, n)) == Shl(x, n - 1);
      ZerosShl(x, n - 1);
    }
  }

  lemma {:induction false} ZerosOfZero(n: nat)
    ensures Zeros(0, n) == 0
  {
    if n != 0 {
      ZerosOfZero(n - 1);
    }
  }

  lemma {:induction false} ZerosWord(c: nat, n: nat)
    requires Word(c)
    ensures Word(Zeros(c, n))
    decreases n
  {
    hide Xor;
    if n != 0 {
      PolyFits();
      assert c / 2 < Pow2(32);
      XorBound(POLY, c / 2, 32);
      ZerosWord(ZeroBit(c), n - 1);
    }
  }

  lemma WordIs()
    ensures Pow2(8) == 0x100 && Pow2(16) == 0x1_0000 && Pow2(24) == 0x100_0000 && Pow2(32) == 0x1_0000_0000
  {
    assert Pow2(8) == 0x100;
    Squared(8, 8);
    Squared(16, 8);
    Squared(16, 16);
  }

  lemma {:induction false} Squared(m: nat, n: nat)
    ensures Pow2(m + n) == Pow2(m) * Pow2(n)
  {
    if n != 0 {
      Squared(m, n - 1);
      assert Pow2(m) * (2 * Pow2(n - 1)) == 2 * (Pow2(m) * Pow2(n - 1));
    }
  }

  lemma PolyFits()
    ensures Word(POLY) && Word(0xffff_ffff)
  {
    WordIs();
  }

  lemma ByteFits(b: byte)
    ensures b < Pow2(8) && Word(b)
  {
    WordIs();
  }

  lemma {:induction false} RegisterWord(c: nat, buf: seq<byte>)
    requires Word(c)
    ensures Word(Register(c, buf))
  {
    hide Xor, Word, Zeros;
    if buf != [] {
      var r, b := Register(c, buf[..|buf| - 1]), buf[|buf| - 1];
      RegisterWord(c, buf[..|buf| - 1]);
      ByteFits(b);
      WordXor(r, b);
      ZerosWord(Xor(r, b), 8);
    }
  }

  lemma WordXor(a: nat, b: nat)
    requires Word(a) && Word(b)
    ensures Word(Xor(a, b))
  {
    hide Xor;
    XorBound(a, b, 32);
  }

  lemma NotWord(c: nat)
    requires Word(c)
    ensures Word(Not(c))
  {
    PolyFits();
    WordXor(0xffff_ffff, c);
  }

  // ---- concatenation

  lemma {:induction false} RegisterJoin(c: nat, a: seq<byte>, b: seq<byte>)
    ensures Register(c, a + b) == Register(Register(c, a), b)
  {
    hide Feed;
    if b == [] {
      assert a + b == a;
    } else {
      var s := a + b;
      assert s[..|s| - 1] == a + b[..|b| - 1];
      RegisterJoin(c, a, b[..|b| - 1]);
    }
  }

  /** Going on from the CRC of the first part. */
  lemma CrcJoin(crc: nat, a: seq<byte>, b: seq<byte>)
    ensures Crc32(Crc32(crc, a), b) == Crc32(crc, a + b)
  {
    hide Xor, Register;
    XorTwice(Register(Not(crc), a), 0xffff_ffff);
    RegisterJoin(Not(crc), a, b);
  }

  /** What was in the register before only adds its own shifted value. */
  lemma {:induction false} RegisterSplit(c: nat, buf: seq<byte>)
    ensures Register(c, buf) == Xor(Zeros(c, 8 * |buf|), Register(0, buf))
  {
    hide Xor, Zeros;
    if buf == [] {
      XorZero(c);
      ZerosAtOnce(c);
    } else {
      var init, b := buf[..|buf| - 1], buf[|buf| - 1];
      RegisterSplit(c, init);
      var z, r := Zeros(c, 8 * |init|), Register(0, init);
      XorAssoc(z, r, b);
      ZerosXor(z, Xor(r, b), 8);
      ZerosAdd(c, 8 * |init|, 8);
    }
  }

  lemma ZerosAtOnce(c: nat)
    ensures Zeros(c, 0) == c
  {}

  /** What crc32_combine relies on: the CRC of a whole is that of its parts, the first shifted by the
      length of the second. */
  lemma CrcCombines(a: seq<byte>, b: seq<byte>)
    ensures Crc32(0, a + b) == Xor(Zeros(Crc32(0, a), 8 * |b|), Crc32(0, b))
  {
    hide Xor, Zeros, Register;
    var ones, n := 0xffff_ffff, 8 * |b|;
    var start := Not(0);
    var r := Register(start, a);
    XorZero(ones);
    RegisterJoin(start, a, b);
    RegisterSplit(r, b);
    RegisterSplit(start, b);
    ZerosXor(ones, r, n);
    var zo, zr, rb := Zeros(ones, n), Zeros(r, n), Register(0, b);
    assert Crc32(0, a + b) == Xor(ones, Xor(zr, rb));
    assert Crc32(0, b) == Xor(ones, Xor(zo, rb));
    assert Zeros(Crc32(0, a), n) == Xor(zo, zr);
    XorRest(ones, zo, zr, rb);
  }

  lemma XorRest(o: nat, z: nat, r: nat, b: nat)
    ensures Xor(Xor(z, r), Xor(o, Xor(z, b))) == Xor(o, Xor(r, b))
  {
    hide Xor;
    XorComm(z, r);
    XorAssoc(r, z, Xor(o, Xor(z, b)));
    XorAssoc(z, o, Xor(z, b));
    XorComm(z, o);
    XorAssoc(o, z, Xor(z, b));
    XorTwice(b, z);
    XorAssoc(r, o, b);
    XorComm(r, o);
    XorAssoc(o, r, b);
  }
}
