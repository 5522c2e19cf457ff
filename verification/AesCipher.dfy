/** The AES block cipher: the round functions on a state of 16 bytes, column by column. */
module AesCipher {
  import opened Bits
  import opened Gf2
  import opened BitStream
  import opened AesTables

  // ---- bytes

  /** a ^ b */
  function Add(a: byte, b: byte): byte
  {
    AddFits(a, b);
    Xor(a, b)
  }

  lemma AddFits(a: byte, b: byte)
    ensures Xor(a, b) < 256
  {
    hide Xor;
    assert Pow2(8) == 256;
    XorBound(a, b, 8);
  }

  /** getSBoxValue */
  function SBoxValue(x: byte): byte
  {
    SubUndone(x);
    Sub(x)
  }

  /** getSBoxInvert */
  function SBoxInvert(x: byte): byte
  {
    InvSubBound(x);
    InvSub(x)
  }

  lemma BoxUndone(x: byte)
    ensures SBoxInvert(SBoxValue(x)) == x
  {
    hide Sub, InvSub;
    SubUndone(x);
  }

  /** xTime: multiplication by x in GF(2^8) (section 4.2.1 of FIPS 197). */
  function XTime(x: byte): byte
  {
    if x < 128 then 2 * x else Add(2 * x - 256, 0x1b)
  }

  /** (y >> k & 1) * x */
  function Pick(y: byte, k: nat, x: byte): byte
  {
    if Shr(y, k) % 2 == 1 then x else 0
  }

  /** multiply */
  function Multiply(x: byte, y: byte): byte
  {
    var x2 := XTime(x);
    var x4 := XTime(x2);
    var x8 := XTime(x4);
    Add(Add(Add(Add(Pick(y, 0, x), Pick(y, 1, x2)), Pick(y, 2, x4)), Pick(y, 3, x8)), Pick(y, 4, XTime(x8)))
  }

  // ---- sums of bytes, bit by bit

  predicate Odd(x: nat)
  {
    x % 2 == 1
  }

  function Sum3(a: byte, b: byte, c: byte): byte
  {
    Add(Add(a, b), c)
  }

  function Sum4(a: byte, b: byte, c: byte, d: byte): byte
  {
    Add(Add(Add(a, b), c), d)
  }

  lemma Bits2(a: byte, b: byte)
    ensures Odd(Add(a, b)) <==> (Odd(a) <==> !Odd(b))
    ensures Add(a, b) / 2 == Add(a / 2, b / 2)
  {
    hide Xor;
    XorHalves(a, b);
  }

  lemma Bits3(a: byte, b: byte, c: byte)
    ensures Odd(Sum3(a, b, c)) <==> (Odd(a) <==> (Odd(b) <==> Odd(c)))
    ensures Sum3(a, b, c) / 2 == Sum3(a / 2, b / 2, c / 2)
  {
    hide Add, Odd;
    Bits2(a, b);
    Bits2(Add(a, b), c);
  }

  lemma Bits4(a: byte, b: byte, c: byte, d: byte)
    ensures Odd(Sum4(a, b, c, d)) <==> (Odd(a) <==> (Odd(b) <==> (Odd(c) <==> !Odd(d))))
    ensures Sum4(a, b, c, d) / 2 == Sum4(a / 2, b / 2, c / 2, d / 2)
  {
    hide Add, Odd;
    Bits2(a, b);
    Bits2(Add(a, b), c);
    Bits2(Add(Add(a, b), c), d);
  }

  lemma SameBits(a: byte, b: byte)
    requires (Odd(a) <==> Odd(b)) && a / 2 == b / 2
    ensures a == b
  {}

  lemma NoSum()
    ensures Add(0, 0) == 0 && Sum3(0, 0, 0) == 0 && Sum4(0, 0, 0, 0) == 0
  {}

  // Rearrangements: both sides have the same bits.

  /** 14 a + 11 b + 13 c + 9 d, by powers of x. */
  lemma {:induction false} ByPowers(a2: byte, a4: byte, a8: byte, b: byte, b2: byte, b8: byte,
                                    c: byte, c4: byte, c8: byte, d: byte, d8: byte)
    ensures Sum4(Sum3(a2, a4, a8), Sum3(b, b2, b8), Sum3(c, c4, c8), Add(d, d8)) ==
            Sum4(Sum4(a8, b8, c8, d8), Add(a4, c4), Add(a2, b2), Sum3(b, c, d))
    decreases a2 + a4 + a8 + b + b2 + b8 + c + c4 + c8 + d + d8
  {
    hide Add, Odd, Sum3, Sum4;
    if a2 + a4 + a8 + b + b2 + b8 + c + c4 + c8 + d + d8 == 0 {
      NoSum();
    } else {
      Bits3(a2, a4, a8);
      Bits3(b, b2, b8);
      Bits3(c, c4, c8);
      Bits2(d, d8);
      Bits4(Sum3(a2, a4, a8), Sum3(b, b2, b8), Sum3(c, c4, c8), Add(d, d8));
      Bits4(a8, b8, c8, d8);
      Bits2(a4, c4);
      Bits2(a2, b2);
      Bits3(b, c, d);
      Bits4(Sum4(a8, b8, c8, d8), Add(a4, c4), Add(a2, b2), Sum3(b, c, d));
      ByPowers(a2 / 2, a4 / 2, a8 / 2, b / 2, b2 / 2, b8 / 2, c / 2, c4 / 2, c8 / 2, d / 2, d8 / 2);
      SameBits(Sum4(Sum3(a2, a4, a8), Sum3(b, b2, b8), Sum3(c, c4, c8), Add(d, d8)),
               Sum4(Sum4(a8, b8, c8, d8), Add(a4, c4), Add(a2, b2), Sum3(b, c, d)));
    }
  }

  /** The sum of a mixed column is that of the column. */
  lemma {:induction false} SumKept(a: byte, b: byte, c: byte, d: byte, ta: byte, tb: byte, tc: byte, td: byte, s: byte)
    ensures Sum4(Sum3(a, Add(ta, tb), s), Sum3(b, Add(tb, tc), s), Sum3(c, Add(tc, td), s), Sum3(d, Add(td, ta), s)) ==
            Sum4(a, b, c, d)
    decreases a + b + c + d + ta + tb + tc + td + s
  {
    hide Add, Odd, Sum3, Sum4;
    if a + b + c + d + ta + tb + tc + td + s == 0 {
      NoSum();
    } else {
      Bits2(ta, tb);
      Bits2(tb, tc);
      Bits2(tc, td);
      Bits2(td, ta);
      Bits3(a, Add(ta, tb), s);
      Bits3(b, Add(tb, tc), s);
      Bits3(c, Add(tc, td), s);
      Bits3(d, Add(td, ta), s);
      Bits4(Sum3(a, Add(ta, tb), s), Sum3(b, Add(tb, tc), s), Sum3(c, Add(tc, td), s), Sum3(d, Add(td, ta), s));
      Bits4(a, b, c, d);
      SumKept(a / 2, b / 2, c / 2, d / 2, ta / 2, tb / 2, tc / 2, td / 2, s / 2);
      SameBits(Sum4(Sum3(a, Add(ta, tb), s), Sum3(b, Add(tb, tc), s), Sum3(c, Add(tc, td), s), Sum3(d, Add(td, ta), s)),
               Sum4(a, b, c, d));
    }
  }

  /** The sum of two rows of a mixed column. */
  lemma {:induction false} TwoRows(a: byte, b: byte, x: byte, y: byte, s: byte)
    ensures Add(Sum3(a, x, s), Sum3(b, y, s)) == Add(Add(a, b), Add(x, y))
    decreases a + b + x + y + s
  {
    hide Add, Odd, Sum3;
    if a + b + x + y + s == 0 {
      NoSum();
    } else {
      Bits3(a, x, s);
      Bits3(b, y, s);
      Bits2(Sum3(a, x, s), Sum3(b, y, s));
      Bits2(a, b);
      Bits2(x, y);
      Bits2(Add(a, b), Add(x, y));
      TwoRows(a / 2, b / 2, x / 2, y / 2, s / 2);
      SameBits(Add(Sum3(a, x, s), Sum3(b, y, s)), Add(Add(a, b), Add(x, y)));
    }
  }

  lemma {:induction false} Between(a: byte, b: byte, c: byte)
    ensures Add(Add(a, b), Add(b, c)) == Add(a, c)
    decreases a + b + c
  {
    hide Add, Odd;
    if a + b + c == 0 {
      NoSum();
    } else {
      Bits2(a, b);
      Bits2(b, c);
      Bits2(Add(a, b), Add(b, c));
      Bits2(a, c);
      Between(a / 2, b / 2, c / 2);
      SameBits(Add(Add(a, b), Add(b, c)), Add(a, c));
    }
  }

  lemma {:induction false} Pairs(a: byte, b: byte, c: byte, d: byte)
    ensures Add(Add(a, b), Add(c, d)) == Sum4(a, b, c, d) && Sum3(b, c, d) == Add(Sum4(a, b, c, d), a)
    decreases a + b + c + d
  {
    hide Add, Odd, Sum3, Sum4;
    if a + b + c + d == 0 {
      NoSum();
    } else {
      Bits2(a, b);
      Bits2(c, d);
      Bits2(Add(a, b), Add(c, d));
      Bits4(a, b, c, d);
      Bits3(b, c, d);
      Bits2(Sum4(a, b, c, d), a);
      Pairs(a / 2, b / 2, c / 2, d / 2);
      SameBits(Add(Add(a, b), Add(c, d)), Sum4(a, b, c, d));
      SameBits(Sum3(b, c, d), Add(Sum4(a, b, c, d), a));
    }
  }

  /** What is left when everything is unmixed. */
  lemma {:induction false} Left(a: byte, p: byte, q: byte, u: byte, s: byte)
    ensures Sum4(u, Add(p, u), Add(q, p), Add(s, Sum3(a, q, s))) == a
    decreases a + p + q + u + s
  {
    hide Add, Odd, Sum3, Sum4;
    if a + p + q + u + s == 0 {
      NoSum();
    } else {
      Bits2(p, u);
      Bits2(q, p);
      Bits3(a, q, s);
      Bits2(s, Sum3(a, q, s));
      Bits4(u, Add(p, u), Add(q, p), Add(s, Sum3(a, q, s)));
      Left(a / 2, p / 2, q / 2, u / 2, s / 2);
      SameBits(Sum4(u, Add(p, u), Add(q, p), Add(s, Sum3(a, q, s))), a);
    }
  }

  lemma {:induction false} TopBit(a: nat, b: nat)
    requires a < 256 && b < 256
    ensures var c := Xor(a, b);
            (128 <= c <==> (128 <= a <==> b < 128)) && Xor(a % 128, b % 128) == c % 128
  {
    hide Xor, Low, Shr;
    assert Pow2(7) == 128 && Pow2(8) == 256;
    SevenLow(a);
    SevenLow(b);
    XorBound(a, b, 8);
    SevenLow(Xor(a, b));
    LowXor(a, b, 7);
    ShrXor(a, b, 7);
    OneBit();
  }

  lemma OneBit()
    ensures Xor(0, 0) == 0 && Xor(0, 1) == 1 && Xor(1, 0) == 1 && Xor(1, 1) == 0
  {}

  lemma SevenLow(x: nat)
    requires x < 256
    ensures Low(x, 7) == x % 128 && Shr(x, 7) == if x < 128 then 0 else 1
  {
    hide Low, Shr, Shl;
    Recompose(x, 7);
    LowBound(x, 7);
    assert Pow2(7) == 128;
    Shl7(Shr(x, 7));
  }

  lemma Shl7(x: nat)
    ensures Shl(x, 7) == 128 * x
  {
    assert Shl(x, 7) == 2 * Shl(x, 6) == 4 * Shl(x, 5) == 8 * Shl(x, 4) == 16 * Shl(x, 3);
    assert Shl(x, 3) == 2 * Shl(x, 2) == 4 * Shl(x, 1) == 8 * x;
  }

  lemma TwiceXor(a: nat, b: nat)
    ensures Xor(2 * a, 2 * b) == 2 * Xor(a, b)
  {
    hide Xor;
    XorHalves(2 * a, 2 * b);
  }

  /** xTime of a sum. */
  lemma XTimeSum(a: byte, b: byte)
    ensures XTime(Add(a, b)) == Add(XTime(a), XTime(b))
  {
    hide Xor;
    TopBit(a, b);
    var x, y := a % 128, b % 128;
    var r := 0x1b;
    AddFits(a, b);
    TwiceXor(x, y);
    XorSwap(2 * x, r, 2 * y, r);
    XorSelf(r);
    XorZero(Xor(2 * x, 2 * y));
    XorAssoc(2 * x, 2 * y, r);
    XorAssoc(2 * x, r, 2 * y);
    XorComm(r, 2 * y);
  }

  lemma Factors(x: byte)
    ensures var x2 := XTime(x); var x4 := XTime(x2); var x8 := XTime(x4);
            && Multiply(x, 0x09) == Add(x, x8)
            && Multiply(x, 0x0b) == Add(Add(x, x2), x8)
            && Multiply(x, 0x0d) == Add(Add(x, x4), x8)
            && Multiply(x, 0x0e) == Add(Add(x2, x4), x8)
  {
    hide XTime, Add;
    PickBits();
    var x2 := XTime(x);
    var x4 := XTime(x2);
    var x8 := XTime(x4);
    NoAdd(x);
    NoAdd(x2);
    NoAdd(Add(x, x2));
    NoAdd(Add(x, x8));
    NoAdd(Add(Add(x, x2), x8));
    NoAdd(Add(Add(x, x4), x8));
    NoAdd(Add(Add(x2, x4), x8));
  }

  lemma NoAdd(x: byte)
    ensures Add(x, 0) == x && Add(0, x) == x
  {
    hide Xor;
    XorZero(x);
  }

  /** The bits of the four factors. */
  lemma PickBits()
    ensures Shr(9, 0) % 2 == 1 && Shr(9, 1) % 2 == 0 && Shr(9, 2) % 2 == 0 && Shr(9, 3) % 2 == 1 && Shr(9, 4) % 2 == 0
    ensures Shr(11, 0) % 2 == 1 && Shr(11, 1) % 2 == 1 && Shr(11, 2) % 2 == 0 && Shr(11, 3) % 2 == 1 && Shr(11, 4) % 2 == 0
    ensures Shr(13, 0) % 2 == 1 && Shr(13, 1) % 2 == 0 && Shr(13, 2) % 2 == 1 && Shr(13, 3) % 2 == 1 && Shr(13, 4) % 2 == 0
    ensures Shr(14, 0) % 2 == 0 && Shr(14, 1) % 2 == 1 && Shr(14, 2) % 2 == 1 && Shr(14, 3) % 2 == 1 && Shr(14, 4) % 2 == 0
  {}

  // ---- columns

  /** One row of a mixed column, 2 a + 3 b + c + d, with s the sum of the column. */
  function Mixed(a: byte, b: byte, s: byte): byte
  {
    Sum3(a, XTime(Add(a, b)), s)
  }

  /** One row of an unmixed column: 14 a + 11 b + 13 c + 9 d. */
  function Unmixed(a: byte, b: byte, c: byte, d: byte): byte
  {
    Sum4(Multiply(a, 0x0e), Multiply(b, 0x0b), Multiply(c, 0x0d), Multiply(d, 0x09))
  }

  lemma XTimeSum4(a: byte, b: byte, c: byte, d: byte)
    ensures XTime(Sum4(a, b, c, d)) == Sum4(XTime(a), XTime(b), XTime(c), XTime(d))
  {
    hide XTime, Add;
    XTimeSum(Add(Add(a, b), c), d);
    XTimeSum(Add(a, b), c);
    XTimeSum(a, b);
  }

  /** An unmixed row as a sum of powers. */
  lemma UnmixedIs(a: byte, b: byte, c: byte, d: byte)
    ensures Unmixed(a, b, c, d) ==
            Sum4(XTime(XTime(XTime(Sum4(a, b, c, d)))), XTime(XTime(Add(a, c))), XTime(Add(a, b)), Add(Sum4(a, b, c, d), a))
  {
    hide XTime, Add, Multiply, Sum4;
    Factors(a);
    Factors(b);
    Factors(c);
    Factors(d);
    var a2, b2, c2, d2 := XTime(a), XTime(b), XTime(c), XTime(d);
    var a4, b4, c4, d4 := XTime(a2), XTime(b2), XTime(c2), XTime(d2);
    ByPowers(a2, a4, XTime(a4), b, b2, XTime(b4), c, c4, XTime(c4), d, XTime(d4));
    XTimeSum4(a, b, c, d);
    XTimeSum4(a2, b2, c2, d2);
    XTimeSum4(a4, b4, c4, d4);
    XTimeSum(a, c);
    XTimeSum(a2, c2);
    XTimeSum(a, b);
    Pairs(a, b, c, d);
  }

  /** The rows of a mixed column, unmixed, are the column again. */
  lemma RowBack(a: byte, b: byte, c: byte, d: byte, s: byte)
    requires s == Sum4(a, b, c, d)
    ensures Unmixed(Mixed(a, b, s), Mixed(b, c, s), Mixed(c, d, s), Mixed(d, a, s)) == a
  {
    hide XTime, Add, Multiply, Sum3, Sum4, Unmixed;
    var ta, tb, tc, td := XTime(a), XTime(b), XTime(c), XTime(d);
    XTimeSum(a, b);
    XTimeSum(b, c);
    XTimeSum(c, d);
    XTimeSum(d, a);
    UnmixedIs(Mixed(a, b, s), Mixed(b, c, s), Mixed(c, d, s), Mixed(d, a, s));
    SumKept(a, b, c, d, ta, tb, tc, td, s);
    TwoRows(a, b, Add(ta, tb), Add(tb, tc), s);
    Between(ta, tb, tc);
    TwoRows(a, c, Add(ta, tb), Add(tc, td), s);
    Pairs(ta, tb, tc, td);
    XTimeSum4(a, b, c, d);
    XTimeSum(a, c);
    XTimeSum(Add(a, b), XTime(Add(a, c)));
    XTimeSum(Add(a, c), XTime(s));
    XTimeSum(XTime(Add(a, c)), XTime(XTime(s)));
    Left(a, XTime(XTime(Add(a, c))), XTime(Add(a, b)), XTime(XTime(XTime(s))), s);
  }

  lemma {:induction false} Rotated(a: byte, b: byte, c: byte, d: byte)
    ensures Sum4(a, b, c, d) == Sum4(b, c, d, a)
    decreases a + b + c + d
  {
    hide Add, Odd, Sum4;
    if a + b + c + d != 0 {
      Bits4(a, b, c, d);
      Bits4(b, c, d, a);
      Rotated(a / 2, b / 2, c / 2, d / 2);
      SameBits(Sum4(a, b, c, d), Sum4(b, c, d, a));
    }
  }

  /** All four rows. */
  lemma ColumnBack(a: byte, b: byte, c: byte, d: byte, s: byte)
    requires s == Sum4(a, b, c, d)
    ensures Unmixed(Mixed(a, b, s), Mixed(b, c, s), Mixed(c, d, s), Mixed(d, a, s)) == a
    ensures Unmixed(Mixed(b, c, s), Mixed(c, d, s), Mixed(d, a, s), Mixed(a, b, s)) == b
    ensures Unmixed(Mixed(c, d, s), Mixed(d, a, s), Mixed(a, b, s), Mixed(b, c, s)) == c
    ensures Unmixed(Mixed(d, a, s), Mixed(a, b, s), Mixed(b, c, s), Mixed(c, d, s)) == d
  {
    hide Sum4, Unmixed, Mixed;
    Rotated(a, b, c, d);
    Rotated(b, c, d, a);
    Rotated(c, d, a, b);
    RowBack(a, b, c, d, s);
    RowBack(b, c, d, a, s);
    RowBack(c, d, a, b, s);
    RowBack(d, a, b, c, s);
  }

  // ---- the state

  predicate Block(s: seq<byte>)
  {
    |s| == 16
  }

  /** The round key for a round. */
  function RoundKey(key: seq<byte>, round: nat): (r: seq<byte>)
    requires 16 * round + 16 <= |key|
    ensures Block(r)
  {
    key[16 * round..16 * round + 16]
  }

  function AddRoundKey(s: seq<byte>, k: seq<byte>): (r: seq<byte>)
    requires Block(s) && Block(k)
    ensures Block(r) && forall i :: 0 <= i < 16 ==> r[i] == Add(s[i], k[i])
  {
    seq(16, i requires 0 <= i < 16 => Add(s[i], k[i]))
  }

  function SubBytes(s: seq<byte>): (r: seq<byte>)
    requires Block(s)
    ensures Block(r) && forall i :: 0 <= i < 16 ==> r[i] == SBoxValue(s[i])
  {
    seq(16, i requires 0 <= i < 16 => SBoxValue(s[i]))
  }

  function InvSubBytes(s: seq<byte>): (r: seq<byte>)
    requires Block(s)
    ensures Block(r) && forall i :: 0 <= i < 16 ==> r[i] == SBoxInvert(s[i])
  {
    seq(16, i requires 0 <= i < 16 => SBoxInvert(s[i]))
  }

  /** Row r is shifted r places to the left; the state is stored by columns. */
  function ShiftRows(s: seq<byte>): (r: seq<byte>)
    requires Block(s)
    ensures Block(r)
  {
    [s[0], s[5], s[10], s[15], s[4], s[9], s[14], s[3], s[8], s[13], s[2], s[7], s[12], s[1], s[6], s[11]]
  }

  function InvShiftRows(s: seq<byte>): (r: seq<byte>)
    requires Block(s)
    ensures Block(r)
  {
    [s[0], s[13], s[10], s[7], s[4], s[1], s[14], s[11], s[8], s[5], s[2], s[15], s[12], s[9], s[6], s[3]]
  }

  function MixColumn(a: byte, b: byte, c: byte, d: byte): (r: seq<byte>)
    ensures |r| == 4
  {
    var s := Sum4(a, b, c, d);
    [Mixed(a, b, s), Mixed(b, c, s), Mixed(c, d, s), Mixed(d, a, s)]
  }

  function UnmixColumn(a: byte, b: byte, c: byte, d: byte): (r: seq<byte>)
    ensures |r| == 4
  {
    [Unmixed(a, b, c, d), Unmixed(b, c, d, a), Unmixed(c, d, a, b), Unmixed(d, a, b, c)]
  }

  function MixColumns(s: seq<byte>): (r: seq<byte>)
    requires Block(s)
    ensures Block(r)
  {
    MixColumn(s[0], s[1], s[2], s[3]) + MixColumn(s[4], s[5], s[6], s[7])
    + MixColumn(s[8], s[9], s[10], s[11]) + MixColumn(s[12], s[13], s[14], s[15])
  }

  function InvMixColumns(s: seq<byte>): (r: seq<byte>)
    requires Block(s)
    ensures Block(r)
  {
    UnmixColumn(s[0], s[1], s[2], s[3]) + UnmixColumn(s[4], s[5], s[6], s[7])
    + UnmixColumn(s[8], s[9], s[10], s[11]) + UnmixColumn(s[12], s[13], s[14], s[15])
  }

  // ---- each round function is undone

  lemma AddTwice(a: byte, b: byte)
    ensures Add(Add(a, b), b) == a
  {
    hide Xor;
    XorAssoc(a, b, b);
    XorSelf(b);
    XorZero(a);
  }

  lemma KeyUndone(s: seq<byte>, k: seq<byte>)
    requires Block(s) && Block(k)
    ensures AddRoundKey(AddRoundKey(s, k), k) == s
  {
    hide Add, AddRoundKey;
    forall i | 0 <= i < 16
      ensures AddRoundKey(AddRoundKey(s, k), k)[i] == s[i]
    {
      AddTwice(s[i], k[i]);
    }
  }

  lemma SubBytesUndone(s: seq<byte>)
    requires Block(s)
    ensures InvSubBytes(SubBytes(s)) == s
  {
    hide SBoxValue, SBoxInvert, SubBytes, InvSubBytes;
    forall i | 0 <= i < 16
      ensures InvSubBytes(SubBytes(s))[i] == s[i]
    {
      BoxUndone(s[i]);
    }
  }

  lemma ShiftUndone(s: seq<byte>)
    requires Block(s)
    ensures InvShiftRows(ShiftRows(s)) == s
  {}

  lemma ColumnUndone(a: byte, b: byte, c: byte, d: byte)
    ensures var m := MixColumn(a, b, c, d); UnmixColumn(m[0], m[1], m[2], m[3]) == [a, b, c, d]
  {
    hide Sum4, Mixed, Unmixed;
    ColumnBack(a, b, c, d, Sum4(a, b, c, d));
  }

  lemma MixUndone(s: seq<byte>)
    requires Block(s)
    ensures InvMixColumns(MixColumns(s)) == s
  {
    hide MixColumn, UnmixColumn;
    ColumnUndone(s[0], s[1], s[2], s[3]);
    ColumnUndone(s[4], s[5], s[6], s[7]);
    ColumnUndone(s[8], s[9], s[10], s[11]);
    ColumnUndone(s[12], s[13], s[14], s[15]);
  }

  // ---- the cipher

  /** The state after round r, all rounds but the last. */
  function Rounds(key: seq<byte>, s: seq<byte>, r: nat): (t: seq<byte>)
    requires Block(s) && 16 * r + 16 <= |key|
    ensures Block(t)
  {
    if r == 0 then AddRoundKey(s, RoundKey(key, 0))
    else AddRoundKey(MixColumns(ShiftRows(SubBytes(Rounds(key, s, r - 1)))), RoundKey(key, r))
  }

  /** cipher (section 5.1 of FIPS 197) */
  function Cipher(key: seq<byte>, nr: nat, s: seq<byte>): (t: seq<byte>)
    requires Block(s) && 1 <= nr && 16 * nr + 16 <= |key|
    ensures Block(t)
  {
    AddRoundKey(ShiftRows(SubBytes(Rounds(key, s, nr - 1))), RoundKey(key, nr))
  }

  /** The state with the rounds down to r undone, before the row shift of round r is. */
  function Unrounds(key: seq<byte>, nr: nat, s: seq<byte>, r: nat): (t: seq<byte>)
    requires Block(s) && 1 <= r <= nr && 16 * nr + 16 <= |key|
    ensures Block(t)
    decreases nr - r
  {
    if r == nr then AddRoundKey(s, RoundKey(key, nr))
    else InvMixColumns(AddRoundKey(InvSubBytes(InvShiftRows(Unrounds(key, nr, s, r + 1))), RoundKey(key, r)))
  }

  /** invCipher (section 5.3 of FIPS 197) */
  function InvCipher(key: seq<byte>, nr: nat, s: seq<byte>): (t: seq<byte>)
    requires Block(s) && 1 <= nr && 16 * nr + 16 <= |key|
    ensures Block(t)
  {
    AddRoundKey(InvSubBytes(InvShiftRows(Unrounds(key, nr, s, 1))), RoundKey(key, 0))
  }

  lemma {:induction false} RoundsUndone(key: seq<byte>, nr: nat, s: seq<byte>, r: nat)
    requires Block(s) && 1 <= r <= nr && 16 * nr + 16 <= |key|
    ensures Unrounds(key, nr, Cipher(key, nr, s), r) == ShiftRows(SubBytes(Rounds(key, s, r - 1)))
    decreases nr - r
  {
    hide AddRoundKey, SubBytes, InvSubBytes, ShiftRows, InvShiftRows, MixColumns, InvMixColumns, RoundKey;
    if r == nr {
      KeyUndone(ShiftRows(SubBytes(Rounds(key, s, nr - 1))), RoundKey(key, nr));
    } else {
      RoundsUndone(key, nr, s, r + 1);
      var t := Rounds(key, s, r);
      ShiftUndone(SubBytes(t));
      SubBytesUndone(t);
      KeyUndone(MixColumns(ShiftRows(SubBytes(Rounds(key, s, r - 1)))), RoundKey(key, r));
      MixUndone(ShiftRows(SubBytes(Rounds(key, s, r - 1))));
    }
  }

  /** Deciphering undoes ciphering, for every block and every array of round keys. */
  lemma CipherUndone(key: seq<byte>, nr: nat, s: seq<byte>)
    requires Block(s) && 1 <= nr && 16 * nr + 16 <= |key|
    ensures InvCipher(key, nr, Cipher(key, nr, s)) == s
  {
    hide AddRoundKey, SubBytes, InvSubBytes, ShiftRows, InvShiftRows, MixColumns, InvMixColumns, RoundKey, Cipher;
    RoundsUndone(key, nr, s, 1);
    var t := Rounds(key, s, 0);
    ShiftUndone(SubBytes(t));
    SubBytesUndone(t);
    KeyUndone(s, RoundKey(key, 0));
  }
}
