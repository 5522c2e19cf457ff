/** Exclusive or on numbers, bit by bit: addition of polynomials over GF(2). */
module Gf2 {
  import opened Bits

  /** a ^ b */
  function Xor(a: nat, b: nat): nat
  {
    if a == 0 then b else (a + b) % 2 + 2 * Xor(a / 2, b / 2)
  }

  lemma {:induction false} LowXor(a: nat, b: nat, n: nat)
    ensures Low(Xor(a, b), n) == Xor(Low(a, n), Low(b, n))
  {
    hide Xor, Low;
    if n == 0 {
      LowNone(a);
      LowNone(b);
      LowNone(Xor(a, b));
      XorNone();
    } else {
      XorHalves(a, b);
      XorHalves(Low(a, n), Low(b, n));
      LowHalves(a, n);
      LowHalves(b, n);
      LowHalves(Xor(a, b), n);
      LowXor(a / 2, b / 2, n - 1);
      SumParity(a, b, Low(a, n), Low(b, n));
    }
  }

  lemma XorNone()
    ensures Xor(0, 0) == 0
  {}

  lemma SumParity(a: nat, b: nat, c: nat, d: nat)
    requires a % 2 == c % 2 && b % 2 == d % 2
    ensures (a + b) % 2 == (c + d) % 2
  {}

  lemma XorHalves(a: nat, b: nat)
    ensures Xor(a, b) % 2 == (a + b) % 2 && Xor(a, b) / 2 == Xor(a / 2, b / 2)
  {
    hide Xor;
    XorIs(a, b);
    XorIs(a / 2, b / 2);
    TwiceAnd((a + b) % 2, Xor(a / 2, b / 2));
  }

  lemma TwiceAnd(r: nat, x: nat)
    requires r < 2
    ensures (r + 2 * x) % 2 == r && (r + 2 * x) / 2 == x
  {}

  lemma XorIs(a: nat, b: nat)
    ensures a == 0 ==> Xor(a, b) == b
    ensures a != 0 ==> Xor(a, b) == (a + b) % 2 + 2 * Xor(a / 2, b / 2)
  {}

  lemma LowHalves(x: nat, n: nat)
    requires n != 0
    ensures Low(x, n) % 2 == x % 2 && Low(x, n) / 2 == Low(x / 2, n - 1)
  {}

  lemma {:induction false} XorCancels(x: nat, a: nat, b: nat)
    requires Xor(x, a) == Xor(x, b)
    ensures a == b
  {
    hide Xor;
    if x == 0 {
      XorIs(0, a);
      XorIs(0, b);
    } else {
      XorHalves(x, a);
      XorHalves(x, b);
      XorCancels(x / 2, a / 2, b / 2);
      SameParity(x, a, b);
    }
  }

  lemma SameParity(x: nat, a: nat, b: nat)
    requires (x + a) % 2 == (x + b) % 2
    ensures a % 2 == b % 2
  {}

  lemma LowNone(x: nat)
    ensures Low(x, 0) == 0
  {}

  // ---- the laws of exclusive or

  lemma {:induction false} XorComm(a: nat, b: nat)
    ensures Xor(a, b) == Xor(b, a)
  {
    hide Xor;
    if a == 0 && b == 0 {
    } else {
      XorHalves(a, b);
      XorHalves(b, a);
      XorComm(a / 2, b / 2);
    }
  }

  lemma {:induction false} XorAssoc(a: nat, b: nat, c: nat)
    ensures Xor(Xor(a, b), c) == Xor(a, Xor(b, c))
  {
    hide Xor;
    if a == 0 && b == 0 && c == 0 {
      XorNone();
    } else {
      XorHalves(a, b);
      XorHalves(Xor(a, b), c);
      XorHalves(b, c);
      XorHalves(a, Xor(b, c));
      XorAssoc(a / 2, b / 2, c / 2);
      Parities(a, b, c, Xor(a, b), Xor(b, c));
    }
  }

  lemma Parities(a: nat, b: nat, c: nat, x: nat, y: nat)
    requires x % 2 == (a + b) % 2 && y % 2 == (b + c) % 2
    ensures (x + c) % 2 == (a + y) % 2
  {}

  lemma {:induction false} XorSelf(a: nat)
    ensures Xor(a, a) == 0
  {
    hide Xor;
    if a == 0 {
      XorNone();
    } else {
      XorHalves(a, a);
      XorSelf(a / 2);
    }
  }

  lemma XorZero(a: nat)
    ensures Xor(0, a) == a && Xor(a, 0) == a
  {
    XorComm(a, 0);
  }

  /** Adding the same thing twice changes nothing. */
  lemma XorTwice(a: nat, x: nat)
    ensures Xor(x, Xor(x, a)) == a
  {
    XorAssoc(x, x, a);
    XorSelf(x);
    XorZero(a);
  }

  /** (a ^ b) ^ (c ^ d) == (a ^ c) ^ (b ^ d) */
  lemma XorSwap(a: nat, b: nat, c: nat, d: nat)
    ensures Xor(Xor(a, b), Xor(c, d)) == Xor(Xor(a, c), Xor(b, d))
  {
    hide Xor;
    XorAssoc(a, b, Xor(c, d));
    XorAssoc(b, c, d);
    XorComm(b, c);
    XorAssoc(c, b, d);
    XorAssoc(a, c, Xor(b, d));
  }

  lemma {:induction false} XorBound(a: nat, b: nat, n: nat)
    requires a < Pow2(n) && b < Pow2(n)
    ensures Xor(a, b) < Pow2(n)
  {
    hide Xor;
    if n == 0 {
      XorNone();
    } else {
      XorHalves(a, b);
      XorBound(a / 2, b / 2, n - 1);
    }
  }

  // ---- shifts

  lemma {:induction false} ShrXor(a: nat, b: nat, n: nat)
    ensures Shr(Xor(a, b), n) == Xor(Shr(a, n), Shr(b, n))
  {
    hide Xor;
    if n != 0 {
      XorHalves(a, b);
      ShrXor(a / 2, b / 2, n - 1);
    }
  }

  lemma {:induction false} ShlXor(a: nat, b: nat, n: nat)
    ensures Shl(Xor(a, b), n) == Xor(Shl(a, n), Shl(b, n))
  {
    hide Xor;
    if n != 0 {
      ShlXor(a, b, n - 1);
      XorHalves(Shl(a, n), Shl(b, n));
    }
  }

  /** Bits that do not overlap add up. */
  lemma {:induction false} XorDisjoint(lo: nat, hi: nat, n: nat)
    requires lo < Pow2(n)
    ensures Xor(lo, Shl(hi, n)) == lo + Shl(hi, n)
  {
    hide Xor;
    if n == 0 {
      XorZero(hi);
    } else {
      XorHalves(lo, Shl(hi, n));
      XorDisjoint(lo / 2, hi, n - 1);
    }
  }

  /** A number is its low part and its high part. */
  lemma XorParts(x: nat, n: nat)
    ensures x == Xor(Low(x, n), Shl(Shr(x, n), n))
  {
    hide Xor, Low, Shl, Shr;
    LowBound(x, n);
    XorDisjoint(Low(x, n), Shr(x, n), n);
    Recompose(x, n);
  }
}
