/**
 Unsigned shifts, masks and bit reversal, defined by doubling and halving so
 that every proof about them stays linear.
 */
module Bits {

  /** 1 << n */
  function Pow2(n: nat): (r: nat)
    ensures 1 <= r
  {
    if n == 0 then 1 else 2 * Pow2(n - 1)
  }

  /** x << n */
  function Shl(x: nat, n: nat): nat
  {
    if n == 0 then x else 2 * Shl(x, n - 1)
  }

  /** x >> n */
  function Shr(x: nat, n: nat): nat
  {
    if n == 0 then x else Shr(x / 2, n - 1)
  }

  /** x & ((1 << n) - 1) */
  function Low(x: nat, n: nat): nat
  {
    if n == 0 then 0 else x % 2 + 2 * Low(x / 2, n - 1)
  }

  /** The low n bits of x in the opposite order. */
  function Rev(n: nat, x: nat): nat
  {
    if n == 0 then 0 else Shl(x % 2, n - 1) + Rev(n - 1, x / 2)
  }

  // ---- powers

  lemma {:induction false} Pow2Mono(a: nat, b: nat)
    requires a <= b
    ensures Pow2(a) <= Pow2(b)
    ensures a < b ==> 2 * Pow2(a) <= Pow2(b)
  {
    if a < b {
      Pow2Mono(a, b - 1);
    }
  }

  lemma Pow2Step(n: nat)
    ensures Pow2(n + 1) == Pow2(n) + Pow2(n)
  {}

  // ---- left shift

  lemma {:induction false} ShlZeroOne(n: nat)
    ensures Shl(0, n) == 0
    ensures Shl(1, n) == Pow2(n)
  {
    if n != 0 {
      ShlZeroOne(n - 1);
    }
  }

  lemma {:induction false} ShlAdd(x: nat, y: nat, n: nat)
    ensures Shl(x + y, n) == Shl(x, n) + Shl(y, n)
  {
    if n != 0 {
      ShlAdd(x, y, n - 1);
    }
  }

  lemma {:induction false} ShlShl(x: nat, a: nat, b: nat)
    ensures Shl(Shl(x, a), b) == Shl(x, a + b)
  {
    if b != 0 {
      ShlShl(x, a, b - 1);
    }
  }

  lemma {:induction false} ShlMono(x: nat, y: nat, n: nat)
    requires x <= y
    ensures Shl(x, n) <= Shl(y, n)
    ensures x < y ==> Shl(x, n) + Pow2(n) <= Shl(y, n)
  {
    if n != 0 {
      ShlMono(x, y, n - 1);
    }
  }

  /** Doubling inside or outside a shift is the same. */
  lemma ShlDouble(x: nat, n: nat)
    ensures Shl(2 * x, n) == Shl(x, n + 1)
  {
    ShlShl(x, 1, n);
    assert Shl(x, 1) == 2 * Shl(x, 0);
  }

  lemma ShlPow2(a: nat, b: nat)
    ensures Shl(Pow2(a), b) == Pow2(a + b)
  {
    ShlZeroOne(a);
    ShlZeroOne(a + b);
    ShlShl(1, a, b);
  }

  // ---- right shift and mask

  lemma {:induction false} LowBound(x: nat, n: nat)
    ensures Low(x, n) < Pow2(n)
    ensures Low(x, n) <= x
  {
    if n != 0 {
      LowBound(x / 2, n - 1);
    }
  }

  lemma {:induction false} LowFits(x: nat, n: nat)
    requires x < Pow2(n)
    ensures Low(x, n) == x
    ensures Shr(x, n) == 0
  {
    if n != 0 {
      LowFits(x / 2, n - 1);
    }
  }

  /** A number is its high part and its low part. */
  lemma {:induction false} Recompose(x: nat, n: nat)
    ensures x == Low(x, n) + Shl(Shr(x, n), n)
  {
    if n != 0 {
      Recompose(x / 2, n - 1);
    }
  }

  /** ... and only in one way. */
  lemma {:induction false} Decompose(lo: nat, hi: nat, n: nat)
    requires lo < Pow2(n)
    ensures Low(lo + Shl(hi, n), n) == lo
    ensures Shr(lo + Shl(hi, n), n) == hi
  {
    if n != 0 {
      var x := lo + Shl(hi, n);
      assert x / 2 == lo / 2 + Shl(hi, n - 1);
      Decompose(lo / 2, hi, n - 1);
    }
  }

  lemma {:induction false} ShrShr(x: nat, a: nat, b: nat)
    ensures Shr(Shr(x, a), b) == Shr(x, a + b)
  {
    if a != 0 {
      ShrShr(x / 2, a - 1, b);
    }
  }

  /** The low a+b bits are the low a bits below the next b bits. */
  lemma {:induction false} LowSplit(x: nat, a: nat, b: nat)
    ensures Low(x, a + b) == Low(x, a) + Shl(Low(Shr(x, a), b), a)
    ensures Low(Low(x, a + b), a) == Low(x, a)
    ensures Shr(Low(x, a + b), a) == Low(Shr(x, a), b)
  {
    if a == 0 {
    } else {
      LowSplit(x / 2, a - 1, b);
      LowBound(x, a);
      Decompose(Low(x, a), Low(Shr(x, a), b), a);
    }
  }

  lemma ShrBound(x: nat, a: nat, b: nat)
    requires x < Pow2(a + b)
    ensures Shr(x, a) < Pow2(b)
  {
    LowFits(x, a + b);
    LowSplit(x, a, b);
    LowBound(Shr(x, a), b);
  }

  // ---- reversal

  lemma {:induction false} RevBound(n: nat, x: nat)
    ensures Rev(n, x) < Pow2(n)
  {
    if n != 0 {
      RevBound(n - 1, x / 2);
      ShlZeroOne(n - 1);
    }
  }

  /** Reversal puts the low a bits on top of the next b. */
  lemma {:induction false} RevSplit(a: nat, b: nat, x: nat)
    ensures Rev(a + b, x) == Shl(Rev(a, x), b) + Rev(b, Shr(x, a))
  {
    if a == 0 {
      ShlZeroOne(b);
    } else {
      RevSplit(a - 1, b, x / 2);
      ShlShl(x % 2, a - 1, b);
      ShlAdd(Shl(x % 2, a - 1), Rev(a - 1, x / 2), b);
    }
  }

  lemma {:induction false} RevLow(n: nat, x: nat)
    ensures Rev(n, x) == Rev(n, Low(x, n))
  {
    if n != 0 {
      RevLow(n - 1, x / 2);
    }
  }

  lemma {:induction false} RevZero(n: nat)
    ensures Rev(n, 0) == 0
  {
    if n != 0 {
      RevZero(n - 1);
      ShlZeroOne(n - 1);
    }
  }

  lemma RevOne(n: nat, x: nat)
    requires 0 < n
    ensures Rev(n, x) == Rev(n - 1, x / 2) + Shl(x % 2, n - 1)
    ensures x < Pow2(n) ==> x / 2 < Pow2(n - 1)
    ensures x < 2 ==> Rev(1, x) == x
    ensures Shl(x, 1) == 2 * x
  {}

  /** One bit more: y is the reversal of half, and comes below the bit. */
  lemma RevMore(n: nat, half: nat, bit: nat, y: nat)
    requires bit < 2 && y < Pow2(n) && Rev(n, y) == half
    ensures Rev(n + 1, Shl(bit, n) + y) == 2 * half + bit
  {
    hide Rev, Shl, Shr, Low, Pow2;
    var z := Shl(bit, n) + y;
    RevSplit(n, 1, z);
    Decompose(y, bit, n);
    RevLow(n, z);
    RevOne(1, bit);
    RevOne(1, half);
  }

  lemma {:induction false} RevInvolution(n: nat, x: nat)
    requires x < Pow2(n)
    ensures Rev(n, Rev(n, x)) == x
  {
    if n != 0 {
      hide Rev, Shl, Pow2;
      RevOne(n, x);
      RevBound(n - 1, x / 2);
      RevInvolution(n - 1, x / 2);
      RevMore(n - 1, x / 2, x % 2, Rev(n - 1, x / 2));
    } else {
      assert Rev(0, x) == 0;
    }
  }

  /** Appending d zero bits at the low end does not change the reversal. */
  lemma RevShift(n: nat, d: nat, c: nat)
    ensures Rev(d + n, Shl(c, d)) == Rev(n, c)
  {
    RevSplit(d, n, Shl(c, d));
    Decompose(0, c, d);
    RevLow(d, Shl(c, d));
    RevZero(d);
    ShlZeroOne(n);
  }

  lemma RevMatch(l: nat, c: nat, x: nat)
    requires c < Pow2(l)
    ensures Low(x, l) == Rev(l, c) <==> Rev(l, x) == c
  {
    RevLow(l, x);
    LowBound(x, l);
    RevInvolution(l, Low(x, l));
    RevInvolution(l, c);
  }

  lemma IntervalIsQuotient(q: nat, t: nat, c: nat, d: nat)
    requires t < Pow2(d)
    ensures Shl(c, d) <= Shl(q, d) + t < Shl(c, d) + Pow2(d) <==> q == c
  {
    if q <= c {
      ShlMono(q, c, d);
    } else {
      ShlMono(c, q, d);
    }
  }

  /** The low l bits of x spell the reversed l-bit code c exactly when the
      n-bit reversal of x falls in the interval of n-bit strings that start with c. */
  lemma PrefixInterval(n: nat, l: nat, c: nat, x: nat)
    requires l <= n && c < Pow2(l)
    ensures Low(x, l) == Rev(l, c)
       <==> Shl(c, n - l) <= Rev(n, x) < Shl(c, n - l) + Pow2(n - l)
  {
    hide Rev, Low, Shl, Shr, Pow2;
    RevMatch(l, c, x);
    var q, t := Rev(l, x), Rev(n - l, Shr(x, l));
    assert t < Pow2(n - l) by { RevBound(n - l, Shr(x, l)); }
    assert Rev(n, x) == Shl(q, n - l) + t by { RevSplit(l, n - l, x); }
    IntervalIsQuotient(q, t, c, n - l);
  }
}
