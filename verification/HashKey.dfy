/** The rolling hash key of deflate (UPDATE_HASH). */
module HashKey {
  import opened Bits
  import opened Gf2
  import opened BitStream

  /** hash_bits as memLevel sets it, and hash_shift: three shifts push a byte out of the key. */
  predicate KeyBits(bits: nat)
  {
    8 <= bits <= 16
  }

  function ShiftOf(bits: nat): nat
  {
    (bits + 2) / 3
  }

  /** UPDATE_HASH(h, c) */
  function Update(bits: nat, h: nat, c: nat): nat
  {
    Low(Xor(Shl(h, ShiftOf(bits)), c), bits)
  }

  /** The key of three bytes. */
  function Key(bits: nat, a: nat, b: nat, c: nat): nat
  {
    Update(bits, Update(bits, Update(bits, 0, a), b), c)
  }

  lemma UpdateBound(bits: nat, h: nat, c: nat)
    ensures Update(bits, h, c) < Pow2(bits)
  {
    LowBound(Xor(Shl(h, ShiftOf(bits)), c), bits);
  }

  lemma {:induction false} LowShl(h: nat, s: nat, n: nat)
    ensures Low(Shl(h, s), s + n) == Shl(Low(h, n), s)
  {
    if s != 0 {
      assert Shl(h, s) / 2 == Shl(h, s - 1) && Shl(h, s) % 2 == 0;
      LowShl(h, s - 1, n);
    }
  }

  lemma {:induction false} LowLow(x: nat, m: nat, n: nat)
    requires n <= m
    ensures Low(Low(x, m), n) == Low(x, n)
  {
    if n != 0 {
      LowLow(x / 2, m - 1, n - 1);
    }
  }

  /** What two keys have in common in their low k bits they keep, one shift further up. */
  lemma UpdateMixes(bits: nat, h: nat, h': nat, c: nat, k: nat, k': nat)
    requires Low(h, k) == Low(h', k) && k' <= k + ShiftOf(bits) && ShiftOf(bits) <= k' <= bits
    ensures Low(Update(bits, h, c), k') == Low(Update(bits, h', c), k')
  {
    hide Low, Update, ShiftOf;
    var s := ShiftOf(bits);
    LowLow(h, k, k' - s);
    LowLow(h', k, k' - s);
    UpdateLow(bits, h, c, k');
    UpdateLow(bits, h', c, k');
  }

  /** The low bits of a key after an update come from those of the key before. */
  lemma UpdateLow(bits: nat, h: nat, c: nat, k: nat)
    requires ShiftOf(bits) <= k <= bits
    ensures Low(Update(bits, h, c), k) == Xor(Shl(Low(h, k - ShiftOf(bits)), ShiftOf(bits)), Low(c, k))
  {
    hide Low, Shl, Xor, ShiftOf;
    var s := ShiftOf(bits);
    LowLow(Xor(Shl(h, s), c), bits, k);
    LowXor(Shl(h, s), c, k);
    LowShl(h, s, k - s);
  }

  /** After three updates nothing is left of the key before them. */
  lemma Forgets(bits: nat, h: nat, a: nat, b: nat, c: nat)
    requires KeyBits(bits)
    ensures Update(bits, Update(bits, Update(bits, h, a), b), c) == Key(bits, a, b, c)
  {
    hide Low, Update;
    var s := ShiftOf(bits);
    assert Low(h, 0) == Low(0, 0) by { LowNone(h); LowNone(0); }
    UpdateMixes(bits, h, 0, a, 0, s);
    var x, x' := Update(bits, h, a), Update(bits, 0, a);
    UpdateMixes(bits, x, x', b, s, 2 * s);
    var y, y' := Update(bits, x, b), Update(bits, x', b);
    UpdateMixes(bits, y, y', c, 2 * s, bits);
    UpdateBound(bits, y, c);
    UpdateBound(bits, y', c);
    LowFits(Update(bits, y, c), bits);
    LowFits(Update(bits, y', c), bits);
  }

  /** Equal keys and two equal bytes make the third byte equal: hash_bits is at least 8. */
  lemma ThirdByte(bits: nat, a: nat, b: nat, c: byte, c': byte)
    requires KeyBits(bits) && Key(bits, a, b, c) == Key(bits, a, b, c')
    ensures c == c'
  {
    hide Low, Xor, Shl;
    var h := Shl(Update(bits, Update(bits, 0, a), b), ShiftOf(bits));
    LowXor(h, c, bits);
    LowXor(h, c', bits);
    Pow2Mono(8, bits);
    assert Pow2(8) == 256;
    LowFits(c, bits);
    LowFits(c', bits);
    XorCancels(Low(h, bits), c, c');
  }

  /** The running key is ready for the string that starts with a, b. */
  ghost predicate Rolled(bits: nat, h: nat, a: nat, b: nat)
  {
    forall c: nat :: Update(bits, h, c) == Key(bits, a, b, c)
  }

  /** ins_h = a; UPDATE_HASH(b) */
  lemma RolledAfresh(bits: nat, a: byte, b: byte)
    requires KeyBits(bits)
    ensures Rolled(bits, Update(bits, a, b), a, b)
  {
    hide Low, Shl;
    Pow2Mono(8, bits);
    assert Pow2(8) == 256;
    LowFits(a, bits);
    ShlZeroOne(ShiftOf(bits));
    assert Xor(0, a) == a;
    assert Update(bits, 0, a) == a;
    assert forall c: nat :: Update(bits, Update(bits, a, b), c) == Key(bits, a, b, c);
  }

  /** UPDATE_HASH moves on by one byte. */
  lemma RolledOn(bits: nat, h: nat, a: nat, b: nat, c: nat)
    requires KeyBits(bits) && Rolled(bits, h, a, b)
    ensures Update(bits, h, c) == Key(bits, a, b, c)
    ensures Rolled(bits, Update(bits, h, c), b, c)
  {
    hide Update;
    forall d: nat
      ensures Update(bits, Update(bits, h, c), d) == Key(bits, b, c, d)
    {
      Forgets(bits, Update(bits, 0, a), b, c, d);
    }
  }
}
