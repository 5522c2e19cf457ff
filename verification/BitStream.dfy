/** A byte string read as bits, lowest bit of each byte first (section 3.1.1 of RFC 1951). */
module BitStream {
  import opened Bits

  type byte = b: int | 0 <= b < 256

  /** The bytes of all pieces. */
  function Concat(pieces: seq<seq<byte>>): seq<byte>
  {
    if pieces == [] then [] else Concat(pieces[..|pieces| - 1]) + pieces[|pieces| - 1]
  }

  lemma ConcatNone(pieces: seq<seq<byte>>)
    ensures Concat(pieces[..0]) == []
  {}

  lemma ConcatMore(pieces: seq<seq<byte>>, k: nat)
    requires k < |pieces|
    ensures Concat(pieces[..k + 1]) == Concat(pieces[..k]) + pieces[k]
  {
    assert pieces[..k + 1][..k] == pieces[..k];
  }

  function BitAt(s: seq<byte>, p: nat): (b: nat)
    requires p < 8 * |s|
    ensures b < 2
  {
    Shr(s[p / 8], p % 8) % 2
  }

  /** The n bits from bit pos on, as a number with the first bit lowest. */
  function Peek(s: seq<byte>, pos: nat, n: nat): nat
    requires pos + n <= 8 * |s|
    decreases n
  {
    if n == 0 then 0 else BitAt(s, pos) + 2 * Peek(s, pos + 1, n - 1)
  }

  lemma PeekNone(s: seq<byte>, pos: nat)
    requires pos <= 8 * |s|
    ensures Peek(s, pos, 0) == 0
  {}

  lemma {:induction false} PeekBound(s: seq<byte>, pos: nat, n: nat)
    requires pos + n <= 8 * |s|
    ensures Peek(s, pos, n) < Pow2(n)
    decreases n
  {
    if n != 0 {
      PeekBound(s, pos + 1, n - 1);
    }
  }

  /** The first k of n bits, and the rest. */
  lemma {:induction false} PeekSplit(s: seq<byte>, pos: nat, n: nat, k: nat)
    requires k <= n && pos + n <= 8 * |s|
    ensures Low(Peek(s, pos, n), k) == Peek(s, pos, k)
    ensures Shr(Peek(s, pos, n), k) == Peek(s, pos + k, n - k)
    decreases k
  {
    hide BitAt;
    if k != 0 {
      assert Peek(s, pos, n) % 2 == BitAt(s, pos) % 2;
      PeekSplit(s, pos + 1, n - 1, k - 1);
    }
  }

  /** Later input does not change earlier bits. */
  lemma {:induction false} PeekPrefix(s: seq<byte>, t: seq<byte>, pos: nat, n: nat)
    requires pos + n <= 8 * |s| && s <= t
    ensures Peek(s, pos, n) == Peek(t, pos, n)
    decreases n
  {
    if n != 0 {
      PeekPrefix(s, t, pos + 1, n - 1);
    }
  }

  lemma {:induction false} PeekInByte(s: seq<byte>, i: nat, k: nat)
    requires i < |s| && k <= 8
    ensures Peek(s, 8 * i + k, 8 - k) == Shr(s[i], k)
    decreases 8 - k
  {
    if k == 8 {
      assert Pow2(8) == 256;
      LowFits(s[i], 8);
    } else {
      PeekInByte(s, i, k + 1);
      ShrShr(s[i], k, 1);
      assert Shr(Shr(s[i], k), 1) == Shr(s[i], k) / 2;
      assert (8 * i + k) / 8 == i && (8 * i + k) % 8 == k;
    }
  }

  lemma PeekByte(s: seq<byte>, i: nat)
    requires i < |s|
    ensures Peek(s, 8 * i, 8) == s[i]
  {
    PeekInByte(s, i, 0);
  }

  lemma {:induction false} PeekJoin(s: seq<byte>, pos: nat, a: nat, b: nat)
    requires pos + a + b <= 8 * |s|
    ensures Peek(s, pos, a + b) == Peek(s, pos, a) + Shl(Peek(s, pos + a, b), a)
  {
    hide Peek, Shl, Low, Shr;
    PeekSplit(s, pos, a + b, a);
    Recompose(Peek(s, pos, a + b), a);
  }

  /** Putting one more byte on top of the bits held. */
  lemma PeekAppend(s: seq<byte>, b: byte, pos: nat, n: nat)
    requires pos + n == 8 * |s|
    ensures Peek(s + [b], pos, n + 8) == Peek(s, pos, n) + Shl(b, n)
  {
    hide Peek, Shl;
    PeekJoin(s + [b], pos, n, 8);
    PeekPrefix(s, s + [b], pos, n);
    PeekByte(s + [b], |s|);
  }
}
