/** The inner loops of inflate_table: replication, backwards increment and look-ahead. */
module TableSteps {
  import opened Bits
  import opened Huffman
  import opened TableSpec
  import opened TableFill
  import opened TableSort

  /** Entries from the m-th replica up are written. */
  ghost predicate PartlyReplicated(t: seq<Code>, t': seq<Code>, at: nat, curr: nat, k: nat, first: nat, here: Code, m: nat)
  {
    && |t'| == |t|
    && forall j :: 0 <= j < |t| ==>
         t'[j] == if at <= j < at + Pow2(curr) && Low(j - at, k) == first && m <= Shr(j - at, k) then here else t[j]
  }

  lemma OneReplica(t: seq<Code>, t': seq<Code>, at: nat, curr: nat, k: nat, first: nat, here: Code, m: nat)
    requires PartlyReplicated(t, t', at, curr, k, first, here, m + 1)
    requires first < Pow2(k) && k <= curr && m < Pow2(curr - k) && at + Pow2(curr) <= |t|
    ensures first + Shl(m, k) < Pow2(curr)
    ensures PartlyReplicated(t, t'[at + first + Shl(m, k) := here], at, curr, k, first, here, m)
  {
    hide Low, Shl, Pow2, Shr;
    var z := first + Shl(m, k);
    Decompose(first, m, k);
    ShlMono(m, Pow2(curr - k), k);
    ShlPow2(curr - k, k);
    forall y: nat | Low(y, k) == first && Shr(y, k) == m
      ensures y == z
    {
      Recompose(y, k);
    }
    var t'' := t'[at + z := here];
    forall j | 0 <= j < |t|
      ensures t''[j] == if at <= j < at + Pow2(curr) && Low(j - at, k) == first && m <= Shr(j - at, k) then here else t[j]
    {
      if j != at + z && at <= j {
        var y: nat := j - at;
        assert !(Low(y, k) == first && Shr(y, k) == m);
      }
    }
  }

  lemma NoReplica(t: seq<Code>, at: nat, curr: nat, k: nat, first: nat, here: Code)
    requires k <= curr
    ensures PartlyReplicated(t, t, at, curr, k, first, here, Pow2(curr - k))
  {
    forall z: nat | z < Pow2(curr)
      ensures Shr(z, k) < Pow2(curr - k)
    {
      ShrBound(z, k, curr - k);
    }
  }

  lemma AllReplicas(t: seq<Code>, t': seq<Code>, at: nat, curr: nat, k: nat, first: nat, here: Code)
    requires PartlyReplicated(t, t', at, curr, k, first, here, 0)
    ensures Replicated(t, t', at, curr, k, first, here)
  {}

  /** Replicate here for those of the 2^curr indices whose low k bits are first. */
  method FillEntries(table: array<Code>, at: nat, curr: nat, k: nat, first: nat, here: Code)
    requires k <= curr && first < Pow2(k) && at + Pow2(curr) <= table.Length
    modifies table
    ensures Replicated(old(table[..]), table[..], at, curr, k, first, here)
  {
    hide Low, Shl, Pow2, Shr, PartlyReplicated, Replicated;
    var incr := Pow2(k);
    var fill := Pow2(curr);
    ghost var t := table[..];
    ghost var m: nat := Pow2(curr - k);
    ShlPow2(curr - k, k);
    NoReplica(t, at, curr, k, first, here);
    while fill != 0
      invariant fill == Shl(m, k) && m <= Pow2(curr - k)
      invariant PartlyReplicated(t, table[..], at, curr, k, first, here, m)
    {
      ghost var now := table[..];
      assert m != 0 by { ShlZeroOne(k); }
      m := m - 1;
      assert Shl(m + 1, k) == Shl(m, k) + incr by { ShlAdd(m, 1, k); ShlZeroOne(k); }
      fill := fill - incr;
      OneReplica(t, now, at, curr, k, first, here, m);
      table[at + first + fill] := here;
      assert table[..] == now[at + first + Shl(m, k) := here];
    }
    assert m == 0 by { if m != 0 { ShlMono(0, m, k); } }
    AllReplicas(t, table[..], at, curr, k, first, here);
  }

  lemma {:induction false} RevOnes(n: nat)
    ensures Rev(n, Pow2(n) - 1) == Pow2(n) - 1
  {
    if n != 0 {
      RevOnes(n - 1);
      ShlZeroOne(n - 1);
    }
  }

  lemma RevSmall(t: nat)
    ensures Rev(t + 1, 2 * (Pow2(t) - 1)) == Pow2(t) - 1
    ensures Rev(t + 1, 1) == Pow2(t)
  {
    RevOnes(t);
    RevZero(t);
    ShlZeroOne(t);
  }

  /** Turning the highest zero bit k into a one and clearing the ones above it adds one to the reversal. */
  lemma CarryStops(len: nat, huff: nat, k: nat)
    requires k < len && Shr(huff, k) == 2 * (Pow2(len - 1 - k) - 1)
    ensures Rev(len, Low(huff, k) + Pow2(k)) == Rev(len, huff) + 1
    ensures Low(huff, k) + Pow2(k) < Pow2(len)
  {
    var t := len - 1 - k;
    hide Rev, Low, Shl, Shr;
    RevSplit(k, t + 1, huff);
    RevSmall(t);
    var huff' := Low(huff, k) + Pow2(k);
    LowBound(huff, k);
    ShlZeroOne(k);
    Decompose(Low(huff, k), 1, k);
    RevSplit(k, t + 1, huff');
    RevLow(k, huff);
    RevLow(k, huff');
    ShlZeroOne(t);
    Pow2Mono(k + 1, len);
  }

  /** Backwards increment of the len-bit code huff: the carry runs downwards from bit len - 1. */
  method BackIncrement(huff: nat, len: nat) returns (r: nat)
    requires 1 <= len && huff < Pow2(len)
    ensures r < Pow2(len)
    ensures Rev(len, r) == if Rev(len, huff) + 1 == Pow2(len) then 0 else Rev(len, huff) + 1
  {
    hide Low, Shl, Rev;
    var k: int := len - 1;      // incr is 1 << k, or zero when k is -1
    ShrBound(huff, len, 0);
    LowFits(huff, len);
    while k >= 0 && Shr(huff, k) % 2 == 1
      invariant -1 <= k < len
      invariant Shr(huff, k + 1) == Pow2(len - 1 - k) - 1
    {
      ShrOne(huff, k);
      k := k - 1;
    }
    if k >= 0 {
      ShrOne(huff, k);
      CarryStops(len, huff, k);
      RevBound(len, Low(huff, k) + Pow2(k));
      r := Low(huff, k) + Pow2(k);
    } else {
      assert huff == Pow2(len) - 1;
      RevOnes(len);
      RevZero(len);
      r := 0;
    }
  }

  lemma ShrOne(x: nat, k: nat)
    ensures Shr(x, k) == 2 * Shr(x, k + 1) + Shr(x, k) % 2
  {
    ShrShr(x, k, 1);
    assert Shr(Shr(x, k), 1) == Shr(x, k) / 2;
  }
}
