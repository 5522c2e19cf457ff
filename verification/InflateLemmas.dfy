/** Facts about tables that inflate builds and keeps. */
module InflateLemmas {
  import opened Bits
  import opened Huffman
  import opened TableSpec
  import opened InfTrees
  import opened BitStream
  import opened Decoder
  import opened DecoderRuns
  import opened BitBuffer

  lemma {:induction false} CountRun(pre: seq<nat>, v: nat, n: nat, l: nat)
    ensures Count(pre + Repeat(v, n), l) == Count(pre, l) + (if v == l then n else 0)
  {
    if n == 0 {
      assert pre + Repeat(v, 0) == pre;
    } else {
      var s := pre + Repeat(v, n);
      assert s[..|s| - 1] == pre + Repeat(v, n - 1);
      CountRun(pre, v, n - 1, l);
    }
  }

  lemma CountFixed(l: nat)
    ensures Count(FixedLit(), l) == if l == 8 then 152 else if l == 9 then 112 else if l == 7 then 24 else 0
    ensures Count(FixedDist(), l) == if l == 5 then 32 else 0
  {
    hide Repeat;
    var a := Repeat(8, 144);
    var b := a + Repeat(9, 112);
    var c := b + Repeat(7, 24);
    assert [] + a == a && [] + Repeat(5, 32) == Repeat(5, 32);
    CountRun([], 8, 144, l);
    CountRun(a, 9, 112, l);
    CountRun(b, 7, 24, l);
    CountRun(c, 8, 8, l);
    CountRun([], 5, 32, l);
  }

  /** The longest and shortest of lengths with nothing outside lo..hi. */
  lemma {:induction false} MaxLenBetween(lens: seq<nat>, hi: nat, m: nat)
    requires 1 <= hi <= m && Count(lens, hi) != 0 && forall l :: hi < l <= m ==> Count(lens, l) == 0
    ensures MaxLen(lens, m) == hi
  {
    if hi < m {
      MaxLenBetween(lens, hi, m - 1);
    }
  }

  /** No codeword is longer than the root index, so there is only the root table. */
  lemma OnlyRoot(lens: seq<nat>, root: nat)
    requires LengthsOk(lens) && MaxLen(lens, MAXBITS) <= root <= MAXBITS
    ensures TableSize(lens, root) == Pow2(root)
  {
    hide Pow2, MaxLen, Lo;
    forall s: nat | IsSym(lens, s)
      ensures lens[s] <= root
    {
      SymLenBounds(lens, s);
    }
    NoSubTables(lens, root, Pow2(root));
  }

  /** The fixed tables fit: 512 and 32 entries. */
  lemma FixedFits()
    ensures CodeOk(LENS, FixedLit()) && CodeOk(DISTS, FixedDist())
    ensures |FixedLit()| == 288 && |FixedDist()| == 32
    ensures RootBits(FixedLit(), 9) == 9 && TableSize(FixedLit(), 9) == 512
    ensures RootBits(FixedDist(), 5) == 5 && TableSize(FixedDist(), 5) == 32
  {
    hide FixedLit, FixedDist, Count, Pow2, Acceptable, Kraft, SubSizes;
    FixedOk();
    forall l: nat
      ensures Count(FixedLit(), l) == if l == 8 then 152 else if l == 9 then 112 else if l == 7 then 24 else 0
      ensures Count(FixedDist(), l) == if l == 5 then 32 else 0
    {
      CountFixed(l);
    }
    MaxLenBetween(FixedLit(), 9, MAXBITS);
    MaxLenBetween(FixedDist(), 5, MAXBITS);
    MinLenIs(FixedLit(), 1, 9);
    MinLenIs(FixedDist(), 1, 5);
    OnlyRoot(FixedLit(), 9);
    OnlyRoot(FixedDist(), 5);
    FixedSizes();
  }

  lemma FixedSizes()
    ensures Pow2(9) == 512 && Pow2(5) == 32
    ensures |FixedLit()| == 288 && |FixedDist()| == 32
  {}

  /** Order and Place are inverse permutations of 0..18. */
  lemma OrderPlace(i: nat)
    requires i < 19
    ensures Order[i] < 19 && Place[i] < 19
    ensures Place[Order[i]] == i && Order[Place[i]] == i
  {}

  /** The length sent as number i is that of symbol Order[i]; those not sent are zero. */
  lemma LengthsInOrder(cl: seq<nat>, i: nat)
    requires i < 19
    ensures Order[i] < 19 && CodeLengthCode(cl)[Order[i]] == if i < |cl| then cl[i] else 0
  {
    OrderPlace(i);
  }
}
