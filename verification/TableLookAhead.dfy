/** Sizing a sub-table from the counts of the lengths still to come. */
module TableLookAhead {
  import opened Bits
  import opened Huffman
  import opened TableSpec
  import opened TableSort

  /** count[] holds what is left from symbol cur on. */
  ghost predicate CountsLeft(lens: seq<nat>, cnt: seq<nat>, cur: nat)
  {
    && IsSym(lens, cur)
    && |cnt| == MAXBITS + 1
    && forall l :: lens[cur] <= l <= MAXBITS ==>
         cnt[l] == Count(lens, l) - (if l == lens[cur] then Rank(lens, cur) else 0)
  }

  lemma InSlot(u: nat, y: nat, d: nat)
    ensures Shl(u, d) <= y < Shl(u, d) + Pow2(d) <==> Shr(y, d) == u
  {
    Recompose(y, d);
    LowBound(y, d);
    if Shr(y, d) < u {
      ShlMono(Shr(y, d), u, d);
    } else {
      ShlMono(u, Shr(y, d), d);
    }
  }

  lemma SlotAtLeast(u: nat, y: nat, d: nat)
    requires Shl(u, d) <= y
    ensures u <= Shr(y, d)
  {
    Recompose(y, d);
    LowBound(y, d);
    if Shr(y, d) < u {
      ShlMono(Shr(y, d), u, d);
    }
  }

  /** Where the symbols of length l still to come start. */
  function Reached(lens: seq<nat>, cur: nat, l: nat): nat
    requires IsSym(lens, cur) && lens[cur] <= l <= MAXBITS + 1
  {
    if l == lens[cur] then Lo(lens, cur) else Edge(lens, l)
  }

  lemma ReachedStep(lens: seq<nat>, cnt: seq<nat>, cur: nat, l: nat)
    requires CountsLeft(lens, cnt, cur) && lens[cur] <= l <= MAXBITS
    ensures Reached(lens, cur, l + 1) == Reached(lens, cur, l) + Shl(cnt[l], MAXBITS - l)
  {
    EdgeStep(lens, l);
    RankBelowCount(lens, cur);
    if l == lens[cur] {
      ShlAdd(CodeOf(lens, cur), cnt[l], MAXBITS - l);
    }
  }

  /** The first symbol of a length that occurs. */
  lemma FirstOfLength(lens: seq<nat>, w: seq<nat>, l: nat) returns (s: nat)
    requires Sorted(lens, w) && 1 <= l <= MAXBITS && Count(lens, l) != 0
    ensures IsSym(lens, s) && lens[s] == l && Rank(lens, s) == 0 && Lo(lens, s) == Edge(lens, l)
  {
    var p := Offs(lens, l);
    assert p < Offs(lens, l + 1);
    OffsMono(lens, l + 1, MAXBITS + 1);
    s := w[p];
    PosRange(lens, s);
    if lens[s] < l {
      OffsMono(lens, lens[s] + 1, l);
    } else if l < lens[s] {
      OffsMono(lens, l + 1, lens[s]);
    }
  }

  /** The first length whose codes reach the end of the slot, or the longest of all,
      is the longest codeword under the slot. */
  lemma DeepestHere(lens: seq<nat>, w: seq<nat>, root: nat, cur: nat, l: nat)
    requires LengthsOk(lens) && Sorted(lens, w) && IsSym(lens, cur) && root < lens[cur] <= l <= MAXBITS
    requires Lo(lens, cur) == Shl(SlotOf(lens, root, cur), MAXBITS - root)
    requires l == lens[cur] || Count(lens, l) != 0
    requires Reached(lens, cur, l) < Lo(lens, cur) + Pow2(MAXBITS - root)
    requires l == MaxLen(lens, MAXBITS) || Lo(lens, cur) + Pow2(MAXBITS - root) <= Edge(lens, l + 1)
    ensures Deepest(lens, root, SlotOf(lens, root, cur), |lens|) == l
  {
    hide Low, Shl, Shr, Pow2, Edge, Lo, MaxLen, Deepest, Rank, FirstCode, Offs;
    var u := SlotOf(lens, root, cur);
    var q: nat := cur;
    if l != lens[cur] {
      q := FirstOfLength(lens, w, l);
      WithinEdges(lens, cur);
      EdgeMono(lens, lens[cur] + 1, l);
      Pow2Positive(MAXBITS - lens[cur], lens, cur);
      InSlot(u, Lo(lens, q), MAXBITS - root);
    }
    assert Under(lens, root, u, q);
    forall s: nat | Under(lens, root, u, s)
      ensures lens[s] <= l
    {
      SymLenBounds(lens, s);
      InSlot(u, Lo(lens, s), MAXBITS - root);
      WithinEdges(lens, s);
      if l < lens[s] {
        EdgeMono(lens, l + 1, lens[s]);
      }
    }
    DeepestIs(lens, root, u, |lens|);
  }

  lemma Pow2Positive(n: nat, lens: seq<nat>, cur: nat)
    requires IsSym(lens, cur) && n == MAXBITS - lens[cur]
    ensures Lo(lens, cur) < Hi(lens, cur)
  {}

  /** Index bits of the sub-table that starts with symbol cur. */
  method SubTableBits(lens: seq<nat>, count: array<nat>, len: nat, root: nat, max: nat,
                      ghost cur: nat, ghost w: seq<nat>) returns (curr: nat)
    requires LengthsOk(lens) && Sorted(lens, w) && CountsLeft(lens, count[..], cur)
    requires root < len == lens[cur] <= max == MaxLen(lens, MAXBITS)
    requires Lo(lens, cur) == Shl(SlotOf(lens, root, cur), MAXBITS - root)
    ensures 1 <= curr && root + curr <= max
    ensures Deepest(lens, root, SlotOf(lens, root, cur), |lens|) == root + curr
  {
    hide Low, Shl, Shr, Edge, Lo, MaxLen, Deepest, SlotOf, Sorted, Rank, FirstCode, Offs, Kraft, Count, Pow2;
    MaxLenIs(lens, MAXBITS);
    ghost var end := Lo(lens, cur) + Pow2(MAXBITS - root);
    curr := len - root;
    var left: int := Pow2(curr);
    ShlPow2(curr, MAXBITS - len);
    while curr + root < max
      invariant len <= curr + root <= max
      invariant 0 < left && Shl(left, MAXBITS - (curr + root)) + Reached(lens, cur, curr + root) == end
    {
      ghost var l := curr + root;
      ReachedStep(lens, count[..], cur, l);
      ShlMono(0, left, MAXBITS - l);
      left := left - count[curr + root];
      if left <= 0 {
        ShlMono(left + count[l], count[l], MAXBITS - l);
        break;
      }
      ShlAdd(left, count[l], MAXBITS - l);
      ShlDouble(left, MAXBITS - l - 1);
      curr := curr + 1;
      left := 2 * left;
    }
    if left > 0 {
      ShlMono(0, left, MAXBITS - (curr + root));
    }
    DeepestHere(lens, w, root, cur, curr + root);
  }
}
