/** The first half of inflate_table: counts, checks and the sorted symbols. */
module TableSort {
  import opened Bits
  import opened Huffman
  import opened TableSpec

  /** work[0..n) lists the symbols in order of (length, symbol). */
  ghost predicate Sorted(lens: seq<nat>, w: seq<nat>)
  {
    && Offs(lens, MAXBITS + 1) <= |w|
    && forall p :: 0 <= p < Offs(lens, MAXBITS + 1) ==> IsSym(lens, w[p]) && Pos(lens, w[p]) == p
  }

  /** count[l] is the number of symbols of length l. */
  method CountLengths(lens: seq<nat>) returns (count: array<nat>)
    requires LengthsOk(lens)
    ensures fresh(count) && count.Length == MAXBITS + 1
    ensures forall l :: 0 <= l <= MAXBITS ==> count[l] == Count(lens, l)
  {
    count := new nat[MAXBITS + 1](_ => 0);
    for sym := 0 to |lens|
      invariant forall l :: 0 <= l <= MAXBITS ==> count[l] == Count(lens[..sym], l)
    {
      assert lens[..sym + 1][..sym] == lens[..sym];
      count[lens[sym]] := count[lens[sym]] + 1;
    }
    assert lens[..|lens|] == lens;
  }

  /** The longest and shortest lengths in use, and the root size forced between them. */
  method BoundRoot(lens: seq<nat>, count: array<nat>, bits: nat) returns (root: nat, min: nat, max: nat)
    requires count.Length == MAXBITS + 1
    requires forall l :: 0 <= l <= MAXBITS ==> count[l] == Count(lens, l)
    ensures max == MaxLen(lens, MAXBITS)
    ensures max != 0 ==> min == MinLen(lens, 1, max) && root == RootBits(lens, bits)
  {
    root := bits;
    max := MAXBITS;
    while max >= 1 && count[max] == 0
      invariant max <= MAXBITS
      invariant MaxLen(lens, MAXBITS) == MaxLen(lens, max)
    {
      max := max - 1;
    }
    if root > max {
      root := max;
    }
    min := 1;
    while min < max && count[min] == 0
      invariant 1 <= min
      invariant max != 0 ==> min <= max
      invariant MinLen(lens, 1, max) == MinLen(lens, min, max)
    {
      min := min + 1;
    }
    if root < min {
      root := min;
    }
  }

  /** How far the lengths are from a complete code: negative when over-subscribed. */
  method CodesLeft(lens: seq<nat>, count: array<nat>) returns (left: int)
    requires LengthsOk(lens)
    requires count.Length == MAXBITS + 1
    requires forall l :: 0 <= l <= MAXBITS ==> count[l] == Count(lens, l)
    ensures left < 0 <==> Pow2(MAXBITS) < Kraft(lens)
    ensures left >= 0 ==> left == Pow2(MAXBITS) - Kraft(lens)
  {
    left := 1;
    var len := 1;
    KraftIsLastEdge(lens);
    while len <= MAXBITS
      invariant 1 <= len <= MAXBITS + 1
      invariant left >= 0
      invariant len <= MAXBITS ==> 2 * left == Pow2(len) - FirstCode(lens, len)
      invariant len == MAXBITS + 1 ==> left == Pow2(MAXBITS) - Kraft(lens)
    {
      left := 2 * left;
      left := left - count[len];
      if left < 0 {
        Oversubscribed(lens, len);
        return;
      }
      len := len + 1;
    }
  }

  /** More codes of length l than there is room for means too many altogether. */
  lemma Oversubscribed(lens: seq<nat>, l: nat)
    requires LengthsOk(lens) && 1 <= l <= MAXBITS
    requires Pow2(l) < FirstCode(lens, l) + Count(lens, l)
    ensures Pow2(MAXBITS) < Kraft(lens)
  {
    hide Shl, Pow2, Kraft, FirstCode, Count;
    var n, d := FirstCode(lens, l) + Count(lens, l), MAXBITS - l;
    assert Shl(n, d) <= Kraft(lens) by {
      EdgeStep(lens, l);
      EdgeMono(lens, l + 1, MAXBITS + 1);
      KraftIsLastEdge(lens);
    }
    ShlMono(Pow2(l), n, d);
    ShlPow2(l, d);
  }

  /** Each length's share of work is filled up to its offset. */
  ghost predicate Placed(lens: seq<nat>, w: seq<nat>, offs: seq<nat>)
  {
    && |offs| == MAXBITS + 1
    && forall l, p :: 1 <= l <= MAXBITS && Offs(lens, l) <= p < offs[l] && p < |w| ==>
         IsSym(lens, w[p]) && Pos(lens, w[p]) == p
  }

  lemma NonePlaced(lens: seq<nat>, w: seq<nat>, offs: seq<nat>)
    requires |offs| == MAXBITS + 1 && forall l :: 1 <= l <= MAXBITS ==> offs[l] == Offs(lens, l)
    ensures Placed(lens, w, offs)
  {}

  lemma NextPlace(lens: seq<nat>, sym: nat)
    requires LengthsOk(lens) && sym < |lens| && lens[sym] != 0
    ensures IsSym(lens, sym)
    ensures Offs(lens, lens[sym]) + Count(lens[..sym], lens[sym]) == Pos(lens, sym) < Offs(lens, MAXBITS + 1)
  {
    PosRange(lens, sym);
  }

  lemma PlaceOne(lens: seq<nat>, w: seq<nat>, offs: seq<nat>, sym: nat)
    requires IsSym(lens, sym) && Placed(lens, w, offs)
    requires offs[lens[sym]] == Pos(lens, sym) < |w|
    ensures Placed(lens, w[offs[lens[sym]] := sym], offs[lens[sym] := offs[lens[sym]] + 1])
  {}

  /** offs[l] is where the symbols of length l start. */
  method Offsets(lens: seq<nat>, count: array<nat>) returns (offs: array<nat>)
    requires count.Length == MAXBITS + 1
    requires forall l :: 0 <= l <= MAXBITS ==> count[l] == Count(lens, l)
    ensures fresh(offs) && offs.Length == MAXBITS + 1
    ensures forall l :: 1 <= l <= MAXBITS ==> offs[l] == Offs(lens, l)
  {
    hide Count;
    offs := new nat[MAXBITS + 1](_ => 0);
    var len := 1;
    while len < MAXBITS
      invariant 1 <= len <= MAXBITS
      invariant forall l :: 1 <= l <= len ==> offs[l] == Offs(lens, l)
    {
      offs[len + 1] := offs[len] + count[len];
      len := len + 1;
    }
  }

  /** Counting sort of the symbols into work. */
  method SortSymbols(lens: seq<nat>, count: array<nat>, work: array<nat>)
    requires LengthsOk(lens) && |lens| <= work.Length
    requires count.Length == MAXBITS + 1
    requires forall l :: 0 <= l <= MAXBITS ==> count[l] == Count(lens, l)
    modifies work
    ensures Sorted(lens, work[..])
  {
    hide Offs, Pos, Placed, IsSym, Sorted, Rank;
    var offs := Offsets(lens, count);
    OffsAtMost(lens);
    NonePlaced(lens, work[..], offs[..]);
    for sym := 0 to |lens|
      invariant forall l :: 1 <= l <= MAXBITS ==> offs[l] == Offs(lens, l) + Count(lens[..sym], l)
      invariant Placed(lens, work[..], offs[..])
    {
      assert lens[..sym + 1][..sym] == lens[..sym];
      var l := lens[sym];
      if l != 0 {
        NextPlace(lens, sym);
        ghost var w, o := work[..], offs[..];
        PlaceOne(lens, w, o, sym);
        work[offs[l]] := sym;
        offs[l] := offs[l] + 1;
        assert work[..] == w[o[l] := sym];
        assert offs[..] == o[l := o[l] + 1];
      }
    }
    assert lens[..|lens|] == lens;
    AllPlaced(lens, work[..], offs[..]);
  }

  lemma AllPlaced(lens: seq<nat>, w: seq<nat>, offs: seq<nat>)
    requires Placed(lens, w, offs) && Offs(lens, MAXBITS + 1) <= |w|
    requires forall l :: 1 <= l <= MAXBITS ==> offs[l] == Offs(lens, l) + Count(lens, l)
    ensures Sorted(lens, w)
  {
    forall p | 0 <= p < Offs(lens, MAXBITS + 1)
      ensures IsSym(lens, w[p]) && Pos(lens, w[p]) == p
    {
      var l := LengthAt(lens, p, MAXBITS);
    }
  }

  lemma {:induction false} OffsAtMost(lens: seq<nat>)
    ensures Offs(lens, MAXBITS + 1) <= |lens|
  {
    if |lens| != 0 {
      OffsAtMost(lens[..|lens| - 1]);
      OffsOneMore(lens, MAXBITS + 1);
    } else {
      OffsEmpty(lens, MAXBITS + 1);
    }
  }

  lemma {:induction false} OffsEmpty(lens: seq<nat>, l: nat)
    requires |lens| == 0
    ensures Offs(lens, l) == 0
  {
    if l > 1 {
      OffsEmpty(lens, l - 1);
    }
  }

  lemma {:induction false} OffsOneMore(lens: seq<nat>, l: nat)
    requires |lens| != 0
    ensures Offs(lens, l) == Offs(lens[..|lens| - 1], l) + (if 1 <= lens[|lens| - 1] < l then 1 else 0)
  {
    if l > 1 {
      OffsOneMore(lens, l - 1);
    }
  }

  /** Every sorted position belongs to some length. */
  lemma {:induction false} LengthAt(lens: seq<nat>, p: nat, m: nat) returns (l: nat)
    requires p < Offs(lens, m + 1)
    ensures 1 <= l <= m && Offs(lens, l) <= p < Offs(lens, l + 1)
  {
    if p < Offs(lens, m) {
      l := LengthAt(lens, p, m - 1);
    } else {
      l := m;
    }
  }
}
