/**
 Canonical Huffman codes as section 3.2.2 of RFC 1951 defines them: from the code
 lengths alone.  A length of zero means that the symbol does not occur.

 Every codeword is also seen as the interval of 15-bit strings, first bit of the
 stream on top, that start with it.  Laid out in order of (length, symbol) these
 intervals are adjacent and start at zero; that is the whole theory of the code.
 */
module Huffman {
  import opened Bits

  const MAXBITS: nat := 15

  predicate LengthsOk(lens: seq<nat>)
  {
    forall s :: 0 <= s < |lens| ==> lens[s] <= MAXBITS
  }

  predicate IsSym(lens: seq<nat>, s: nat)
  {
    s < |lens| && 1 <= lens[s] <= MAXBITS
  }

  /** The number of symbols that have length l (bl_count of the RFC). */
  function Count(lens: seq<nat>, l: nat): nat
  {
    if |lens| == 0 then 0
    else Count(lens[..|lens| - 1], l) + (if lens[|lens| - 1] == l then 1 else 0)
  }

  /** The number of symbols before s that have the length of s. */
  function Rank(lens: seq<nat>, s: nat): nat
    requires s < |lens|
  {
    Count(lens[..s], lens[s])
  }

  /** The numerical value of the first code of length l (next_code of the RFC). */
  function FirstCode(lens: seq<nat>, l: nat): nat
  {
    if l <= 1 then 0 else 2 * (FirstCode(lens, l - 1) + Count(lens, l - 1))
  }

  /** The codeword of s, as a number of lens[s] bits. */
  function CodeOf(lens: seq<nat>, s: nat): nat
    requires s < |lens|
  {
    FirstCode(lens, lens[s]) + Rank(lens, s)
  }

  /** Codewords arrive first bit first and bits are packed from the low end up,
      so a codeword is at the front of x when the low bits of x are its reversal. */
  predicate Starts(lens: seq<nat>, s: nat, x: nat)
    requires s < |lens|
  {
    Low(x, lens[s]) == Rev(lens[s], CodeOf(lens, s))
  }

  /** The number of 15-bit strings covered by a codeword, over all symbols. */
  function Kraft(lens: seq<nat>): nat
  {
    if |lens| == 0 then 0
    else
      var l := lens[|lens| - 1];
      Kraft(lens[..|lens| - 1]) + (if 1 <= l <= MAXBITS then Pow2(MAXBITS - l) else 0)
  }

  /** The number of symbols with a length in 1..l-1. */
  function Offs(lens: seq<nat>, l: nat): nat
  {
    if l <= 1 then 0 else Offs(lens, l - 1) + Count(lens, l - 1)
  }

  /** The position of s when symbols are sorted by length, then by value. */
  function Pos(lens: seq<nat>, s: nat): nat
    requires s < |lens|
  {
    Offs(lens, lens[s]) + Rank(lens, s)
  }

  /** Where the interval of the first code of length l starts. */
  function Edge(lens: seq<nat>, l: nat): nat
    requires 1 <= l <= MAXBITS + 1
  {
    if l == MAXBITS + 1 then FirstCode(lens, MAXBITS) + Count(lens, MAXBITS)
    else Shl(FirstCode(lens, l), MAXBITS - l)
  }

  /** The interval of s is Lo(s) .. Hi(s) - 1. */
  function Lo(lens: seq<nat>, s: nat): nat
    requires IsSym(lens, s)
  {
    Shl(CodeOf(lens, s), MAXBITS - lens[s])
  }

  function Hi(lens: seq<nat>, s: nat): nat
    requires IsSym(lens, s)
  {
    Lo(lens, s) + Pow2(MAXBITS - lens[s])
  }

  // ---- counting

  lemma {:induction false} CountPrefix(lens: seq<nat>, a: nat, b: nat, l: nat)
    requires a <= b <= |lens|
    ensures Count(lens[..a], l) <= Count(lens[..b], l)
    ensures a < b && lens[a] == l ==> Count(lens[..a], l) + 1 <= Count(lens[..b], l)
  {
    if a < b {
      assert lens[..b][..b - 1] == lens[..b - 1];
      CountPrefix(lens, a, b - 1, l);
    }
  }

  lemma RankBelowCount(lens: seq<nat>, s: nat)
    requires s < |lens|
    ensures Rank(lens, s) < Count(lens, lens[s])
  {
    assert lens[..|lens|] == lens;
    CountPrefix(lens, s, |lens|, lens[s]);
  }

  lemma RankIncreasing(lens: seq<nat>, s: nat, t: nat)
    requires s < t < |lens| && lens[s] == lens[t]
    ensures Rank(lens, s) < Rank(lens, t)
  {
    CountPrefix(lens, s, t, lens[s]);
  }

  lemma {:induction false} OffsMono(lens: seq<nat>, a: nat, b: nat)
    requires 1 <= a <= b
    ensures Offs(lens, a) <= Offs(lens, b)
  {
    if a < b {
      OffsMono(lens, a, b - 1);
    }
  }

  lemma PosInjective(lens: seq<nat>, s: nat, t: nat)
    requires IsSym(lens, s) && IsSym(lens, t) && s != t
    ensures Pos(lens, s) != Pos(lens, t)
  {
    RankBelowCount(lens, s);
    RankBelowCount(lens, t);
    if lens[s] < lens[t] {
      OffsMono(lens, lens[s] + 1, lens[t]);
    } else if lens[t] < lens[s] {
      OffsMono(lens, lens[t] + 1, lens[s]);
    } else if s < t {
      RankIncreasing(lens, s, t);
    } else {
      RankIncreasing(lens, t, s);
    }
  }

  lemma PosRange(lens: seq<nat>, s: nat)
    requires IsSym(lens, s)
    ensures Pos(lens, s) < Offs(lens, MAXBITS + 1)
    ensures Offs(lens, lens[s]) <= Pos(lens, s) < Offs(lens, lens[s] + 1)
  {
    RankBelowCount(lens, s);
    OffsMono(lens, lens[s] + 1, MAXBITS + 1);
  }

  // ---- intervals

  /** The codes of length l fill the strings between two edges exactly. */
  lemma EdgeStep(lens: seq<nat>, l: nat)
    requires 1 <= l <= MAXBITS
    ensures Edge(lens, l + 1) == Shl(FirstCode(lens, l) + Count(lens, l), MAXBITS - l)
    ensures Edge(lens, l + 1) == Edge(lens, l) + Shl(Count(lens, l), MAXBITS - l)
  {
    if l < MAXBITS {
      ShlDouble(FirstCode(lens, l) + Count(lens, l), MAXBITS - l - 1);
    }
    ShlAdd(FirstCode(lens, l), Count(lens, l), MAXBITS - l);
  }

  lemma {:induction false} EdgeMono(lens: seq<nat>, a: nat, b: nat)
    requires 1 <= a <= b <= MAXBITS + 1
    ensures Edge(lens, a) <= Edge(lens, b)
    ensures Offs(lens, a) == Offs(lens, b) ==> Edge(lens, a) == Edge(lens, b)
  {
    if a < b {
      EdgeMono(lens, a, b - 1);
      EdgeStep(lens, b - 1);
      OffsMono(lens, a, b - 1);
      ShlZeroOne(MAXBITS - (b - 1));
    }
  }

  lemma HiIsNextCode(lens: seq<nat>, s: nat)
    requires IsSym(lens, s)
    ensures Hi(lens, s) == Shl(CodeOf(lens, s) + 1, MAXBITS - lens[s])
  {
    ShlAdd(CodeOf(lens, s), 1, MAXBITS - lens[s]);
    ShlZeroOne(MAXBITS - lens[s]);
  }

  lemma WithinEdges(lens: seq<nat>, s: nat)
    requires IsSym(lens, s)
    ensures Edge(lens, lens[s]) <= Lo(lens, s)
    ensures Hi(lens, s) <= Edge(lens, lens[s] + 1)
  {
    RankBelowCount(lens, s);
    HiIsNextCode(lens, s);
    EdgeStep(lens, lens[s]);
    ShlMono(FirstCode(lens, lens[s]), CodeOf(lens, s), MAXBITS - lens[s]);
    ShlMono(CodeOf(lens, s) + 1, FirstCode(lens, lens[s]) + Count(lens, lens[s]), MAXBITS - lens[s]);
  }

  /** Intervals are laid out in sorted order. */
  lemma Ordered(lens: seq<nat>, s: nat, t: nat)
    requires IsSym(lens, s) && IsSym(lens, t) && Pos(lens, s) < Pos(lens, t)
    ensures lens[s] <= lens[t]
    ensures Hi(lens, s) <= Lo(lens, t)
  {
    PosRange(lens, s);
    PosRange(lens, t);
    if lens[t] < lens[s] {
      OffsMono(lens, lens[t] + 1, lens[s]);
    } else if lens[s] < lens[t] {
      WithinEdges(lens, s);
      WithinEdges(lens, t);
      EdgeMono(lens, lens[s] + 1, lens[t]);
    } else {
      HiIsNextCode(lens, s);
      ShlMono(CodeOf(lens, s) + 1, CodeOf(lens, t), MAXBITS - lens[s]);
    }
  }

  /** The code is prefix-free: intervals of different symbols do not meet. */
  lemma Disjoint(lens: seq<nat>, s: nat, t: nat)
    requires IsSym(lens, s) && IsSym(lens, t) && s != t
    ensures Hi(lens, s) <= Lo(lens, t) || Hi(lens, t) <= Lo(lens, s)
  {
    PosInjective(lens, s, t);
    if Pos(lens, s) < Pos(lens, t) {
      Ordered(lens, s, t);
    } else {
      Ordered(lens, t, s);
    }
  }

  /** ... and leaves no gap between one symbol and the next. */
  lemma Adjacent(lens: seq<nat>, s: nat, t: nat)
    requires IsSym(lens, s) && IsSym(lens, t) && Pos(lens, t) == Pos(lens, s) + 1
    ensures Lo(lens, t) == Hi(lens, s)
    ensures lens[s] <= lens[t]
    ensures lens[s] == lens[t] <==> Pos(lens, t) < Offs(lens, lens[s] + 1)
  {
    Ordered(lens, s, t);
    PosRange(lens, s);
    PosRange(lens, t);
    if lens[s] < lens[t] {
      OffsMono(lens, lens[s] + 1, lens[t]);
      AdjacentAcross(lens, s, t);
    } else {
      HiIsNextCode(lens, s);
    }
  }

  /** The last code of one length, extended with zeros, is followed by the first of the next. */
  lemma AdjacentAcross(lens: seq<nat>, s: nat, t: nat)
    requires IsSym(lens, s) && IsSym(lens, t) && lens[s] < lens[t]
    requires Offs(lens, lens[s] + 1) == Offs(lens, lens[t])
    requires Rank(lens, s) + 1 == Count(lens, lens[s]) && Rank(lens, t) == 0
    ensures Lo(lens, t) == Hi(lens, s)
  {
    HiIsNextCode(lens, s);
    EdgeMono(lens, lens[s] + 1, lens[t]);
    EdgeStep(lens, lens[s]);
  }

  /** The sorted position zero holds the all-zero codeword. */
  lemma FirstIsZero(lens: seq<nat>, s: nat)
    requires IsSym(lens, s) && Pos(lens, s) == 0
    ensures Lo(lens, s) == 0 && CodeOf(lens, s) == 0
  {
    PosRange(lens, s);
    EdgeMono(lens, 1, lens[s]);
    ShlZeroOne(MAXBITS - 1);
    OffsMono(lens, 1, lens[s]);
    assert Edge(lens, lens[s]) == 0;
    if FirstCode(lens, lens[s]) > 0 {
      ShlMono(0, FirstCode(lens, lens[s]), MAXBITS - lens[s]);
    }
  }

  // ---- the Kraft sum

  lemma {:induction false} KraftOneMore(pre: seq<nat>, l: nat, m: nat)
    requires 1 <= m <= MAXBITS + 1 && l <= MAXBITS
    ensures var e := if 1 <= l < m then Pow2(MAXBITS - l) else 0;
            Edge(pre + [l], m) == Edge(pre, m) + e
  {
    if m == 1 {
      assert FirstCode(pre + [l], 1) == FirstCode(pre, 1) == 0;
    } else {
      KraftOneMore(pre, l, m - 1);
      assert (pre + [l])[..|pre|] == pre;
      EdgeStep(pre, m - 1);
      EdgeStep(pre + [l], m - 1);
      ShlAdd(Count(pre, m - 1), 1, MAXBITS - (m - 1));
      ShlZeroOne(MAXBITS - (m - 1));
    }
  }

  lemma {:induction false} EdgeOfEmpty(m: nat)
    requires 1 <= m <= MAXBITS + 1
    ensures Edge([], m) == 0
  {
    if m == 1 {
      ShlZeroOne(MAXBITS - 1);
    } else {
      EdgeOfEmpty(m - 1);
      EdgeStep([], m - 1);
      ShlZeroOne(MAXBITS - (m - 1));
    }
  }

  /** The intervals together cover exactly the strings below the Kraft sum. */
  lemma {:induction false} KraftIsLastEdge(lens: seq<nat>)
    requires LengthsOk(lens)
    ensures Kraft(lens) == Edge(lens, MAXBITS + 1)
  {
    if |lens| == 0 {
      EdgeOfEmpty(MAXBITS + 1);
      assert lens == [];
    } else {
      var pre, l := lens[..|lens| - 1], lens[|lens| - 1];
      KraftIsLastEdge(pre);
      KraftOneMore(pre, l, MAXBITS + 1);
      assert lens == pre + [l];
    }
  }

  lemma BelowKraft(lens: seq<nat>, s: nat)
    requires LengthsOk(lens) && IsSym(lens, s)
    ensures Hi(lens, s) <= Kraft(lens)
  {
    WithinEdges(lens, s);
    EdgeMono(lens, lens[s] + 1, MAXBITS + 1);
    KraftIsLastEdge(lens);
  }

  /** In a code that is not over-subscribed, codewords fit their length. */
  lemma CodeFits(lens: seq<nat>, s: nat)
    requires LengthsOk(lens) && IsSym(lens, s) && Kraft(lens) <= Pow2(MAXBITS)
    ensures CodeOf(lens, s) < Pow2(lens[s])
  {
    hide CodeOf, Kraft, Shl, Pow2, LengthsOk;
    BelowKraft(lens, s);
    if Pow2(lens[s]) <= CodeOf(lens, s) {
      ShlMono(Pow2(lens[s]), CodeOf(lens, s), MAXBITS - lens[s]);
      ShlPow2(lens[s], MAXBITS - lens[s]);
    }
  }

  /** Having the codeword of s in front is being in the interval of s. */
  lemma StartsIffInterval(lens: seq<nat>, s: nat, x: nat)
    requires LengthsOk(lens) && IsSym(lens, s) && Kraft(lens) <= Pow2(MAXBITS)
    ensures Starts(lens, s, x) <==> Lo(lens, s) <= Rev(MAXBITS, x) < Hi(lens, s)
  {
    CodeFits(lens, s);
    PrefixInterval(MAXBITS, lens[s], CodeOf(lens, s), x);
  }
}
