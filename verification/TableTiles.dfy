/** Where the sub-tables of inflate_table lie: one behind the other, without gap or overlap. */
module TableTiles {
  import opened Bits
  import opened Huffman
  import opened TableSpec

  /** The link of a root slot that has a sub-table: it starts where the sub-tables of the slots before end. */
  function LinkOf(lens: seq<nat>, root: nat, u: nat): Code
    requires root <= MAXBITS && SubSize(lens, root, u) > 0
  {
    Code(Deepest(lens, root, u, |lens|) - root, root, Pow2(root) + SubSizes(lens, root, u))
  }

  predicate LinkIs(t: seq<Code>, start: nat, root: nat, lens: seq<nat>, u: nat)
    requires root <= MAXBITS && SubSize(lens, root, u) > 0
  {
    start + Rev(root, u) < |t| && t[start + Rev(root, u)] == LinkOf(lens, root, u)
  }

  /** The links of the first m slots are in place. */
  ghost predicate Tiled(t: seq<Code>, start: nat, root: nat, lens: seq<nat>, m: nat)
    requires root <= MAXBITS
  {
    forall u: nat :: u < m && SubSize(lens, root, u) > 0 ==> LinkIs(t, start, root, lens, u)
  }

  lemma {:induction false} NoTiles(t: seq<Code>, start: nat, root: nat, lens: seq<nat>, m: nat)
    requires root <= MAXBITS && SubSizes(lens, root, m) == 0
    ensures Tiled(t, start, root, lens, m)
  {
    hide SubSize, LinkIs;
    if m > 0 {
      NoTiles(t, start, root, lens, m - 1);
    }
  }

  /** Writing behind the root table leaves the links in place. */
  lemma TilesKept(t: seq<Code>, t': seq<Code>, start: nat, root: nat, lens: seq<nat>, m: nat)
    requires root <= MAXBITS && Tiled(t, start, root, lens, m) && |t'| == |t|
    requires forall j :: start <= j < start + Pow2(root) && j < |t| ==> t'[j] == t[j]
    ensures Tiled(t', start, root, lens, m)
  {
    hide SubSize, Rev, Pow2, LinkOf;
    forall u: nat | u < m && SubSize(lens, root, u) > 0
      ensures LinkIs(t', start, root, lens, u)
    {
      assert LinkIs(t, start, root, lens, u);
      RevBound(root, u);
    }
  }

  /** The link of one more slot. */
  lemma OneMoreTile(t: seq<Code>, start: nat, root: nat, lens: seq<nat>, u: nat, e: Code)
    requires root <= MAXBITS && Tiled(t, start, root, lens, u) && u < Pow2(root) && start + Pow2(root) <= |t|
    requires SubSize(lens, root, u) > 0 ==> e == LinkOf(lens, root, u)
    requires Rev(root, u) < Pow2(root)
    ensures Tiled(t[start + Rev(root, u) := e], start, root, lens, u + 1)
  {
    hide SubSize, Rev, Pow2, LinkOf;
    var t' := t[start + Rev(root, u) := e];
    forall v: nat | v < u + 1 && SubSize(lens, root, v) > 0
      ensures LinkIs(t', start, root, lens, v)
    {
      if v < u {
        OtherTile(t, start, root, lens, u, v, e);
      }
    }
  }

  lemma RevDiffers(n: nat, u: nat, v: nat)
    requires u < Pow2(n) && v < Pow2(n) && u != v
    ensures Rev(n, u) != Rev(n, v)
  {
    hide Rev, Pow2;
    RevInvolution(n, u);
    RevInvolution(n, v);
  }

  lemma OtherTile(t: seq<Code>, start: nat, root: nat, lens: seq<nat>, u: nat, v: nat, e: Code)
    requires root <= MAXBITS && v < u < Pow2(root) && SubSize(lens, root, v) > 0 && LinkIs(t, start, root, lens, v)
    requires start + Rev(root, u) < |t|
    ensures LinkIs(t[start + Rev(root, u) := e], start, root, lens, v)
  {
    hide SubSize, Rev, Pow2, LinkOf;
    RevDiffers(root, u, v);
  }

  /** Looking x up goes through entry j: in the root table, or in the sub-table a link there leads to. */
  predicate Visits(t: seq<Code>, start: nat, root: nat, x: nat, j: nat)
  {
    start + Low(x, root) < |t| &&
    var e := t[start + Low(x, root)];
    if IsLink(e) then j == Low(x, root) || j == e.val + Low(Shr(x, root), e.op) else j == Low(x, root)
  }

  ghost predicate Visited(t: seq<Code>, start: nat, root: nat, j: nat)
  {
    exists x: nat :: Visits(t, start, root, x, j)
  }

  /** Every entry of the table serves some bit string. */
  ghost predicate AllVisited(t: seq<Code>, start: nat, root: nat, size: nat)
  {
    forall j: nat :: j < size ==> Visited(t, start, root, j)
  }

  /** The slot whose sub-table entry j is in. */
  lemma {:induction false} TileOf(lens: seq<nat>, root: nat, m: nat, k: nat) returns (u: nat)
    requires root <= MAXBITS && k < SubSizes(lens, root, m)
    ensures u < m && SubSizes(lens, root, u) <= k < SubSizes(lens, root, u) + SubSize(lens, root, u)
  {
    hide SubSize;
    if k < SubSizes(lens, root, m - 1) {
      u := TileOf(lens, root, m - 1, k);
    } else {
      u := m - 1;
    }
  }

  /** Sub-tables do not overlap. */
  lemma TilesApart(lens: seq<nat>, root: nat, u: nat, v: nat)
    requires root <= MAXBITS && u < v && SubSize(lens, root, u) > 0 && SubSize(lens, root, v) > 0
    ensures LinkOf(lens, root, u).val + Pow2(LinkOf(lens, root, u).op) <= LinkOf(lens, root, v).val
  {
    hide Pow2, Deepest;
    SubSizesMono(lens, root, u + 1, v);
  }

  lemma DeepestBound(lens: seq<nat>, root: nat, u: nat)
    requires root <= MAXBITS && LengthsOk(lens)
    ensures Deepest(lens, root, u, |lens|) <= MAXBITS
  {
    hide Deepest, Under;
    DeepestIs(lens, root, u, |lens|);
  }

  /** The bit string that goes through place z of the sub-table of slot u. */
  lemma SubVisited(t: seq<Code>, start: nat, root: nat, lens: seq<nat>, u: nat, z: nat)
    requires 1 <= root <= MAXBITS && LengthsOk(lens) && SubSize(lens, root, u) > z && LinkIs(t, start, root, lens, u)
    ensures Visited(t, start, root, Pow2(root) + SubSizes(lens, root, u) + z)
  {
    hide Low, Shr, Shl, Rev, Deepest, SubSizes, Pow2;
    DeepestBound(lens, root, u);
    RevBound(root, u);
    var x := Rev(root, u) + Shl(z, root);
    Decompose(Rev(root, u), z, root);
    LowFits(z, LinkOf(lens, root, u).op);
    assert Visits(t, start, root, x, Pow2(root) + SubSizes(lens, root, u) + z);
  }

  lemma RootVisited(t: seq<Code>, start: nat, root: nat, j: nat)
    requires j < Pow2(root) && start + Pow2(root) <= |t|
    ensures Visited(t, start, root, j)
  {
    hide Low, Pow2;
    LowFits(j, root);
    assert Visits(t, start, root, j, j);
  }

  /** With all links in place no entry is left out. */
  lemma TilesVisited(t: seq<Code>, start: nat, root: nat, lens: seq<nat>)
    requires 1 <= root <= MAXBITS && LengthsOk(lens) && Tiled(t, start, root, lens, Pow2(root))
    requires start + Pow2(root) <= |t|
    ensures AllVisited(t, start, root, TableSize(lens, root))
  {
    hide Visited, Pow2, SubSizes, SubSize, LinkIs;
    forall j: nat | j < TableSize(lens, root)
      ensures Visited(t, start, root, j)
    {
      if j < Pow2(root) {
        RootVisited(t, start, root, j);
      } else {
        var u := TileOf(lens, root, Pow2(root), j - Pow2(root));
        SubVisited(t, start, root, lens, u, j - Pow2(root) - SubSizes(lens, root, u));
      }
    }
  }
}
