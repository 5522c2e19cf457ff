/**
 The bit accumulator of inflate, and looking codes up with the bits it holds.
 c is the input taken in so far; the low bits bits of hold are its last bits bits.
 */
module BitBuffer {
  import opened Bits
  import opened Huffman
  import opened TableSpec
  import opened BitStream
  import opened Decoder
  import opened DecoderRuns

  predicate Held(c: seq<byte>, hold: nat, bits: nat)
  {
    bits <= 8 * |c| && hold == Peek(c, 8 * |c| - bits, bits)
  }

  lemma HeldBound(c: seq<byte>, hold: nat, bits: nat)
    requires Held(c, hold, bits)
    ensures hold < Pow2(bits)
  {
    PeekBound(c, 8 * |c| - bits, bits);
  }

  /** PULLBYTE */
  lemma PullHeld(c: seq<byte>, b: byte, hold: nat, bits: nat)
    requires Held(c, hold, bits)
    ensures Held(c + [b], hold + Shl(b, bits), bits + 8)
  {
    hide Peek, Shl;
    PeekAppend(c, b, 8 * |c| - bits, bits);
  }

  /** DROPBITS */
  lemma DropHeld(c: seq<byte>, hold: nat, bits: nat, n: nat)
    requires Held(c, hold, bits) && n <= bits
    ensures Held(c, Shr(hold, n), bits - n)
  {
    hide Peek, Shr, Low;
    PeekSplit(c, 8 * |c| - bits, bits, n);
  }

  /** BITS: the low bits held are the next bits of the whole input. */
  lemma BitsHeld(c: seq<byte>, inp: seq<byte>, hold: nat, bits: nat, n: nat)
    requires Held(c, hold, bits) && n <= bits && c <= inp
    ensures Low(hold, n) == Peek(inp, 8 * |c| - bits, n)
  {
    hide Peek, Shr, Low;
    PeekSplit(c, 8 * |c| - bits, bits, n);
    PeekPrefix(c, inp, 8 * |c| - bits, n);
  }

  /** Returning k whole bytes to the input. */
  lemma GiveBackHeld(c: seq<byte>, hold: nat, bits: nat, k: nat)
    requires Held(c, hold, bits) && 8 * k <= bits
    ensures k <= |c| && Held(c[..|c| - k], Low(hold, bits - 8 * k), bits - 8 * k)
  {
    hide Peek, Shr, Low;
    PeekSplit(c, 8 * |c| - bits, bits, bits - 8 * k);
    PeekPrefix(c[..|c| - k], c, 8 * |c| - bits, bits - 8 * k);
  }

  // ---- codes

  ghost predicate TableFor(t: seq<Code>, at: nat, root: nat, typ: CodeType, lens: seq<nat>)
  {
    CodeOk(typ, lens) && root <= MAXBITS && Decodes(t, at, root, typ, lens, TableSize(lens, root))
  }

  /** Writing elsewhere in the table space leaves a table as it is. */
  lemma TableForKept(t: seq<Code>, t': seq<Code>, at: nat, root: nat, typ: CodeType, lens: seq<nat>)
    requires TableFor(t, at, root, typ, lens) && |t'| == |t|
    requires forall j :: at <= j < at + TableSize(lens, root) && j < |t| ==> t'[j] == t[j]
    ensures TableFor(t', at, root, typ, lens)
  {
    hide Leaf, Low, Shr, Pow2, Rev, Starts, Kraft, Resolves, SubSizes;
    var size := TableSize(lens, root);
    forall s: nat, x: nat | IsSym(lens, s) && Starts(lens, s, x)
      ensures Resolves(t', at, root, x, Leaf(typ, s, lens[s]), size)
    {
      ResolvesKept(t, t', at, root, x, Leaf(typ, s, lens[s]), size);
    }
    forall x: nat | Kraft(lens) <= Rev(MAXBITS, x)
      ensures Resolves(t', at, root, x, InvalidCode, size)
    {
      ResolvesKept(t, t', at, root, x, InvalidCode, size);
    }
  }

  lemma ResolvesKept(t: seq<Code>, t': seq<Code>, at: nat, root: nat, x: nat, leaf: Code, lim: nat)
    requires Resolves(t, at, root, x, leaf, lim) && |t'| == |t| && Pow2(root) <= lim
    requires forall j :: at <= j < at + lim && j < |t| ==> t'[j] == t[j]
    ensures Resolves(t', at, root, x, leaf, lim)
  {
    hide Low, Shr, Pow2;
    LowBound(x, root);
    var e := t[at + Low(x, root)];
    if IsLink(e) {
      LowBound(Shr(x, root), e.op);
    }
  }

  lemma {:induction false} RankOnto(lens: seq<nat>, l: nat, r: nat) returns (s: nat)
    requires r < Count(lens, l)
    ensures s < |lens| && lens[s] == l && Rank(lens, s) == r
  {
    var n := |lens| - 1;
    if r < Count(lens[..n], l) {
      s := RankOnto(lens[..n], l, r);
      assert lens[..n][..s] == lens[..s];
    } else {
      s := n;
    }
  }

  lemma {:induction false} EdgeAt(lens: seq<nat>, v: nat, m: nat) returns (l: nat)
    requires 1 <= m <= MAXBITS + 1 && Edge(lens, 1) <= v < Edge(lens, m)
    ensures 1 <= l < m && Edge(lens, l) <= v < Edge(lens, l + 1)
  {
    if v < Edge(lens, m - 1) {
      l := EdgeAt(lens, v, m - 1);
    } else {
      l := m - 1;
    }
  }

  /** The intervals leave no gap: every string below the Kraft sum starts with some codeword. */
  lemma SymbolAt(lens: seq<nat>, v: nat) returns (s: nat)
    requires LengthsOk(lens) && v < Kraft(lens)
    ensures IsSym(lens, s) && Lo(lens, s) <= v < Hi(lens, s)
  {
    hide Shl, Shr, Pow2, Low, Edge, Count, Kraft;
    KraftIsLastEdge(lens);
    EdgeIs(lens, 1);
    ShlZeroOne(MAXBITS - 1);
    assert FirstCode(lens, 1) == 0;
    var l := EdgeAt(lens, v, MAXBITS + 1);
    var d := MAXBITS - l;
    var r := v - Edge(lens, l);
    EdgeStep(lens, l);
    Recompose(r, d);
    LowBound(r, d);
    if Count(lens, l) <= Shr(r, d) {
      ShlMono(Count(lens, l), Shr(r, d), d);
    }
    s := RankOnto(lens, l, Shr(r, d));
    EdgeIs(lens, l);
    ShlAdd(FirstCode(lens, l), Shr(r, d), d);
  }

  lemma EdgeIs(lens: seq<nat>, l: nat)
    requires 1 <= l <= MAXBITS
    ensures Edge(lens, l) == Shl(FirstCode(lens, l), MAXBITS - l)
  {}

  /** The leaf that the table gives for a bit string. */
  lemma LeafFor(t: seq<Code>, at: nat, root: nat, typ: CodeType, lens: seq<nat>, x: nat) returns (found: bool, s: nat, leaf: Code)
    requires TableFor(t, at, root, typ, lens)
    ensures Resolves(t, at, root, x, leaf, TableSize(lens, root))
    ensures found ==> IsSym(lens, s) && Starts(lens, s, x) && leaf == Leaf(typ, s, lens[s]) && leaf.bits == lens[s]
    ensures !found ==> leaf == InvalidCode && Kraft(lens) < Pow2(MAXBITS) && forall q: nat :: IsSym(lens, q) ==> !Starts(lens, q, x)
  {
    hide Shl, Shr, Pow2, Low, Kraft, Resolves, Starts, Lo, MaxLen;
    AtMostFull(typ, lens);
    RevBound(MAXBITS, x);
    found := Rev(MAXBITS, x) < Kraft(lens);
    if found {
      s := SymbolAt(lens, Rev(MAXBITS, x));
      StartsIffInterval(lens, s, x);
      leaf := Leaf(typ, s, lens[s]);
    } else {
      leaf := InvalidCode;
      s := 0;
      forall q: nat | IsSym(lens, q)
        ensures !Starts(lens, q, x)
      {
        BelowKraft(lens, q);
        StartsIffInterval(lens, q, x);
      }
    }
  }

  /** A codeword that is next in the input shows in the bits held as far as it goes. */
  lemma FrontIffStarts(lens: seq<nat>, s: nat, c: seq<byte>, inp: seq<byte>, hold: nat, bits: nat)
    requires Held(c, hold, bits) && c <= inp && IsSym(lens, s) && lens[s] <= bits
    ensures Front(lens, s, inp, 8 * |c| - bits) <==> Starts(lens, s, hold)
  {
    hide Low, Peek, Rev, CodeOf;
    BitsHeld(c, inp, hold, bits, lens[s]);
  }

  /** What an entry means: enough bits held decide the symbol; too few, with no more input, are not enough. */
  lemma LookUp(t: seq<Code>, at: nat, root: nat, typ: CodeType, lens: seq<nat>,
               c: seq<byte>, inp: seq<byte>, hold: nat, bits: nat) returns (found: bool, s: nat, leaf: Code)
    requires TableFor(t, at, root, typ, lens) && Held(c, hold, bits) && c <= inp
    ensures Resolves(t, at, root, hold, leaf, TableSize(lens, root))
    ensures found ==> IsSym(lens, s) && leaf == Leaf(typ, s, lens[s]) && leaf.bits == lens[s]
    ensures !found ==> leaf == InvalidCode
    ensures leaf.bits <= bits ==> DecodeSym(lens, inp, 8 * |c| - bits) == (if found then Sym(s) else Invalid)
    ensures bits < leaf.bits && c == inp ==> DecodeSym(lens, inp, 8 * |c| - bits) == NeedMore
  {
    hide Low, Peek, Rev, CodeOf, Resolves, Starts, Decodes, Front, Kraft, Pow2;
    found, s, leaf := LeafFor(t, at, root, typ, lens, hold);
    AtMostFull(typ, lens);
    var pos := 8 * |c| - bits;
    if leaf.bits <= bits {
      if found {
        FrontIffStarts(lens, s, c, inp, hold, bits);
        DecodeIs(lens, s, inp, pos);
      } else {
        forall q: nat
          ensures !Front(lens, q, inp, pos)
        {
          if Front(lens, q, inp, pos) {
            FrontFacts(lens, q, inp, pos);
            IncompleteIsShort(typ, lens, q);
            FrontIffStarts(lens, q, c, inp, hold, bits);
          }
        }
      }
    } else if c == inp {
      NotEnough(typ, lens, c, hold, bits, found, s, leaf);
    }
  }

  lemma NotEnough(typ: CodeType, lens: seq<nat>, c: seq<byte>, hold: nat, bits: nat, found: bool, s: nat, leaf: Code)
    requires CodeOk(typ, lens) && Held(c, hold, bits) && bits < leaf.bits
    requires found ==> IsSym(lens, s) && Starts(lens, s, hold) && leaf.bits == lens[s]
    requires !found ==> leaf == InvalidCode && forall q: nat :: IsSym(lens, q) ==> !Starts(lens, q, hold)
    ensures DecodeSym(lens, c, 8 * |c| - bits) == NeedMore
  {
    hide Low, Peek, Rev, CodeOf, Front, Kraft, Pow2, Starts;
    AtMostFull(typ, lens);
    var pos := 8 * |c| - bits;
    forall q: nat
      ensures !Front(lens, q, c, pos)
    {
      if Front(lens, q, c, pos) {
        FrontFacts(lens, q, c, pos);
        FrontIffStarts(lens, q, c, c, hold, bits);
        if found {
          StartsUnique(lens, s, q, hold);
        }
      }
    }
    if Kraft(lens) < Pow2(MAXBITS) && found {
      IncompleteIsShort(typ, lens, s);
    }
  }

  lemma StartsUnique(lens: seq<nat>, s: nat, q: nat, x: nat)
    requires LengthsOk(lens) && Kraft(lens) <= Pow2(MAXBITS) && IsSym(lens, s) && IsSym(lens, q)
    requires Starts(lens, s, x) && Starts(lens, q, x)
    ensures s == q
  {
    hide Starts, Kraft, Lo, Pow2, Rev;
    StartsIffInterval(lens, s, x);
    StartsIffInterval(lens, q, x);
    if s != q {
      Disjoint(lens, s, q);
    }
  }
}
