/**
 What the large loop of inflate_table keeps, told on values: t is the contents of
 the table space, start where this table begins, and everything below a bound in
 the order of codewords is decoded already.
 */
module TableFill {
  import opened Bits
  import opened Huffman
  import opened TableSpec

  /** Every symbol whose interval ends at or below bound is decoded.  Sub-tables end at
      next, except the current one, reached from root entry low, which ends at used. */
  ghost predicate Filled(t: seq<Code>, start: nat, root: nat, typ: CodeType, lens: seq<nat>,
                         bound: nat, low: int, next: nat, used: nat)
    requires CodesOk(typ, lens)
  {
    forall s: nat, x: nat ::
      IsSym(lens, s) && Hi(lens, s) <= bound && Lo(lens, s) <= Rev(MAXBITS, x) < Hi(lens, s) ==>
      Resolves(t, start, root, x, Leaf(typ, s, lens[s]), if Low(x, root) == low then used else next)
  }

  /** here was written to each of the 2^curr entries from at on whose index has the low k bits first. */
  ghost predicate Replicated(t: seq<Code>, t': seq<Code>, at: nat, curr: nat, k: nat, first: nat, here: Code)
  {
    && |t'| == |t|
    && forall j :: 0 <= j < |t| ==>
         t'[j] == if at <= j < at + Pow2(curr) && Low(j - at, k) == first then here else t[j]
  }

  /** The backwards codeword of s. */
  function Huff(lens: seq<nat>, s: nat): nat
    requires IsSym(lens, s)
  {
    Rev(MAXBITS, Lo(lens, s))
  }

  lemma HuffIsReversedCode(lens: seq<nat>, s: nat)
    requires LengthsOk(lens) && IsSym(lens, s)
    ensures Huff(lens, s) == Rev(lens[s], CodeOf(lens, s)) < Pow2(lens[s])
  {
    RevShift(lens[s], MAXBITS - lens[s], CodeOf(lens, s));
    RevBound(lens[s], CodeOf(lens, s));
  }

  lemma MatchesHuff(lens: seq<nat>, s: nat, x: nat)
    requires LengthsOk(lens) && IsSym(lens, s) && Kraft(lens) <= Pow2(MAXBITS)
    ensures Low(x, lens[s]) == Huff(lens, s) <==> Lo(lens, s) <= Rev(MAXBITS, x) < Hi(lens, s)
    ensures Low(x, lens[s]) == Huff(lens, s) <==> Starts(lens, s, x)
  {
    HuffIsReversedCode(lens, s);
    StartsIffInterval(lens, s, x);
  }

  /** A symbol decoded so far shares no bit string with the next one. */
  lemma EarlierMisses(lens: seq<nat>, cur: nat, s: nat, x: nat)
    requires LengthsOk(lens) && IsSym(lens, cur) && IsSym(lens, s) && Kraft(lens) <= Pow2(MAXBITS)
    requires s != cur && Hi(lens, s) <= Hi(lens, cur) && Lo(lens, s) <= Rev(MAXBITS, x) < Hi(lens, s)
    ensures Hi(lens, s) <= Lo(lens, cur)
    ensures Low(x, lens[cur]) != Huff(lens, cur)
  {
    Disjoint(lens, s, cur);
    MatchesHuff(lens, cur, x);
  }

  // ---- entries in the root table

  lemma FillRoot(t: seq<Code>, t': seq<Code>, start: nat, root: nat, typ: CodeType, lens: seq<nat>, cur: nat, used: nat)
    requires CodesOk(typ, lens) && Kraft(lens) <= Pow2(MAXBITS) && root <= MAXBITS
    requires IsSym(lens, cur) && lens[cur] <= root
    requires Filled(t, start, root, typ, lens, Lo(lens, cur), -1, 0, used)
    requires start + Pow2(root) <= |t|
    requires Replicated(t, t', start, root, lens[cur], Huff(lens, cur), Leaf(typ, cur, lens[cur]))
    ensures Filled(t', start, root, typ, lens, Hi(lens, cur), -1, 0, used)
  {
    hide Low, Rev, Shr, Pow2, Shl, Kraft, Leaf;
    forall s: nat, x: nat |
      IsSym(lens, s) && Hi(lens, s) <= Hi(lens, cur) && Lo(lens, s) <= Rev(MAXBITS, x) < Hi(lens, s)
      ensures Resolves(t', start, root, x, Leaf(typ, s, lens[s]), 0)
    {
      LowBound(x, root);
      LowSplit(x, lens[cur], root - lens[cur]);
      if s == cur {
        MatchesHuff(lens, cur, x);
      } else {
        EarlierMisses(lens, cur, s, x);
        assert Resolves(t, start, root, x, Leaf(typ, s, lens[s]), 0);
      }
    }
  }

  // ---- entries in a sub-table

  /** Among bit strings with the same low root bits, the index into the sub-table decides. */
  lemma SubIndex(x: nat, h: nat, root: nat, len: nat, curr: nat)
    requires root < len <= root + curr && h < Pow2(len) && Low(x, root) == Low(h, root)
    ensures Low(Low(Shr(x, root), curr), len - root) == Shr(h, root) <==> Low(x, len) == h
  {
    LowSplit(Shr(x, root), len - root, curr - (len - root));
    LowSplit(x, root, len - root);
    Recompose(h, root);
    var a, b := Low(Shr(x, root), len - root), Shr(h, root);
    if a < b {
      ShlMono(a, b, root);
    } else if b < a {
      ShlMono(b, a, root);
    }
  }

  /** The shape of the current sub-table: len bits of codeword h, a link at its root entry. */
  ghost predicate Current(t: seq<Code>, start: nat, root: nat, h: nat, len: nat, curr: nat, low: nat, next: nat, used: nat)
  {
    && root < len <= root + curr <= MAXBITS
    && h < Pow2(len)
    && low == Low(h, root) < Pow2(root) <= next
    && used == next + Pow2(curr)
    && start + used <= |t|
    && t[start + low] == Code(curr, root, next)
  }

  lemma NewLeafResolves(t: seq<Code>, t': seq<Code>, start: nat, root: nat, x: nat, leaf: Code,
                        h: nat, curr: nat, low: nat, next: nat, used: nat)
    requires Current(t, start, root, h, leaf.bits, curr, low, next, used)
    requires Replicated(t, t', start + next, curr, leaf.bits - root, Shr(h, root), leaf.(bits := leaf.bits - root))
    requires Low(x, leaf.bits) == h
    ensures Low(x, root) == low
    ensures Resolves(t', start, root, x, leaf, used)
  {
    hide Low, Shr, Shl, Pow2;
    LowSplit(x, root, leaf.bits - root);
    SubIndex(x, h, root, leaf.bits, curr);
    var z := Low(Shr(x, root), curr);
    LowBound(Shr(x, root), curr);
    var j := start + next + z;
    assert t'[j] == leaf.(bits := leaf.bits - root);
    assert t'[start + low] == t[start + low];
  }

  lemma OldLeafResolves(t: seq<Code>, t': seq<Code>, start: nat, root: nat, x: nat, leaf: Code, len: nat,
                        here: Code, h: nat, curr: nat, low: nat, next: nat, used: nat)
    requires Current(t, start, root, h, len, curr, low, next, used)
    requires Replicated(t, t', start + next, curr, len - root, Shr(h, root), here)
    requires Low(x, len) != h
    requires Resolves(t, start, root, x, leaf, if Low(x, root) == low then used else next)
    ensures Resolves(t', start, root, x, leaf, if Low(x, root) == low then used else next)
  {
    hide Low, Pow2, Shr;
    LowBound(x, root);
    var e := t[start + Low(x, root)];
    if IsLink(e) {
      if Low(x, root) == low {
        OldIndexKept(x, h, root, len, curr);
      } else {
        LowBound(Shr(x, root), e.op);
      }
    }
  }

  lemma OldIndexKept(x: nat, h: nat, root: nat, len: nat, curr: nat)
    requires root < len <= root + curr && h < Pow2(len) && Low(x, root) == Low(h, root)
    requires Low(x, len) != h
    ensures Low(Shr(x, root), curr) < Pow2(curr)
    ensures Low(Low(Shr(x, root), curr), len - root) != Shr(h, root)
  {
    SubIndex(x, h, root, len, curr);
    LowBound(Shr(x, root), curr);
  }

  lemma FillSub(t: seq<Code>, t': seq<Code>, start: nat, root: nat, typ: CodeType, lens: seq<nat>,
                cur: nat, curr: nat, low: nat, next: nat, used: nat)
    requires CodesOk(typ, lens) && Kraft(lens) <= Pow2(MAXBITS)
    requires IsSym(lens, cur) && Current(t, start, root, Huff(lens, cur), lens[cur], curr, low, next, used)
    requires Filled(t, start, root, typ, lens, Lo(lens, cur), low, next, used)
    requires Replicated(t, t', start + next, curr, lens[cur] - root, Shr(Huff(lens, cur), root),
                        Leaf(typ, cur, lens[cur] - root))
    ensures Filled(t', start, root, typ, lens, Hi(lens, cur), low, next, used)
  {
    hide Low, Rev, Shr, Pow2, Shl, Replicated, Current, Lo, Hi, Huff, Resolves, Kraft;
    forall s: nat, x: nat |
      IsSym(lens, s) && Hi(lens, s) <= Hi(lens, cur) && Lo(lens, s) <= Rev(MAXBITS, x) < Hi(lens, s)
      ensures Resolves(t', start, root, x, Leaf(typ, s, lens[s]), if Low(x, root) == low then used else next)
    {
      if s == cur {
        NewDecoded(t, t', start, root, typ, lens, cur, curr, low, next, used, x);
      } else {
        EarlierMisses(lens, cur, s, x);
        OldLeafResolves(t, t', start, root, x, Leaf(typ, s, lens[s]), lens[cur], Leaf(typ, cur, lens[cur] - root),
                        Huff(lens, cur), curr, low, next, used);
      }
    }
  }

  /** The symbol whose entries were just written. */
  lemma NewDecoded(t: seq<Code>, t': seq<Code>, start: nat, root: nat, typ: CodeType, lens: seq<nat>,
                   cur: nat, curr: nat, low: nat, next: nat, used: nat, x: nat)
    requires CodesOk(typ, lens) && Kraft(lens) <= Pow2(MAXBITS)
    requires IsSym(lens, cur) && Current(t, start, root, Huff(lens, cur), lens[cur], curr, low, next, used)
    requires Replicated(t, t', start + next, curr, lens[cur] - root, Shr(Huff(lens, cur), root),
                        Leaf(typ, cur, lens[cur] - root))
    requires Lo(lens, cur) <= Rev(MAXBITS, x) < Hi(lens, cur)
    ensures Low(x, root) == low && Resolves(t', start, root, x, Leaf(typ, cur, lens[cur]), used)
  {
    hide Low, Rev, Shr, Pow2, Shl, Replicated, Lo, Hi, Huff, Resolves, Kraft, Leaf;
    MatchesHuff(lens, cur, x);
    LeafBits(typ, cur, lens[cur], lens[cur] - root);
    NewLeafResolves(t, t', start, root, x, Leaf(typ, cur, lens[cur]), Huff(lens, cur), curr, low, next, used);
  }

  lemma LeafBits(typ: CodeType, s: nat, a: nat, b: nat)
    requires s < MaxCodes(typ)
    ensures Leaf(typ, s, b) == Leaf(typ, s, a).(bits := b)
    ensures Leaf(typ, s, a).bits == a
  {}

  // ---- a new sub-table

  /** Pointing the next root slot u to fresh space disturbs nothing decoded so far. */
  lemma LinkSlot(t: seq<Code>, start: nat, root: nat, typ: CodeType, lens: seq<nat>,
                 u: nat, low: int, next: nat, used: nat, e': Code, used': nat)
    requires CodesOk(typ, lens) && root <= MAXBITS && u < Pow2(root)
    requires start + Pow2(root) <= |t| && next <= used && Rev(root, u) < Pow2(root)
    requires Filled(t, start, root, typ, lens, Shl(u, MAXBITS - root), low, next, used)
    ensures Filled(t[start + Rev(root, u) := e'], start, root, typ, lens, Shl(u, MAXBITS - root), Rev(root, u), used, used')
  {
    hide Low, Rev, Shr, Pow2, Resolves, Lo, Hi, Shl;
    var low' := Rev(root, u);
    var t' := t[start + low' := e'];
    forall s: nat, x: nat |
      IsSym(lens, s) && Hi(lens, s) <= Shl(u, MAXBITS - root) && Lo(lens, s) <= Rev(MAXBITS, x) < Hi(lens, s)
      ensures Resolves(t', start, root, x, Leaf(typ, s, lens[s]), if Low(x, root) == low' then used' else used)
    {
      PrefixInterval(MAXBITS, root, u, x);
      LinkKeeps(t, start, root, x, Leaf(typ, s, lens[s]), low', e', if Low(x, root) == low then used else next, used);
    }
  }

  lemma LinkKeeps(t: seq<Code>, start: nat, root: nat, x: nat, leaf: Code, low: nat, e: Code, lim: nat, lim': nat)
    requires low < Pow2(root) && start + low < |t| && Low(x, root) != low && lim <= lim'
    requires Resolves(t, start, root, x, leaf, lim)
    ensures Resolves(t[start + low := e], start, root, x, leaf, lim')
  {}
}
