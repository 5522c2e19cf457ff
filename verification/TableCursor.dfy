/** The state of the large loop of inflate_table, and how one pass moves it. */
module TableCursor {
  import opened Bits
  import opened Huffman
  import opened TableSpec
  import opened TableSort
  import opened TableFill
  import opened TableLookAhead
  import opened TableTiles

  /** The local variables of the loop; next and used count entries from the start of the table. */
  datatype Cursor = Cursor(sym: nat, len: nat, huff: nat, next: nat, curr: nat, drop: nat, low: int, used: nat)

  /** Still filling the root table. */
  ghost predicate InRoot(root: nat, c: Cursor)
  {
    && c.drop == 0 && c.next == 0 && c.low == -1
    && 1 <= c.len <= root == c.curr
    && c.used == Pow2(root)
  }

  /** Filling the sub-table of the root slot of cur, which is wide enough for all of it. */
  ghost predicate InSub(lens: seq<nat>, root: nat, start: nat, t: seq<Code>, cur: nat, c: Cursor)
    requires root <= MAXBITS
  {
    && IsSym(lens, cur)
    && var u := SlotOf(lens, root, cur);
    && c.drop == root < c.len == lens[cur]
    && c.low == Rev(root, u) < Pow2(root)
    && Deepest(lens, root, u, |lens|) == root + c.curr <= MAXBITS
    && c.used == Pow2(root) + SubSizes(lens, root, u + 1)
    && c.used == c.next + Pow2(c.curr) && Pow2(root) <= c.next
    && start + c.used <= |t|
    && t[start + c.low] == Code(c.curr, root, c.next)
    && Tiled(t, start, root, lens, u + 1)
  }

  ghost predicate AtSymbol(typ: CodeType, lens: seq<nat>, w: seq<nat>, root: nat, start: nat,
                           t: seq<Code>, cnt: seq<nat>, c: Cursor)
    requires CodesOk(typ, lens) && root <= MAXBITS
  {
    && Sorted(lens, w) && c.sym < Offs(lens, MAXBITS + 1)
    && var cur := w[c.sym];
    && CountsLeft(lens, cnt, cur)
    && c.len == lens[cur] && c.huff == Huff(lens, cur)
    && start + c.used <= |t|
    && Filled(t, start, root, typ, lens, Lo(lens, cur), c.low, c.next, c.used)
    && (InRoot(root, c) || InSub(lens, root, start, t, cur, c))
  }

  // ---- writing the entries of the current symbol

  lemma SlotLow(lens: seq<nat>, root: nat, s: nat)
    requires LengthsOk(lens) && IsSym(lens, s) && root <= lens[s]
    ensures Low(Huff(lens, s), root) == Rev(root, SlotOf(lens, root, s))
  {
    hide Pow2;
    var d := MAXBITS - root;
    RevSplit(d, root, Lo(lens, s));
    RevBound(root, SlotOf(lens, root, s));
    Decompose(Rev(root, SlotOf(lens, root, s)), Rev(d, Lo(lens, s)), root);
  }

  /** Writing the entries of cur decodes one more symbol and keeps the link to the sub-table. */
  lemma Write(typ: CodeType, lens: seq<nat>, w: seq<nat>, root: nat, start: nat,
              t: seq<Code>, t': seq<Code>, cnt: seq<nat>, c: Cursor, cur: nat)
    requires CodesOk(typ, lens) && Kraft(lens) <= Pow2(MAXBITS) && root <= MAXBITS
    requires AtSymbol(typ, lens, w, root, start, t, cnt, c) && cur == w[c.sym] && c.drop <= c.len
    requires Replicated(t, t', start + c.next, c.curr, c.len - c.drop, Shr(c.huff, c.drop),
                        Leaf(typ, cur, c.len - c.drop))
    ensures Filled(t', start, root, typ, lens, Hi(lens, cur), c.low, c.next, c.used)
    ensures InRoot(root, c) || InSub(lens, root, start, t', cur, c)
  {
    hide Filled, Low, Shl, Pow2, Rev, Deepest, SubSizes, Kraft, Leaf, Sorted, Lo, Tiled;
    if InRoot(root, c) {
      FillRoot(t, t', start, root, typ, lens, cur, c.used);
    } else {
      SlotLow(lens, root, cur);
      HuffIsReversedCode(lens, cur);
      DeepestIs(lens, root, SlotOf(lens, root, cur), |lens|);
      assert Under(lens, root, SlotOf(lens, root, cur), cur);
      FillSub(t, t', start, root, typ, lens, cur, c.curr, c.low, c.next, c.used);
      TilesKept(t, t', start, root, lens, SlotOf(lens, root, cur) + 1);
    }
  }

  // ---- moving on to the next symbol

  lemma {:induction false} OffsFlat(lens: seq<nat>, a: nat, b: nat)
    requires 1 <= a <= b && forall l :: a <= l < b ==> Count(lens, l) == 0
    ensures Offs(lens, a) == Offs(lens, b)
  {
    if a < b {
      OffsFlat(lens, a, b - 1);
    }
  }

  predicate LastSymbol(lens: seq<nat>, cnt: seq<nat>, cur: nat)
    requires CountsLeft(lens, cnt, cur)
  {
    cnt[lens[cur]] == 1 && lens[cur] == MaxLen(lens, MAXBITS)
  }

  lemma AdvanceLast(lens: seq<nat>, w: seq<nat>, cnt: seq<nat>, sym: nat, cur: nat)
    requires LengthsOk(lens) && Sorted(lens, w) && sym < Offs(lens, MAXBITS + 1) && cur == w[sym]
    requires CountsLeft(lens, cnt, cur) && LastSymbol(lens, cnt, cur)
    ensures Hi(lens, cur) == Kraft(lens)
  {
    MaxLenIs(lens, MAXBITS);
    HiIsNextCode(lens, cur);
    EdgeStep(lens, lens[cur]);
    OffsFlat(lens, lens[cur] + 1, MAXBITS + 1);
    EdgeMono(lens, lens[cur] + 1, MAXBITS + 1);
    KraftIsLastEdge(lens);
  }

  lemma AdvanceMore(lens: seq<nat>, w: seq<nat>, cnt: seq<nat>, sym: nat, cur: nat)
    requires LengthsOk(lens) && Sorted(lens, w) && sym < Offs(lens, MAXBITS + 1) && cur == w[sym]
    requires CountsLeft(lens, cnt, cur) && !LastSymbol(lens, cnt, cur)
    ensures cnt[lens[cur]] >= 1
    ensures sym + 1 < Offs(lens, MAXBITS + 1)
    ensures var nxt := w[sym + 1];
            && IsSym(lens, nxt) && Lo(lens, nxt) == Hi(lens, cur) && lens[cur] <= lens[nxt]
            && (cnt[lens[cur]] != 1 ==> lens[nxt] == lens[cur])
            && CountsLeft(lens, cnt[lens[cur] := cnt[lens[cur]] - 1], nxt)
            && Pos(lens, nxt) == Pos(lens, cur) + 1
  {
    hide Edge, Lo;
    var len := lens[cur];
    RankBelowCount(lens, cur);
    SymLenBounds(lens, cur);
    MaxLenIs(lens, MAXBITS);
    var max := MaxLen(lens, MAXBITS);
    OffsMono(lens, len + 1, MAXBITS + 1);
    if cnt[len] == 1 {
      OffsMono(lens, len + 1, max);
      OffsMono(lens, max + 1, MAXBITS + 1);
    }
    var nxt := w[sym + 1];
    Adjacent(lens, cur, nxt);
    if len < lens[nxt] {
      OffsMono(lens, len + 1, lens[nxt]);
    }
  }

  /** The incremented backwards code is that of the next symbol. */
  lemma NextHuff(lens: seq<nat>, cur: nat, huff: nat, r: nat)
    requires LengthsOk(lens) && IsSym(lens, cur) && Kraft(lens) <= Pow2(MAXBITS)
    requires huff == Huff(lens, cur) && r < Pow2(lens[cur])
    requires Rev(lens[cur], r) == if Rev(lens[cur], huff) + 1 == Pow2(lens[cur]) then 0 else Rev(lens[cur], huff) + 1
    ensures r == if Hi(lens, cur) == Pow2(MAXBITS) then 0 else Rev(MAXBITS, Hi(lens, cur))
  {
    hide Pow2, Shl, Kraft, Lo, CodeOf;
    var len, c := lens[cur], CodeOf(lens, cur);
    HuffIsReversedCode(lens, cur);
    CodeFits(lens, cur);
    RevInvolution(len, c);
    RevInvolution(len, r);
    RevZero(len);
    HiIsNextCode(lens, cur);
    RevShift(len, MAXBITS - len, c + 1);
    ShlPow2(len, MAXBITS - len);
    if c + 1 < Pow2(len) {
      ShlMono(c + 1, Pow2(len), MAXBITS - len);
      ShlPositive(MAXBITS - len);
    }
  }

  lemma ShlPositive(n: nat)
    ensures 0 < Pow2(n)
  {}

  // ---- staying in the current table or opening the next one

  lemma SlotBelow(lens: seq<nat>, root: nat, s: nat)
    requires LengthsOk(lens) && IsSym(lens, s) && Kraft(lens) <= Pow2(MAXBITS) && root <= MAXBITS
    ensures SlotOf(lens, root, s) < Pow2(root)
  {
    BelowKraft(lens, s);
    ShrBound(Lo(lens, s), MAXBITS - root, root);
  }

  /** A codeword longer than root does not reach past its root slot. */
  lemma EndsInSlot(lens: seq<nat>, root: nat, s: nat)
    requires IsSym(lens, s) && root <= lens[s]
    ensures Hi(lens, s) <= Shl(SlotOf(lens, root, s) + 1, MAXBITS - root)
  {
    hide Shl, Pow2, CodeOf, Shr;
    var u, d, len := SlotOf(lens, root, s), MAXBITS - root, lens[s];
    InSlot(u, Lo(lens, s), d);
    ShlAdd(u, 1, d);
    ShlZeroOne(d);
    ShlShl(u + 1, len - root, MAXBITS - len);
    if Shl(u + 1, len - root) <= CodeOf(lens, s) {
      ShlMono(Shl(u + 1, len - root), CodeOf(lens, s), MAXBITS - len);
    }
    HiIsNextCode(lens, s);
    ShlMono(CodeOf(lens, s) + 1, Shl(u + 1, len - root), MAXBITS - len);
  }

  /** Leaving a slot means entering the next one at its start. */
  lemma NextSlot(lens: seq<nat>, root: nat, cur: nat, nxt: nat)
    requires LengthsOk(lens) && IsSym(lens, cur) && IsSym(lens, nxt)
    requires root < lens[cur] <= lens[nxt] && Lo(lens, nxt) == Hi(lens, cur)
    requires SlotOf(lens, root, nxt) != SlotOf(lens, root, cur)
    ensures SlotOf(lens, root, nxt) == SlotOf(lens, root, cur) + 1
    ensures Lo(lens, nxt) == Shl(SlotOf(lens, root, nxt), MAXBITS - root)
  {
    hide Lo, Pow2;
    var u, v, d := SlotOf(lens, root, cur), SlotOf(lens, root, nxt), MAXBITS - root;
    EndsInSlot(lens, root, cur);
    InSlot(u, Lo(lens, cur), d);
    InSlot(v, Lo(lens, nxt), d);
    PositiveWidth(lens, cur);
    if v < u {
      ShlMono(v, u, d);
    } else {
      ShlMono(u + 1, v, d);
    }
  }

  lemma PositiveWidth(lens: seq<nat>, s: nat)
    requires IsSym(lens, s)
    ensures Lo(lens, s) < Hi(lens, s)
  {}

  /** The first codeword longer than root starts at a slot boundary, and no slot before has a sub-table. */
  lemma FirstSlot(lens: seq<nat>, root: nat, cur: nat, nxt: nat)
    requires LengthsOk(lens) && IsSym(lens, cur) && IsSym(lens, nxt)
    requires lens[cur] <= root < lens[nxt] && Lo(lens, nxt) == Hi(lens, cur) && Pos(lens, nxt) == Pos(lens, cur) + 1
    ensures Lo(lens, nxt) == Shl(SlotOf(lens, root, nxt), MAXBITS - root)
    ensures SubSizes(lens, root, SlotOf(lens, root, nxt)) == 0
  {
    hide Lo, Pow2, Pos;
    var u, d := SlotOf(lens, root, nxt), MAXBITS - root;
    var v := Shl(CodeOf(lens, cur) + 1, root - lens[cur]);
    HiIsNextCode(lens, cur);
    ShlShl(CodeOf(lens, cur) + 1, root - lens[cur], d);
    Decompose(0, v, d);
    assert u == v;
    forall s: nat | IsSym(lens, s) && root < lens[s]
      ensures u <= SlotOf(lens, root, s)
    {
      if s != nxt {
        PosInjective(lens, s, cur);
        PosInjective(lens, s, nxt);
        if Pos(lens, s) < Pos(lens, cur) {
          Ordered(lens, s, cur);
        }
        Ordered(lens, nxt, s);
        PositiveWidth(lens, nxt);
      }
      SlotAtLeast(u, Lo(lens, s), d);
    }
    NoSubTables(lens, root, u);
  }

  /** Moving to the next symbol: either the table in hand goes on, or a new sub-table starts here. */
  lemma Relocate(lens: seq<nat>, root: nat, start: nat, t: seq<Code>, c: Cursor, cur: nat, nxt: nat, huff: nat)
    requires LengthsOk(lens) && Kraft(lens) <= Pow2(MAXBITS) && 1 <= root <= MAXBITS
    requires IsSym(lens, cur) && IsSym(lens, nxt) && c.len == lens[cur] <= lens[nxt] && huff == Huff(lens, nxt)
    requires Lo(lens, nxt) == Hi(lens, cur) && Pos(lens, nxt) == Pos(lens, cur) + 1
    requires InRoot(root, c) || InSub(lens, root, start, t, cur, c)
    ensures lens[nxt] <= root ==> InRoot(root, c.(sym := c.sym + 1, len := lens[nxt], huff := huff))
    ensures lens[nxt] > root && Low(huff, root) == c.low ==>
              InSub(lens, root, start, t, nxt, c.(sym := c.sym + 1, len := lens[nxt], huff := huff))
    ensures lens[nxt] > root && Low(huff, root) != c.low ==>
              var u := SlotOf(lens, root, nxt);
              && Low(huff, root) == Rev(root, u) && u < Pow2(root)
              && Lo(lens, nxt) == Shl(u, MAXBITS - root)
              && c.used == Pow2(root) + SubSizes(lens, root, u)
              && Tiled(t, start, root, lens, u)
  {
    hide Lo, Pow2, Low, Rev, SubSizes, Deepest, SlotOf, Shl, Kraft, Pos, Tiled;
    if lens[nxt] > root {
      SlotLow(lens, root, nxt);
      SlotBelow(lens, root, nxt);
      if InRoot(root, c) {
        FirstSlot(lens, root, cur, nxt);
        NoTiles(t, start, root, lens, SlotOf(lens, root, nxt));
      } else {
        SlotBelow(lens, root, cur);
        RevInvolution(root, SlotOf(lens, root, cur));
        RevInvolution(root, SlotOf(lens, root, nxt));
        if SlotOf(lens, root, nxt) != SlotOf(lens, root, cur) {
          NextSlot(lens, root, cur, nxt);
        }
      }
    }
  }

  /** Opening the sub-table of slot u after used entries, curr bits wide. */
  lemma Open(typ: CodeType, lens: seq<nat>, root: nat, start: nat, t: seq<Code>, c: Cursor, nxt: nat, low: nat, curr: nat)
    requires CodesOk(typ, lens) && root <= MAXBITS && IsSym(lens, nxt) && root < lens[nxt]
    requires c.drop == root && c.len == lens[nxt]
    requires var u := SlotOf(lens, root, nxt);
            && low == Rev(root, u) && u < Pow2(root)
            && Lo(lens, nxt) == Shl(u, MAXBITS - root)
            && c.used == Pow2(root) + SubSizes(lens, root, u)
            && Deepest(lens, root, u, |lens|) == root + curr <= MAXBITS && 1 <= curr
            && Tiled(t, start, root, lens, u)
    requires Filled(t, start, root, typ, lens, Lo(lens, nxt), c.low, c.next, c.used)
    requires c.next <= c.used && start + c.used + Pow2(curr) <= |t|
    ensures low < Pow2(root) <= c.used
    ensures var c' := c.(low := low, next := c.used, curr := curr, used := c.used + Pow2(curr));
            var t' := t[start + low := Code(curr, root, c.used)];
            && InSub(lens, root, start, t', nxt, c')
            && Filled(t', start, root, typ, lens, Lo(lens, nxt), c'.low, c'.next, c'.used)
  {
    hide Lo, Pow2, Rev, Deepest, Shl, Filled, SlotOf, Tiled;
    var u := SlotOf(lens, root, nxt);
    RevBound(root, u);
    OneMoreTile(t, start, root, lens, u, Code(curr, root, c.used));
    LinkSlot(t, start, root, typ, lens, u, c.low, c.next, c.used, Code(curr, root, c.used), c.used + Pow2(curr));
  }

  // ---- the end

  /** When the last symbol is written, the size is exactly what the code needs. */
  lemma SizeAtEnd(typ: CodeType, lens: seq<nat>, w: seq<nat>, root: nat, start: nat, t: seq<Code>, c: Cursor, cur: nat)
    requires LengthsOk(lens) && Acceptable(typ, lens) && 1 <= root <= MAXBITS
    requires IsSym(lens, cur) && lens[cur] == c.len == MaxLen(lens, MAXBITS) && Hi(lens, cur) == Kraft(lens)
    requires InRoot(root, c) || InSub(lens, root, start, t, cur, c)
    ensures c.used == TableSize(lens, root) && Tiled(t, start, root, lens, Pow2(root))
    ensures InRoot(root, c) ==> SubSizes(lens, root, Pow2(root)) == 0
  {
    hide Tiled, Deepest, Rev, Lo, Shr;
    if InRoot(root, c) {
      forall s: nat | IsSym(lens, s)
        ensures lens[s] <= root
      {
        SymLenBounds(lens, s);
      }
      NoSubTables(lens, root, Pow2(root));
      NoTiles(t, start, root, lens, Pow2(root));
    } else {
      LastSlot(typ, lens, root, cur);
    }
  }

  lemma LastSlot(typ: CodeType, lens: seq<nat>, root: nat, cur: nat)
    requires LengthsOk(lens) && Acceptable(typ, lens) && 1 <= root
    requires IsSym(lens, cur) && root < lens[cur] == MaxLen(lens, MAXBITS) && Hi(lens, cur) == Kraft(lens)
    ensures SlotOf(lens, root, cur) + 1 == Pow2(root)
  {
    hide Lo, Pow2, Shl, Kraft;
    var u := SlotOf(lens, root, cur);
    PositiveWidth(lens, cur);
    EndsInSlot(lens, root, cur);
    SlotBelow(lens, root, cur);
    ShlPow2(root, MAXBITS - root);
    if u + 1 < Pow2(root) {
      ShlMono(u + 1, Pow2(root), MAXBITS - root);
      ShlPositive(MAXBITS - root);
    }
  }
}
