/** inflate_table: the decoding tables of a canonical Huffman code, built in place. */
module InfTrees {
  import opened Bits
  import opened Huffman
  import opened TableSpec
  import opened TableSort
  import opened TableFill
  import opened TableSteps
  import opened TableLookAhead
  import opened TableCursor
  import opened TableTiles

  /** Entries that must be available at *table: the sizes the limits ENOUGH guard, and for
      code length codes, which are never longer than the root request, the root table. */
  function Space(typ: CodeType, bits: nat): nat
  {
    match typ
    case CODES => Pow2(bits)
    case LENS => ENOUGH_LENS
    case DISTS => ENOUGH_DISTS
  }

  ghost predicate Ready(typ: CodeType, lens: seq<nat>, root: nat, bits: nat)
  {
    && CodesOk(typ, lens) && Acceptable(typ, lens)
    && 0 < Kraft(lens) <= Pow2(MAXBITS)
    && root == RootBits(lens, bits)
    && 1 <= root <= MaxLen(lens, MAXBITS) <= MAXBITS
    && (typ == CODES ==> root == MaxLen(lens, MAXBITS) <= bits)
  }

  // ---- the facts about the final table

  lemma {:induction false} Monotone(t: seq<Code>, start: nat, root: nat, x: nat, leaf: Code, lim: nat, lim': nat)
    requires Resolves(t, start, root, x, leaf, lim) && lim <= lim'
    ensures Resolves(t, start, root, x, leaf, lim')
  {}

  lemma SymbolsDecoded(t: seq<Code>, start: nat, root: nat, typ: CodeType, lens: seq<nat>,
                       low: int, next: nat, used: nat, s: nat, x: nat)
    requires CodesOk(typ, lens) && Kraft(lens) <= Pow2(MAXBITS) && next <= used
    requires Filled(t, start, root, typ, lens, Kraft(lens), low, next, used)
    requires IsSym(lens, s) && Starts(lens, s, x)
    ensures Resolves(t, start, root, x, Leaf(typ, s, lens[s]), used)
    ensures Rev(MAXBITS, x) < Kraft(lens)
  {
    hide Low, Pow2, Shl, Rev, Resolves, Leaf;
    BelowKraft(lens, s);
    StartsIffInterval(lens, s, x);
    Monotone(t, start, root, x, Leaf(typ, s, lens[s]), if Low(x, root) == low then used else next, used);
  }

  lemma CompleteDecodes(t: seq<Code>, start: nat, root: nat, typ: CodeType, lens: seq<nat>,
                        low: int, next: nat, used: nat)
    requires CodesOk(typ, lens) && Kraft(lens) == Pow2(MAXBITS) && next <= used
    requires Filled(t, start, root, typ, lens, Kraft(lens), low, next, used)
    ensures Decodes(t, start, root, typ, lens, used)
  {
    hide Low, Pow2, Shl, Rev, Resolves, Leaf, Kraft, Filled;
    forall s: nat, x: nat | IsSym(lens, s) && Starts(lens, s, x)
      ensures Resolves(t, start, root, x, Leaf(typ, s, lens[s]), used)
    {
      SymbolsDecoded(t, start, root, typ, lens, low, next, used, s, x);
    }
    forall x: nat
      ensures Rev(MAXBITS, x) < Kraft(lens)
    {
      RevBound(MAXBITS, x);
    }
  }

  /** A single one-bit code leaves the index 1 to the invalid code marker. */
  lemma IncompleteDecodes(t: seq<Code>, start: nat, typ: CodeType, lens: seq<nat>, used: nat)
    requires CodesOk(typ, lens) && Kraft(lens) == Pow2(MAXBITS - 1) && start + 1 < |t|
    requires Filled(t, start, 1, typ, lens, Kraft(lens), -1, 0, used)
    ensures Decodes(t[start + 1 := InvalidCode], start, 1, typ, lens, used)
  {
    hide Filled, Leaf, Shl, Rev, Pow2, Kraft, Low;
    var t' := t[start + 1 := InvalidCode];
    OneBit();
    ShlZeroOne(MAXBITS - 1);
    Pow2Step(MAXBITS - 1);
    forall s: nat, x: nat | IsSym(lens, s) && Starts(lens, s, x)
      ensures Resolves(t', start, 1, x, Leaf(typ, s, lens[s]), used)
    {
      SymbolsDecoded(t, start, 1, typ, lens, -1, 0, used, s, x);
      PrefixInterval(MAXBITS, 1, 1, x);
      LinkKeeps(t, start, 1, x, Leaf(typ, s, lens[s]), 1, InvalidCode, used, used);
    }
    forall x: nat | Kraft(lens) <= Rev(MAXBITS, x)
      ensures Resolves(t', start, 1, x, InvalidCode, used)
    {
      RevBound(MAXBITS, x);
      OneBit();
      PrefixInterval(MAXBITS, 1, 1, x);
    }
  }

  /** ... and that index is the backwards code the loop ends with. */
  lemma IncompleteEnd(typ: CodeType, lens: seq<nat>, root: nat, bits: nat, cur: nat)
    requires Ready(typ, lens, root, bits) && Kraft(lens) < Pow2(MAXBITS)
    requires IsSym(lens, cur) && Hi(lens, cur) == Kraft(lens)
    ensures root == 1 && lens[cur] == 1
    ensures Kraft(lens) == Pow2(MAXBITS - 1)
    ensures Rev(MAXBITS, Kraft(lens)) == 1
  {
    hide Lo, Hi, Kraft, CodeOf;
    SymLenBounds(lens, cur);
    HiIsNextCode(lens, cur);
    OneBitCode(CodeOf(lens, cur), MAXBITS - 1);
  }

  lemma OneBitCode(c: nat, d: nat)
    requires Shl(c + 1, d) < Pow2(d + 1)
    ensures Shl(c + 1, d) == Pow2(d)
    ensures Rev(d + 1, Pow2(d)) == 1
  {
    ShlZeroOne(d);
    if c != 0 {
      ShlMono(2, c + 1, d);
      ShlAdd(1, 1, d);
    }
    RevShift(1, d, 1);
    OneBit();
  }

  lemma OneBit()
    ensures Rev(1, 1) == 1 && Pow2(1) == 2
  {}

  lemma NoSymbols(typ: CodeType, lens: seq<nat>, t: seq<Code>, start: nat)
    requires CodesOk(typ, lens) && MaxLen(lens, MAXBITS) == 0
    requires start + 2 <= |t| && t[start] == InvalidCode && t[start + 1] == InvalidCode
    ensures Kraft(lens) == 0 && TableSize(lens, 1) == 2 && Pow2(1) == 2
    ensures Decodes(t, start, 1, typ, lens, 2)
    ensures Tiled(t, start, 1, lens, 2)
  {
    MaxLenIs(lens, MAXBITS);
    OffsFlat(lens, 1, MAXBITS + 1);
    EdgeMono(lens, 1, MAXBITS + 1);
    KraftIsLastEdge(lens);
    ShlZeroOne(MAXBITS - 1);
    forall s: nat | IsSym(lens, s)
      ensures false
    {
      SymLenBounds(lens, s);
    }
    NoSubTables(lens, 1, Pow2(1));
    NoTiles(t, start, 1, lens, Pow2(1));
    forall x: nat
      ensures Resolves(t, start, 1, x, InvalidCode, 2)
    {
      InvalidBoth(t, start, x);
    }
  }

  lemma InvalidBoth(t: seq<Code>, start: nat, x: nat)
    requires start + 2 <= |t| && t[start] == InvalidCode && t[start + 1] == InvalidCode
    ensures Resolves(t, start, 1, x, InvalidCode, 2)
  {
    hide Low;
    LowBound(x, 1);
    OneBit();
  }

  lemma SomeSymbols(lens: seq<nat>)
    requires LengthsOk(lens) && MaxLen(lens, MAXBITS) != 0
    ensures 0 < Kraft(lens)
  {
    MaxLenIs(lens, MAXBITS);
    var max := MaxLen(lens, MAXBITS);
    EdgeStep(lens, max);
    ShlMono(0, Count(lens, max), MAXBITS - max);
    EdgeMono(lens, max + 1, MAXBITS + 1);
    KraftIsLastEdge(lens);
  }

  // ---- the loop

  /** Before the first symbol. */
  lemma AtStart(typ: CodeType, lens: seq<nat>, w: seq<nat>, root: nat, bits: nat, start: nat, t: seq<Code>, cnt: seq<nat>, min: nat)
    requires Ready(typ, lens, root, bits) && Sorted(lens, w) && min == MinLen(lens, 1, MaxLen(lens, MAXBITS))
    requires |cnt| == MAXBITS + 1 && forall l :: 0 <= l <= MAXBITS ==> cnt[l] == Count(lens, l)
    requires start + Pow2(root) <= |t|
    ensures AtSymbol(typ, lens, w, root, start, t, cnt, Cursor(0, min, 0, 0, root, 0, -1, Pow2(root)))
  {
    hide Pow2, Low, Shl, Edge;
    MaxLenIs(lens, MAXBITS);
    MinLenIs(lens, 1, MaxLen(lens, MAXBITS));
    OffsMono(lens, min + 1, MAXBITS + 1);
    OffsFlat(lens, 1, min);
    var s := FirstOfLength(lens, w, min);
    FirstIsZero(lens, s);
    assert w[0] == s by {
      if w[0] != s {
        PosInjective(lens, w[0], s);
      }
    }
    RevZero(MAXBITS);
    forall r: nat | IsSym(lens, r)
      ensures 0 < Hi(lens, r)
    {
      PositiveWidth(lens, r);
    }
  }

  /** Create the entries of the current symbol. */
  method WriteSymbol(typ: CodeType, lens: seq<nat>, table: array<Code>, start: nat, work: array<nat>,
                     root: nat, c: Cursor, ghost cnt: seq<nat>)
    requires CodesOk(typ, lens) && Kraft(lens) <= Pow2(MAXBITS) && root <= MAXBITS
    requires AtSymbol(typ, lens, work[..], root, start, table[..], cnt, c)
    modifies table
    ensures Filled(table[..], start, root, typ, lens, Hi(lens, work[c.sym]), c.low, c.next, c.used)
    ensures InRoot(root, c) || InSub(lens, root, start, table[..], work[c.sym], c)
    ensures forall j :: 0 <= j < table.Length && !(start <= j < start + c.used) ==> table[j] == old(table[j])
  {
    hide Filled, Low, Shl, Pow2, Rev, Deepest, SubSizes, Kraft, Leaf, Lo, Shr;
    ghost var t := table[..];
    var here := Leaf(typ, work[c.sym], c.len - c.drop);
    WriteFits(lens, root, start, t, c, work[c.sym]);
    FillEntries(table, start + c.next, c.curr, c.len - c.drop, Shr(c.huff, c.drop), here);
    Write(typ, lens, work[..], root, start, t, table[..], cnt, c, work[c.sym]);
    forall j | 0 <= j < table.Length && !(start <= j < start + c.used)
      ensures table[j] == t[j]
    {
      assert table[..][j] == t[j];
    }
  }

  lemma WriteFits(lens: seq<nat>, root: nat, start: nat, t: seq<Code>, c: Cursor, cur: nat)
    requires LengthsOk(lens) && IsSym(lens, cur) && root <= MAXBITS
    requires c.len == lens[cur] && c.huff == Huff(lens, cur)
    requires InRoot(root, c) || InSub(lens, root, start, t, cur, c)
    ensures c.drop <= c.len && c.len - c.drop <= c.curr
    ensures Shr(c.huff, c.drop) < Pow2(c.len - c.drop)
    ensures c.next + Pow2(c.curr) == c.used
  {
    HuffIsReversedCode(lens, cur);
    ShrBound(c.huff, c.drop, c.len - c.drop);
    if !InRoot(root, c) {
      assert Under(lens, root, SlotOf(lens, root, cur), cur);
      DeepestIs(lens, root, SlotOf(lens, root, cur), |lens|);
    }
  }

  /** What has been established when a pass over symbol cur is done. */
  ghost predicate Done(typ: CodeType, lens: seq<nat>, root: nat, start: nat, t: seq<Code>, c: Cursor, cur: nat, huff: nat)
    requires CodesOk(typ, lens) && root <= MAXBITS
  {
    && IsSym(lens, cur) && c.len == lens[cur] == MaxLen(lens, MAXBITS)
    && Hi(lens, cur) == Kraft(lens)
    && Filled(t, start, root, typ, lens, Kraft(lens), c.low, c.next, c.used)
    && (InRoot(root, c) || InSub(lens, root, start, t, cur, c))
    && huff == (if Kraft(lens) == Pow2(MAXBITS) then 0 else Rev(MAXBITS, Kraft(lens)))
    && start + c.used <= |t|
  }

  /** One pass: write the entries of a symbol, then step to the next code, symbol and length. */
  method Pass(typ: CodeType, lens: seq<nat>, count: array<nat>, table: array<Code>, start: nat, work: array<nat>,
              root: nat, max: nat, c: Cursor) returns (last: bool, c': Cursor)
    requires CodesOk(typ, lens) && Kraft(lens) <= Pow2(MAXBITS) && 1 <= root <= MAXBITS
    requires max == MaxLen(lens, MAXBITS) && count != work
    requires AtSymbol(typ, lens, work[..], root, start, table[..], count[..], c)
    modifies table, count
    ensures forall j :: 0 <= j < table.Length && !(start <= j < start + c.used) ==> table[j] == old(table[j])
    ensures c' == c.(sym := c'.sym, len := c'.len, huff := c'.huff)
    ensures last ==> Done(typ, lens, root, start, table[..], c, work[c.sym], c'.huff) && c'.len == c.len
    ensures !last ==>
              && c'.sym == c.sym + 1 < Offs(lens, MAXBITS + 1) && Sorted(lens, work[..])
              && IsSym(lens, work[c.sym])
              && var cur, nxt := work[c.sym], work[c'.sym];
              && CountsLeft(lens, count[..], nxt)
              && Lo(lens, nxt) == Hi(lens, cur) && lens[cur] <= lens[nxt] == c'.len && c'.huff == Huff(lens, nxt)
              && c.len == lens[cur] && Pos(lens, nxt) == Pos(lens, cur) + 1
              && start + c.used <= table.Length
              && Filled(table[..], start, root, typ, lens, Lo(lens, nxt), c.low, c.next, c.used)
              && (InRoot(root, c) || InSub(lens, root, start, table[..], cur, c))
  {
    hide Filled, Low, Shl, Pow2, Rev, Deepest, SubSizes, Kraft, Leaf, Lo, Shr, InRoot, InSub, Pos, Offs;
    ghost var cur, cnt := work[c.sym], count[..];
    WriteSymbol(typ, lens, table, start, work, root, c, cnt);
    HuffIsReversedCode(lens, cur);
    LenPositive(lens, cur);
    var huff := BackIncrement(c.huff, c.len);
    NextHuff(lens, cur, c.huff, huff);
    var sym, len := c.sym + 1, c.len;
    if LastSymbol(lens, cnt, cur) {
      AdvanceLast(lens, work[..], cnt, c.sym, cur);
    } else {
      AdvanceMore(lens, work[..], cnt, c.sym, cur);
      BelowTop(lens, work[c.sym + 1]);
    }
    count[len] := count[len] - 1;
    if count[len] == 0 {
      if len == max {
        return true, c.(sym := sym, len := len, huff := huff);
      }
      len := lens[work[sym]];
    }
    assert count[..] == cnt[lens[cur] := cnt[lens[cur]] - 1];
    return false, c.(sym := sym, len := len, huff := huff);
  }

  lemma LenPositive(lens: seq<nat>, cur: nat)
    requires IsSym(lens, cur)
    ensures Count(lens, lens[cur]) > Rank(lens, cur)
  {
    RankBelowCount(lens, cur);
  }

  lemma BelowTop(lens: seq<nat>, s: nat)
    requires LengthsOk(lens) && IsSym(lens, s)
    ensures Lo(lens, s) < Kraft(lens)
  {
    BelowKraft(lens, s);
    PositiveWidth(lens, s);
  }

  /** Between passes: keep filling the table in hand, or open a sub-table for the next root slot. */
  method NextTable(typ: CodeType, lens: seq<nat>, count: array<nat>, table: array<Code>, start: nat,
                   root: nat, max: nat, bits: nat, c: Cursor, ghost cur: nat, ghost nxt: nat, ghost w: seq<nat>)
    returns (ok: bool, c': Cursor)
    requires Ready(typ, lens, root, bits) && max == MaxLen(lens, MAXBITS) && Sorted(lens, w)
    requires IsSym(lens, cur) && IsSym(lens, nxt) && lens[cur] <= lens[nxt] == c.len && c.huff == Huff(lens, nxt)
    requires Lo(lens, nxt) == Hi(lens, cur) && Pos(lens, nxt) == Pos(lens, cur) + 1
    requires CountsLeft(lens, count[..], nxt)
    requires start + Space(typ, bits) <= table.Length && start + c.used <= table.Length
    requires Filled(table[..], start, root, typ, lens, Lo(lens, nxt), c.low, c.next, c.used)
    requires InRoot(root, c.(len := lens[cur])) || InSub(lens, root, start, table[..], cur, c.(len := lens[cur]))
    modifies table
    ensures forall j :: 0 <= j < table.Length && !(start <= j < start + c.used) ==> table[j] == old(table[j])
    ensures c' == c.(next := c'.next, curr := c'.curr, drop := c'.drop, low := c'.low, used := c'.used)
    ensures c.used <= c'.used
    ensures ok ==>
              && start + c'.used <= table.Length
              && Filled(table[..], start, root, typ, lens, Lo(lens, nxt), c'.low, c'.next, c'.used)
              && (InRoot(root, c') || InSub(lens, root, start, table[..], nxt, c'))
              && (c'.used == c.used || !TooBig(typ, c'.used))
    ensures !ok ==> TooBig(typ, TableSize(lens, root))
  {
    hide Filled, Low, Shl, Pow2, Rev, Deepest, Kraft, Leaf, Lo, Shr, Pos, Offs, MaxLen, RootBits, Sorted;
    ghost var t := table[..];
    Relocate(lens, root, start, t, c.(len := lens[cur], sym := 0), cur, nxt, c.huff);
    SymLenBounds(lens, nxt);
    if c.len > root && Low(c.huff, root) != c.low {
      var low := Low(c.huff, root);
      var curr := SubTableBits(lens, count, c.len, root, max, nxt, w);
      var used := c.used + Pow2(curr);
      UsedOnTheWay(lens, root, SlotOf(lens, root, nxt), curr);
      c' := c.(drop := root, next := c.next + Pow2(c.curr), curr := curr, low := low, used := used);
      if TooBig(typ, used) {
        return false, c';
      }
      Open(typ, lens, root, start, t, c.(drop := root), nxt, low, curr);
      table[start + low] := Code(curr, root, c'.next);
      assert table[..] == t[start + low := Code(curr, root, c.used)];
      return true, c';
    }
    return true, c;
  }

  lemma UsedOnTheWay(lens: seq<nat>, root: nat, u: nat, curr: nat)
    requires root <= MAXBITS && u < Pow2(root) && Deepest(lens, root, u, |lens|) == root + curr && 1 <= curr
    ensures Pow2(root) + SubSizes(lens, root, u) + Pow2(curr) <= TableSize(lens, root)
  {
    hide Pow2, Deepest;
    SubSizesMono(lens, root, u + 1, Pow2(root));
  }

  /** Process all codes; ok is false when the limit on the table size is passed. */
  method FillTables(typ: CodeType, lens: seq<nat>, count: array<nat>, table: array<Code>, start: nat, work: array<nat>,
                    root: nat, min: nat, max: nat, bits: nat) returns (ok: bool, used: nat)
    requires Ready(typ, lens, root, bits) && max == MaxLen(lens, MAXBITS) && min == MinLen(lens, 1, max)
    requires Sorted(lens, work[..]) && count != work
    requires count.Length == MAXBITS + 1 && forall l :: 0 <= l <= MAXBITS ==> count[l] == Count(lens, l)
    requires !TooBig(typ, Pow2(root)) && start + Space(typ, bits) <= table.Length
    modifies table, count
    ensures forall j :: 0 <= j < table.Length && !(start <= j < start + Space(typ, bits)) ==> table[j] == old(table[j])
    ensures ok <==> !TooBig(typ, TableSize(lens, root))
    ensures ok ==> used == TableSize(lens, root) <= Space(typ, bits)
    ensures ok ==> Decodes(table[..], start, root, typ, lens, used)
    ensures ok ==> Tiled(table[..], start, root, lens, Pow2(root))
  {
    hide Filled, Low, Shl, Pow2, Rev, Deepest, SubSizes, Kraft, Leaf, Lo, Shr, InRoot, InSub, Pos, Offs, TableSize,
         RootBits, MaxLen, Decodes, Tiled;
    RootFits(typ, lens, root, bits);
    AtStart(typ, lens, work[..], root, bits, start, table[..], count[..], min);
    var c := Cursor(0, min, 0, 0, root, 0, -1, Pow2(root));
    ghost var t0 := table[..];
    while true
      invariant c.sym < Offs(lens, MAXBITS + 1)
      invariant AtSymbol(typ, lens, work[..], root, start, table[..], count[..], c)
      invariant c.used <= Space(typ, bits) && !TooBig(typ, c.used)
      invariant forall j :: 0 <= j < table.Length && !(start <= j < start + Space(typ, bits)) ==> table[j] == t0[j]
      decreases Offs(lens, MAXBITS + 1) - c.sym
    {
      ghost var cur := work[c.sym];
      var last, n := Pass(typ, lens, count, table, start, work, root, max, c);
      if last {
        Finish(typ, lens, work[..], root, bits, start, table[..], c, cur, n.huff);
        used := c.used;
        if n.huff != 0 {
          FinishIncomplete(typ, lens, root, bits, start, table[..], c, cur, n.huff);
          ghost var t := table[..];
          table[start + c.next + n.huff] := Code(64, c.len - c.drop, 0);
          assert table[..] == t[start + c.next + n.huff := Code(64, c.len - c.drop, 0)];
        }
        return true, used;
      }
      ghost var nxt := work[n.sym];
      SamePlace(lens, root, start, table[..], cur, c, n.(len := lens[cur]));
      var more, n' := NextTable(typ, lens, count, table, start, root, max, bits, n, cur, nxt, work[..]);
      if !more {
        return false, n'.used;
      }
      SpaceFits(typ, lens, root, bits, start, table[..], nxt, n');
      c := n';
    }
  }

  lemma SamePlace(lens: seq<nat>, root: nat, start: nat, t: seq<Code>, cur: nat, c: Cursor, c': Cursor)
    requires root <= MAXBITS && (InRoot(root, c) || InSub(lens, root, start, t, cur, c))
    requires c' == c.(sym := c'.sym, huff := c'.huff)
    ensures InRoot(root, c') || InSub(lens, root, start, t, cur, c')
  {}

  lemma RootFits(typ: CodeType, lens: seq<nat>, root: nat, bits: nat)
    requires Ready(typ, lens, root, bits) && !TooBig(typ, Pow2(root))
    ensures Pow2(root) <= Space(typ, bits)
  {
    if typ == CODES {
      Pow2Mono(root, bits);
    }
  }

  /** A table that passed the checks stays within the space; code length codes have no sub-tables. */
  lemma SpaceFits(typ: CodeType, lens: seq<nat>, root: nat, bits: nat, start: nat, t: seq<Code>, cur: nat, c: Cursor)
    requires Ready(typ, lens, root, bits) && IsSym(lens, cur) && !TooBig(typ, c.used)
    requires InRoot(root, c) || InSub(lens, root, start, t, cur, c)
    ensures c.used <= Space(typ, bits)
  {
    hide Kraft, Pow2, RootBits, Lo, Deepest, SubSizes;
    if typ == CODES {
      SymLenBounds(lens, cur);
      Pow2Mono(root, bits);
    }
  }

  lemma Finish(typ: CodeType, lens: seq<nat>, w: seq<nat>, root: nat, bits: nat, start: nat, t: seq<Code>, c: Cursor, cur: nat, huff: nat)
    requires Ready(typ, lens, root, bits) && Done(typ, lens, root, start, t, c, cur, huff)
    ensures c.used == TableSize(lens, root) && Tiled(t, start, root, lens, Pow2(root))
    ensures huff == 0 ==> Decodes(t, start, root, typ, lens, c.used)
  {
    hide Filled, Pow2, Rev, Kraft, Lo, Decodes, RootBits, MaxLen, TableSize, Tiled;
    SizeAtEnd(typ, lens, w, root, start, t, c, cur);
    if Kraft(lens) == Pow2(MAXBITS) {
      CompleteDecodes(t, start, root, typ, lens, c.low, c.next, c.used);
    } else {
      IncompleteEnd(typ, lens, root, bits, cur);
    }
  }

  lemma FinishIncomplete(typ: CodeType, lens: seq<nat>, root: nat, bits: nat, start: nat, t: seq<Code>, c: Cursor, cur: nat, huff: nat)
    requires Ready(typ, lens, root, bits) && Done(typ, lens, root, start, t, c, cur, huff)
    requires huff != 0
    ensures root == 1 && c.next == 0 && huff == 1 && Code(64, c.len - c.drop, 0) == InvalidCode && start + 1 < start + c.used
    ensures Decodes(t[start + 1 := InvalidCode], start, root, typ, lens, c.used)
    ensures Tiled(t[start + 1 := InvalidCode], start, root, lens, Pow2(root))
  {
    hide Filled, Rev, Kraft, Lo, Decodes, RootBits, MaxLen, TableSize, Tiled;
    IncompleteEnd(typ, lens, root, bits, cur);
    OneBit();
    IncompleteDecodes(t, start, typ, lens, c.used);
    SizeAtEnd(typ, lens, [], root, start, t, c, cur);
    NoTiles(t[start + 1 := InvalidCode], start, root, lens, Pow2(root));
  }

  /** The whole of inflate_table.  On success next is where the next table can start and
      root is the actual number of root index bits. */
  method InflateTable(typ: CodeType, lens: seq<nat>, table: array<Code>, start: nat, bits: nat, work: array<nat>)
    returns (ret: int, next: nat, root: nat)
    requires CodesOk(typ, lens) && |lens| <= work.Length
    requires typ == CODES ==> 1 <= bits && forall s :: 0 <= s < |lens| ==> lens[s] <= bits
    requires start + Space(typ, bits) <= table.Length
    modifies table, work
    ensures ret == -1 || ret == 0 || ret == 1
    ensures ret == -1 <==> !Acceptable(typ, lens)
    ensures ret == 1 <==> Acceptable(typ, lens) && TooBig(typ, TableSize(lens, RootBits(lens, bits)))
    ensures ret == 0 ==>
              && root == RootBits(lens, bits)
              && next == start + TableSize(lens, root) <= start + Space(typ, bits)
              && Decodes(table[..], start, root, typ, lens, TableSize(lens, root))
              && Tiled(table[..], start, root, lens, Pow2(root)) && AllVisited(table[..], start, root, TableSize(lens, root))
    ensures forall j :: 0 <= j < table.Length && !(start <= j < start + Space(typ, bits)) ==> table[j] == old(table[j])
  {
    hide Low, Shl, Pow2, Rev, SubSizes, Leaf, Lo, Shr, Decodes, Sorted, CodesOk, Kraft, MaxLen, RootBits, TableSize,
         Acceptable, TooBig, Space, Count, Ready, Tiled, AllVisited, LengthsOk;
    OkLengths(typ, lens);
    var count := CountLengths(lens);
    var min, max;
    root, min, max := BoundRoot(lens, count, bits);
    if max == 0 {
      SmallSpace(typ, bits);
      table[start] := Code(64, 1, 0);
      table[start + 1] := Code(64, 1, 0);
      NoSymbols(typ, lens, table[..], start);
      NoSymbolsOk(typ, lens, bits);
      TilesVisited(table[..], start, 1, lens);
      return 0, start + 2, 1;
    }
    var left := CodesLeft(lens, count);
    Verdict(typ, lens, bits, left);
    if left < 0 || (left > 0 && (typ == CODES || max != 1)) {
      return -1, start, root;
    }
    SortSymbols(lens, count, work);
    AtLeastRoot(typ, lens, root);
    if TooBig(typ, Pow2(root)) {
      return 1, start, root;
    }
    var ok, used := FillTables(typ, lens, count, table, start, work, root, min, max, bits);
    if !ok {
      return 1, start, root;
    }
    ReadySize(typ, lens, root, bits);
    TilesVisited(table[..], start, root, lens);
    return 0, start + used, root;
  }

  lemma ReadySize(typ: CodeType, lens: seq<nat>, root: nat, bits: nat)
    requires Ready(typ, lens, root, bits)
    ensures 1 <= root <= MAXBITS && Pow2(root) <= TableSize(lens, root)
  {}

  lemma NoSymbolsOk(typ: CodeType, lens: seq<nat>, bits: nat)
    requires Kraft(lens) == 0 && MaxLen(lens, MAXBITS) == 0 && TableSize(lens, 1) == 2
    requires typ == CODES ==> 1 <= bits
    ensures Acceptable(typ, lens) && RootBits(lens, bits) == 1 && !TooBig(typ, 2) && 2 <= Space(typ, bits)
  {
    SmallSpace(typ, bits);
  }

  /** The check on left tells the acceptable sets. */
  lemma Verdict(typ: CodeType, lens: seq<nat>, bits: nat, left: int)
    requires CodesOk(typ, lens) && MaxLen(lens, MAXBITS) != 0
    requires typ == CODES ==> forall s :: 0 <= s < |lens| ==> lens[s] <= bits
    requires left < 0 <==> Pow2(MAXBITS) < Kraft(lens)
    requires left >= 0 ==> left == Pow2(MAXBITS) - Kraft(lens)
    ensures !Acceptable(typ, lens) <==> left < 0 || (left > 0 && (typ == CODES || MaxLen(lens, MAXBITS) != 1))
    ensures RootBits(lens, bits) <= MAXBITS
    ensures Acceptable(typ, lens) ==> Ready(typ, lens, RootBits(lens, bits), bits)
  {
    hide Pow2, Kraft, MaxLen, RootBits;
    SomeSymbols(lens);
    RootIs(typ, lens, bits);
  }

  lemma AtLeastRoot(typ: CodeType, lens: seq<nat>, root: nat)
    requires root <= MAXBITS
    ensures TooBig(typ, Pow2(root)) ==> TooBig(typ, TableSize(lens, root))
  {}

  lemma OkLengths(typ: CodeType, lens: seq<nat>)
    requires CodesOk(typ, lens)
    ensures LengthsOk(lens)
  {}

  lemma SmallSpace(typ: CodeType, bits: nat)
    requires typ == CODES ==> 1 <= bits
    ensures 2 <= Space(typ, bits)
  {
    if typ == CODES {
      Pow2Mono(1, bits);
    }
  }

  lemma RootIs(typ: CodeType, lens: seq<nat>, bits: nat)
    requires CodesOk(typ, lens) && MaxLen(lens, MAXBITS) != 0
    requires typ == CODES ==> forall s :: 0 <= s < |lens| ==> lens[s] <= bits
    ensures 1 <= RootBits(lens, bits) <= MaxLen(lens, MAXBITS) <= MAXBITS
    ensures typ == CODES ==> RootBits(lens, bits) == MaxLen(lens, MAXBITS) <= bits
  {
    MaxLenIs(lens, MAXBITS);
    var max := MaxLen(lens, MAXBITS);
    MinLenIs(lens, 1, max);
    if bits < max {
      CountMember(lens, max);
    }
  }

  lemma {:induction false} CountMember(lens: seq<nat>, l: nat)
    requires Count(lens, l) != 0
    ensures l in lens
  {
    if lens[|lens| - 1] != l {
      CountMember(lens[..|lens| - 1], l);
    }
  }
}
