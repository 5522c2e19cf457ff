/** What the single states of inflate do, as steps of the decoder. */
module InflateSteps {
  import opened Bits
  import opened Huffman
  import opened TableSpec
  import opened BitStream
  import opened Decoder
  import opened DecoderRuns
  import opened BitBuffer
  import opened Fetch
  import opened Window

  /** At least one step leads from d to e. */
  ghost predicate Advances(d: Dec, e: Dec, inp: seq<byte>, limit: nat)
  {
    var s := Step(d, inp, |d.out| < limit);
    s.Some? && Reaches(s.value, e, inp, limit)
  }

  lemma AdvancesOne(d: Dec, e: Dec, inp: seq<byte>, limit: nat)
    requires Step(d, inp, |d.out| < limit) == Some(e)
    ensures Advances(d, e, inp, limit)
  {
    hide Step;
    ReachesSelf(e, inp, limit);
  }

  lemma AdvancesReaches(d: Dec, e: Dec, inp: seq<byte>, limit: nat)
    requires Advances(d, e, inp, limit)
    ensures Reaches(d, e, inp, limit)
  {
    hide Step, Reaches;
    var s := Step(d, inp, |d.out| < limit).value;
    ReachesOne(d, s, inp, limit);
    ReachesTrans(d, s, e, inp, limit);
  }

  lemma AdvancesMore(d: Dec, e: Dec, f: Dec, inp: seq<byte>, limit: nat)
    requires Advances(d, e, inp, limit) && Reaches(e, f, inp, limit)
    ensures Advances(d, f, inp, limit)
  {
    hide Step, Reaches;
    ReachesTrans(Step(d, inp, |d.out| < limit).value, e, f, inp, limit);
  }

  lemma ReachesAdvances(d: Dec, e: Dec, f: Dec, inp: seq<byte>, limit: nat)
    requires Reaches(d, e, inp, limit) && Advances(e, f, inp, limit)
    ensures Advances(d, f, inp, limit)
  {
    hide Step;
    var n: nat :| Steps(d, e, inp, limit, n);
    AdvancesReaches(e, f, inp, limit);
    if n != 0 {
      var s := Step(d, inp, |d.out| < limit).value;
      assert Steps(s, e, inp, limit, n - 1);
      ReachesTrans(s, e, f, inp, limit);
    }
  }

  // ---- progress

  function PhaseRank(p: Phase): nat
  {
    match p
    case Copy(_) => 9
    case LenLens(_, _, _, _) => 8
    case CodeLens(_, _, _, _) => 7
    case Header => 6
    case Len => 6
    case Table => 6
    case Stored => 6
    case LenExt(_, _) => 5
    case Dist(_) => 4
    case DistExt(_, _, _) => 3
    case Match(_, _) => 2
    case Lit(_) => 2
    case Finished => 0
    case Bad => 0
  }

  /** Each step takes input, gives output, or moves on within the block. */
  ghost predicate Closer(d: Dec, e: Dec)
  {
    && d.pos <= e.pos && |d.out| <= |e.out|
    && (d.pos == e.pos && |d.out| == |e.out| ==> PhaseRank(e.phase) < PhaseRank(d.phase))
  }

  lemma StepCloser(d: Dec, inp: seq<byte>, room: bool)
    requires Ok(d) && d.pos <= 8 * |inp| && Step(d, inp, room).Some?
    ensures Closer(d, Step(d, inp, room).value)
  {
    hide Peek, DecodeSym, BlockCodesOk, Acceptable, CodesOk, CodeLengthCode, LengthBits, LengthFirst, DistBits, DistFirst, Pow2;
    StepKeepsOk(d, inp, room);
    match d.phase
    case CodeLens(_, _, clens, _) => DecodeInInput(CODES, clens, inp, d.pos);
    case Len => DecodeInInput(LENS, d.lit, inp, d.pos);
    case Dist(_) => DecodeInInput(DISTS, d.dst, inp, d.pos);
    case _ =>
  }

  lemma {:induction false} StepsCloser(d: Dec, e: Dec, inp: seq<byte>, limit: nat, n: nat)
    requires Ok(d) && d.pos <= 8 * |inp| && Steps(d, e, inp, limit, n)
    ensures n == 0 || Closer(d, e)
    decreases n
  {
    hide Step, Ok, PhaseRank;
    if n != 0 {
      var s := Step(d, inp, |d.out| < limit).value;
      StepCloser(d, inp, |d.out| < limit);
      StepKeepsOk(d, inp, |d.out| < limit);
      StepsCloser(s, e, inp, limit, n - 1);
    }
  }

  lemma AdvancesCloser(d: Dec, e: Dec, inp: seq<byte>, limit: nat)
    requires Ok(d) && d.pos <= 8 * |inp| && Advances(d, e, inp, limit)
    ensures Closer(d, e)
  {
    hide Step, Ok, PhaseRank;
    var s := Step(d, inp, |d.out| < limit).value;
    var n: nat :| Steps(s, e, inp, limit, n);
    assert Steps(d, e, inp, limit, n + 1);
    StepsCloser(d, e, inp, limit, n + 1);
  }

  // ---- codes

  function Bit(x: nat, k: nat): bool
  {
    Shr(x, k) % 2 == 1
  }

  /** How LEN goes on from a table entry. */
  function AfterLen(e: Code): Phase
  {
    if e.op == 0 then Lit(if e.val < 256 then e.val else 0)
    else if Bit(e.op, 5) then Header
    else if Bit(e.op, 6) then Bad
    else LenExt(e.val, Low(e.op, 4))
  }

  /** How DIST goes on from a table entry. */
  function AfterDist(length: nat, e: Code): Phase
  {
    if Bit(e.op, 6) then Bad else DistExt(length, e.val, Low(e.op, 4))
  }

  lemma ShortOps(op: nat)
    requires 16 <= op < 32
    ensures Low(op, 4) == op - 16 && !Bit(op, 5) && !Bit(op, 6)
  {
    Decompose(op - 16, 1, 4);
    assert Pow2(4) == 16 && Shl(1, 4) == 16;
    assert Pow2(5) == 32;
    LowFits(op, 5);
    ShrShr(op, 5, 1);
    assert Shr(Shr(op, 5), 1) == Shr(op, 5) / 2;
  }

  lemma LongOps()
    ensures Bit(96, 5) && !Bit(64, 5) && Bit(64, 6) && !Bit(77, 5) && Bit(77, 6) && !Bit(202, 5) && Bit(202, 6)
  {}

  /** The literal/length tables hold the lengths of section 3.2.5. */
  lemma LengthTables(s: nat)
    requires 257 <= s < 286
    ensures LengthBase[s - 257] == LengthFirst(s) && LengthExtra[s - 257] == 16 + LengthBits(s)
  {
    hide LengthBase, LengthExtra, LengthFirst, LengthBits;
    LengthExtras(s);
    LengthBases(s);
  }

  lemma LengthExtras(s: nat)
    requires 257 <= s < 286
    ensures LengthExtra[s - 257] == 16 + LengthBits(s)
  {}

  lemma LengthBases(s: nat)
    requires 257 <= s < 286
    ensures LengthBase[s - 257] == LengthFirst(s)
  {
    hide LengthBase, LengthFirst;
    if s < 265 || s == 285 {
      PlainLengths(s);
    } else if s < 273 {
      ShortLengths(s);
    } else {
      LongLengths(s);
    }
  }

  lemma PlainLengths(s: nat)
    requires 257 <= s < 265 || s == 285
    ensures LengthBase[s - 257] == LengthFirst(s)
  {}

  lemma ShortLengths(s: nat)
    requires 265 <= s < 273
    ensures LengthBase[s - 257] == LengthFirst(s)
  {
    hide Shl;
    Shifts(LengthBits(s), 4 + (s - 257) % 4);
  }

  lemma LongLengths(s: nat)
    requires 273 <= s < 285
    ensures LengthBase[s - 257] == LengthFirst(s)
  {
    hide Shl;
    Shifts(LengthBits(s), 4 + (s - 257) % 4);
  }

  lemma DistTables(s: nat)
    requires s < 30
    ensures DistBase[s] == DistFirst(s) && DistExtra[s] == 16 + DistBits(s)
  {
    hide DistBase, DistExtra, DistFirst, DistBits;
    DistExtras(s);
    if s < 10 {
      NearDistances(s);
    } else if s < 20 {
      FarDistances(s);
    } else {
      FarthestDistances(s);
    }
  }

  lemma DistExtras(s: nat)
    requires s < 30
    ensures DistExtra[s] == 16 + DistBits(s)
  {}

  lemma NearDistances(s: nat)
    requires s < 10
    ensures DistBase[s] == DistFirst(s)
  {
    hide Shl;
    Shifts(DistBits(s), 2 + s % 2);
  }

  lemma FarDistances(s: nat)
    requires 10 <= s < 20
    ensures DistBase[s] == DistFirst(s)
  {
    hide Shl;
    Shifts(DistBits(s), 2 + s % 2);
  }

  lemma FarthestDistances(s: nat)
    requires 20 <= s < 30
    ensures DistBase[s] == DistFirst(s)
  {
    hide Shl;
    Shifts(DistBits(s), 2 + s % 2);
  }

  lemma Shifts(e: nat, x: nat)
    ensures e >= 1 ==> Shl(x, e) == 2 * Shl(x, e - 1)
    ensures e == 1 ==> Shl(x, e) == 2 * x
    ensures e == 2 ==> Shl(x, e) == 4 * x
    ensures e == 3 ==> Shl(x, e) == 8 * x
    ensures e == 4 ==> Shl(x, e) == 16 * x
    ensures e == 5 ==> Shl(x, e) == 32 * x
    ensures e == 6 ==> Shl(x, e) == 64 * x
    ensures e == 7 ==> Shl(x, e) == 128 * x
    ensures e == 8 ==> Shl(x, e) == 256 * x
    ensures e == 9 ==> Shl(x, e) == 512 * x
    ensures e == 10 ==> Shl(x, e) == 1024 * x
    ensures e == 11 ==> Shl(x, e) == 2048 * x
    ensures e == 12 ==> Shl(x, e) == 4096 * x
    ensures e == 13 ==> Shl(x, e) == 8192 * x
  {
    if e > 1 {
      Shifts(e - 1, x);
    }
  }

  lemma LenStep(d: Dec, inp: seq<byte>, room: bool, leaf: Code)
    requires Ok(d) && d.phase.Len? && Decoded(LENS, d.lit, leaf, DecodeSym(d.lit, inp, d.pos))
    ensures Step(d, inp, room) == Some(d.(phase := AfterLen(leaf), pos := d.pos + leaf.bits))
  {
    hide DecodeSym, Acceptable, Leaf, AfterLen, LengthFirst, LengthBits;
    var sym := DecodeSym(d.lit, inp, d.pos);
    if sym.Sym? {
      LenLeaf(sym.s, d.lit[sym.s]);
    } else {
      AfterInvalid();
    }
  }

  /** What the leaf of a literal/length symbol says. */
  lemma LenLeaf(s: nat, bits: nat)
    requires s < MaxCodes(LENS)
    ensures AfterLen(Leaf(LENS, s, bits)) ==
              if s < 256 then Lit(s) else if s == 256 then Header
              else if s < 286 then LenExt(LengthFirst(s), LengthBits(s)) else Bad
  {
    hide LengthFirst, LengthBits, Bit, LengthBase, LengthExtra;
    LongOps();
    if 257 <= s < 286 {
      LengthTables(s);
      LengthRanges(s);
      ShortOps(16 + LengthBits(s));
    } else if 286 <= s {
      NoLengths();
    }
  }

  lemma NoLengths()
    ensures LengthExtra[29] == 77 && LengthExtra[30] == 202
  {}

  lemma AfterInvalid()
    ensures AfterLen(InvalidCode) == Bad
  {
    hide Bit;
    LongOps();
  }

  lemma DistStep(d: Dec, inp: seq<byte>, room: bool, leaf: Code)
    requires Ok(d) && d.phase.Dist? && Decoded(DISTS, d.dst, leaf, DecodeSym(d.dst, inp, d.pos))
    ensures Step(d, inp, room) == Some(d.(phase := AfterDist(d.phase.length, leaf), pos := d.pos + leaf.bits))
  {
    hide DecodeSym, Acceptable, DistFirst, DistBits, Bit, Kraft;
    LongOps();
    var sym := DecodeSym(d.dst, inp, d.pos);
    if sym.Sym? && sym.s < 30 {
      DistTables(sym.s);
      DistRanges(sym.s);
      ShortOps(16 + DistBits(sym.s));
    }
  }

  // ---- copying

  lemma {:induction false} CopyRun(d: Dec, inp: seq<byte>, limit: nat, n: nat)
    requires d.phase.Copy? && n <= d.phase.length && d.pos % 8 == 0 && d.pos + 8 * n <= 8 * |inp| && |d.out| + n <= limit
    ensures Reaches(d, d.(phase := Copy(d.phase.length - n), pos := d.pos + 8 * n,
                          out := d.out + inp[d.pos / 8..d.pos / 8 + n]), inp, limit)
    ensures 1 <= n ==> Advances(d, d.(phase := Copy(d.phase.length - n), pos := d.pos + 8 * n,
                          out := d.out + inp[d.pos / 8..d.pos / 8 + n]), inp, limit)
  {
    var i := d.pos / 8;
    var e := d.(phase := Copy(d.phase.length - n), pos := d.pos + 8 * n, out := d.out + inp[i..i + n]);
    if n == 0 {
      assert e == d;
      ReachesSelf(d, inp, limit);
    } else {
      var c := d.(phase := Copy(d.phase.length - (n - 1)), pos := d.pos + 8 * (n - 1), out := d.out + inp[i..i + (n - 1)]);
      CopyRun(d, inp, limit, n - 1);
      assert inp[i..i + n] == inp[i..i + (n - 1)] + [inp[i + n - 1]];
      assert d.out + inp[i..i + n] == c.out + [inp[i + n - 1]];
      assert Step(c, inp, |c.out| < limit) == Some(e);
      CopyLast(d, c, e, inp, limit);
    }
  }

  lemma CopyLast(d: Dec, c: Dec, e: Dec, inp: seq<byte>, limit: nat)
    requires Reaches(d, c, inp, limit) && Step(c, inp, |c.out| < limit) == Some(e)
    ensures Reaches(d, e, inp, limit) && Advances(d, e, inp, limit)
  {
    AdvancesOne(c, e, inp, limit);
    ReachesAdvances(d, c, e, inp, limit);
    AdvancesReaches(d, e, inp, limit);
  }

  lemma {:induction false} MatchRun(d: Dec, out': seq<byte>, inp: seq<byte>, limit: nat, n: nat)
    requires d.phase.Match? && n <= d.phase.length && 1 <= d.phase.length && |d.out| + n <= limit
    requires Repeats(d.out, out', d.phase.offset, n)
    ensures n == 0 || Advances(d, d.(phase := AfterMatch(d.phase.length - n, d.phase.offset), out := out'), inp, limit)
  {
    var p := d.phase;
    var e := d.(phase := AfterMatch(p.length - n, p.offset), out := out');
    if n != 0 {
      var out1 := out'[..|out'| - 1];
      var c := d.(phase := AfterMatch(p.length - (n - 1), p.offset), out := out1);
      assert out' == out1 + [out1[|out1| - p.offset]];
      assert Step(c, inp, |c.out| < limit) == Some(e);
      MatchRun(d, out1, inp, limit, n - 1);
      if n == 1 {
        assert out1 == d.out;
        AdvancesOne(d, e, inp, limit);
      } else {
        AdvancesReaches(d, c, inp, limit);
        CopyLast(d, c, e, inp, limit);
      }
    }
  }

  lemma AlignReach(d: Dec, inp: seq<byte>, limit: nat)
    requires d.phase.Stored?
    ensures Reaches(d, d.(pos := Align(d.pos)), inp, limit)
    ensures Align(Align(d.pos)) == Align(d.pos)
  {
    if d.pos == Align(d.pos) {
      ReachesSelf(d, inp, limit);
    } else {
      ReachesOne(d, d.(pos := Align(d.pos)), inp, limit);
    }
  }
}
