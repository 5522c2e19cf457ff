/**
 Runs of the decoder: more input or more room never changes what was decided, so
 the state in which a run gets stuck depends only on the input and room in total.
 */
module DecoderRuns {
  import opened Bits
  import opened Huffman
  import opened TableSpec
  import opened BitStream
  import opened Decoder

  // ---- well-formed states

  predicate CodeOk(typ: CodeType, lens: seq<nat>)
  {
    CodesOk(typ, lens) && Acceptable(typ, lens)
  }

  predicate AllAtMost(s: seq<nat>, m: nat)
  {
    forall i :: 0 <= i < |s| ==> s[i] <= m
  }

  predicate Sizes(nlen: nat, ndist: nat)
  {
    257 <= nlen <= 286 && 1 <= ndist <= 30
  }

  predicate InBlock(d: Dec)
  {
    CodeOk(LENS, d.lit) && CodeOk(DISTS, d.dst)
  }

  predicate Ok(d: Dec)
  {
    match d.phase
    case Copy(length) => d.pos % 8 == 0
    case LenLens(nlen, ndist, ncode, cl) =>
      Sizes(nlen, ndist) && 4 <= ncode <= 19 && |cl| <= ncode && AllAtMost(cl, 7)
    case CodeLens(nlen, ndist, clens, ll) =>
      && Sizes(nlen, ndist) && |clens| == 19 && AllAtMost(clens, 7) && CodeOk(CODES, clens)
      && |ll| <= nlen + ndist && AllAtMost(ll, MAXBITS)
    case Len => InBlock(d)
    case LenExt(length, extra) => InBlock(d) && 3 <= length && length + Pow2(extra) <= 259 && extra <= 5
    case Dist(length) => InBlock(d) && 3 <= length <= 258
    case DistExt(length, offset, extra) =>
      InBlock(d) && 3 <= length <= 258 && 1 <= offset && offset + Pow2(extra) <= 0x8001 && extra <= 13
    case Match(length, offset) => InBlock(d) && 1 <= length <= 258 && 1 <= offset <= 0x8000
    case Lit(_) => InBlock(d)
    case _ => true
  }

  // ---- decoding a symbol

  lemma FrontUnique(lens: seq<nat>, s: nat, t: nat, inp: seq<byte>, pos: nat)
    requires LengthsOk(lens) && Kraft(lens) <= Pow2(MAXBITS)
    requires Front(lens, s, inp, pos) && Front(lens, t, inp, pos)
    ensures s == t
  {
    hide Pow2, Low, Shr, Rev, Shl, Kraft, CodeOf, Lo;
    if s != t {
      var n := if lens[s] < lens[t] then lens[t] else lens[s];
      var x := Peek(inp, pos, n);
      PeekSplit(inp, pos, n, lens[s]);
      PeekSplit(inp, pos, n, lens[t]);
      StartsIffInterval(lens, s, x);
      StartsIffInterval(lens, t, x);
      Disjoint(lens, s, t);
    }
  }

  lemma DecodeIs(lens: seq<nat>, s: nat, inp: seq<byte>, pos: nat)
    requires LengthsOk(lens) && Kraft(lens) <= Pow2(MAXBITS) && Front(lens, s, inp, pos)
    ensures DecodeSym(lens, inp, pos) == Sym(s)
  {
    hide Front, Pow2, Kraft;
    var t := DecodeSym(lens, inp, pos);
    assert t.Sym? && Front(lens, t.s, inp, pos);
    FrontUnique(lens, s, t.s, inp, pos);
  }

  /** An incomplete code has at most one symbol, of one bit. */
  lemma IncompleteIsShort(typ: CodeType, lens: seq<nat>, s: nat)
    requires CodeOk(typ, lens) && Kraft(lens) < Pow2(MAXBITS) && IsSym(lens, s)
    ensures lens[s] == 1
  {
    SymLenBounds(lens, s);
    BelowKraft(lens, s);
  }

  lemma FrontPrefix(lens: seq<nat>, s: nat, inp: seq<byte>, inp': seq<byte>, pos: nat)
    requires inp <= inp'
    ensures Front(lens, s, inp, pos) ==> Front(lens, s, inp', pos)
    ensures Front(lens, s, inp', pos) && pos + lens[s] <= 8 * |inp| ==> Front(lens, s, inp, pos)
  {
    if IsSym(lens, s) && pos + lens[s] <= 8 * |inp| {
      PeekPrefix(inp, inp', pos, lens[s]);
    }
  }

  lemma DecodeMore(typ: CodeType, lens: seq<nat>, inp: seq<byte>, inp': seq<byte>, pos: nat)
    requires CodeOk(typ, lens) && inp <= inp'
    requires DecodeSym(lens, inp, pos) != NeedMore
    ensures DecodeSym(lens, inp', pos) == DecodeSym(lens, inp, pos)
  {
    hide Pow2, Kraft, Front, MaxLen;
    var r := DecodeSym(lens, inp, pos);
    if r.Sym? {
      assert Front(lens, r.s, inp, pos);
      FrontPrefix(lens, r.s, inp, inp', pos);
      AtMostFull(typ, lens);
      DecodeIs(lens, r.s, inp', pos);
    } else {
      forall s: nat
        ensures !Front(lens, s, inp', pos)
      {
        if Front(lens, s, inp', pos) {
          FrontFacts(lens, s, inp', pos);
          IncompleteIsShort(typ, lens, s);
          FrontPrefix(lens, s, inp, inp', pos);
        }
      }
    }
  }

  lemma FrontFacts(lens: seq<nat>, s: nat, inp: seq<byte>, pos: nat)
    requires Front(lens, s, inp, pos)
    ensures IsSym(lens, s) && pos + lens[s] <= 8 * |inp|
  {}

  lemma AtMostFull(typ: CodeType, lens: seq<nat>)
    requires CodeOk(typ, lens)
    ensures LengthsOk(lens) && Kraft(lens) <= Pow2(MAXBITS)
  {}

  /** What DecodeSym says, it says of bits that are there. */
  lemma DecodeInInput(typ: CodeType, lens: seq<nat>, inp: seq<byte>, pos: nat)
    requires CodeOk(typ, lens)
    ensures var r := DecodeSym(lens, inp, pos);
            && (r.Sym? ==> IsSym(lens, r.s) && lens[r.s] <= MAXBITS && pos + lens[r.s] <= 8 * |inp|)
            && (r.Invalid? ==> pos + 1 <= 8 * |inp|)
  {
    var r := DecodeSym(lens, inp, pos);
    if r.Sym? {
      assert Front(lens, r.s, inp, pos);
    }
  }

  // ---- steps do not depend on what comes later

  lemma StepMore(d: Dec, inp: seq<byte>, inp': seq<byte>, room: bool, room': bool)
    requires Ok(d) && inp <= inp' && (room ==> room')
    requires Step(d, inp, room).Some?
    ensures Step(d, inp', room') == Step(d, inp, room)
  {
    hide Peek, Acceptable, DecodeSym, BlockCodesOk, Pow2, LengthFirst, LengthBits, DistFirst, DistBits;
    match d.phase
    case Header =>
      if !d.last { PeekPrefix(inp, inp', d.pos, 1); PeekPrefix(inp, inp', d.pos + 1, 2); }
    case Stored =>
      if d.pos == Align(d.pos) { PeekPrefix(inp, inp', d.pos, 16); PeekPrefix(inp, inp', d.pos + 16, 16); }
    case Table =>
      PeekPrefix(inp, inp', d.pos, 5); PeekPrefix(inp, inp', d.pos + 5, 5); PeekPrefix(inp, inp', d.pos + 10, 4);
    case LenLens(nlen, ndist, ncode, cl) =>
      if |cl| < ncode { PeekPrefix(inp, inp', d.pos, 3); }
    case CodeLens(nlen, ndist, clens, ll) =>
      if |ll| < nlen + ndist {
        CodeLensMore(d, inp, inp');
      }
    case Len => DecodeMore(LENS, d.lit, inp, inp', d.pos);
    case LenExt(length, extra) => PeekPrefix(inp, inp', d.pos, extra);
    case Dist(length) => DecodeMore(DISTS, d.dst, inp, inp', d.pos);
    case DistExt(length, offset, extra) => PeekPrefix(inp, inp', d.pos, extra);
    case _ =>
  }

  lemma CodeLensMore(d: Dec, inp: seq<byte>, inp': seq<byte>)
    requires Ok(d) && d.phase.CodeLens? && |d.phase.ll| < d.phase.nlen + d.phase.ndist && inp <= inp'
    requires StepCodeLens(d, inp).Some?
    ensures StepCodeLens(d, inp') == StepCodeLens(d, inp)
  {
    hide Peek, DecodeSym, Acceptable;
    var p := d.phase;
    DecodeMore(CODES, p.clens, inp, inp', d.pos);
    var r := DecodeSym(p.clens, inp, d.pos);
    var bits, s := if r.Sym? then p.clens[r.s] else 1, if r.Sym? then r.s else 0;
    DecodeInInput(CODES, p.clens, inp, d.pos);
    if s >= 16 {
      PeekPrefix(inp, inp', d.pos + bits, RepeatBits(s));
    }
  }

  // ---- steps keep the state well formed

  lemma CodeLengthCodeOk(cl: seq<nat>)
    requires AllAtMost(cl, 7)
    ensures AllAtMost(CodeLengthCode(cl), 7) && CodesOk(CODES, CodeLengthCode(cl))
  {}

  lemma FixedOk()
    ensures CodeOk(LENS, FixedLit()) && CodeOk(DISTS, FixedDist())
  {
    FixedKraft();
  }

  lemma {:induction false} KraftRun(pre: seq<nat>, l: nat, n: nat)
    requires 1 <= l <= MAXBITS
    ensures Kraft(pre + Repeat(l, n)) == Kraft(pre) + Shl(n, MAXBITS - l)
  {
    hide Pow2, Shl;
    if n == 0 {
      assert pre + Repeat(l, 0) == pre;
      ShlZeroOne(MAXBITS - l);
    } else {
      var s := pre + Repeat(l, n);
      assert s[..|s| - 1] == pre + Repeat(l, n - 1);
      KraftRun(pre, l, n - 1);
      ShlAdd(n - 1, 1, MAXBITS - l);
      ShlZeroOne(MAXBITS - l);
    }
  }

  lemma FixedKraft()
    ensures Kraft(FixedLit()) == Pow2(MAXBITS) && Kraft(FixedDist()) == Pow2(MAXBITS)
  {
    hide Kraft, Repeat;
    var a := Repeat(8, 144);
    var b := a + Repeat(9, 112);
    var c := b + Repeat(7, 24);
    assert [] + a == a && [] + Repeat(5, 32) == Repeat(5, 32);
    KraftRun([], 8, 144);
    KraftRun(a, 9, 112);
    KraftRun(b, 7, 24);
    KraftRun(c, 8, 8);
    KraftRun([], 5, 32);
    KraftOfNone();
    assert Shl(144, 7) == 18432 && Shl(112, 6) == 7168 && Shl(24, 8) == 6144 && Shl(8, 7) == 1024;
    assert Shl(32, 10) == 32768 == Pow2(15);
  }

  lemma KraftOfNone()
    ensures Kraft([]) == 0
  {}

  lemma LengthRanges(s: nat)
    requires 257 <= s < 286
    ensures LengthBits(s) <= 5 && 3 <= LengthFirst(s) && LengthFirst(s) + Pow2(LengthBits(s)) <= 259
  {
    var e := LengthBits(s);
    if 265 <= s && s != 285 {
      ShlMono(4 + (s - 257) % 4, 7, e);
      ShlSmall(e);
      Pow2Mono(e, 5);
      assert Pow2(5) == 32;
    }
  }

  lemma ShlSmall(e: nat)
    ensures Shl(7, e) + Pow2(e) == Shl(8, e) && Shl(8, e) == 8 * Pow2(e)
    ensures Shl(3, e) + Pow2(e) == Shl(4, e) && Shl(4, e) == 4 * Pow2(e)
  {
    ShlAdd(7, 1, e);
    ShlAdd(3, 1, e);
    ShlZeroOne(e);
    ShlShl(1, 3, e);
    ShlShl(1, 2, e);
    ShlShl(1, e, 3);
    ShlShl(1, e, 2);
    assert Shl(1, 3) == 8 && Shl(1, 2) == 4;
    assert Shl(Pow2(e), 3) == 8 * Pow2(e) && Shl(Pow2(e), 2) == 4 * Pow2(e);
  }

  lemma DistRanges(s: nat)
    requires s < 30
    ensures DistBits(s) <= 13 && 1 <= DistFirst(s) && DistFirst(s) + Pow2(DistBits(s)) <= 0x8001
  {
    hide Shl;
    var e := DistBits(s);
    if 4 <= s {
      ShlMono(2 + s % 2, 3, e);
      ShlSmall(e);
      Pow2Mono(e, 13);
      assert Pow2(13) == 8192;
    } else {
      assert Pow2(0) == 1;
    }
  }

  /** What every step keeps: form, output produced, position within the input. */
  predicate Keeps(d: Dec, e: Dec, inp: seq<byte>, room: bool)
  {
    && Ok(e) && d.out <= e.out
    && (d.pos <= 8 * |inp| ==> d.pos <= e.pos <= 8 * |inp|)
    && |e.out| <= |d.out| + (if room then 1 else 0)
  }

  lemma LenKeepsOk(d: Dec, inp: seq<byte>, room: bool)
    requires Ok(d) && d.phase.Len? && StepLen(d, inp).Some?
    ensures Keeps(d, StepLen(d, inp).value, inp, room)
  {
    hide Acceptable, DecodeSym, Pow2, LengthFirst, LengthBits, CodesOk;
    DecodeInInput(LENS, d.lit, inp, d.pos);
    var r := DecodeSym(d.lit, inp, d.pos);
    if r.Sym? && 257 <= r.s < 286 { LengthRanges(r.s); }
  }

  lemma DistKeepsOk(d: Dec, inp: seq<byte>, room: bool)
    requires Ok(d) && d.phase.Dist? && StepDist(d, inp).Some?
    ensures Keeps(d, StepDist(d, inp).value, inp, room)
  {
    hide Acceptable, DecodeSym, Pow2, DistFirst, DistBits, CodesOk;
    DecodeInInput(DISTS, d.dst, inp, d.pos);
    var r := DecodeSym(d.dst, inp, d.pos);
    if r.Sym? && r.s < 30 { DistRanges(r.s); }
  }

  lemma DynamicKeepsOk(d: Dec, inp: seq<byte>, room: bool)
    requires Ok(d) && (d.phase.Table? || d.phase.LenLens? || d.phase.CodeLens?) && Step(d, inp, room).Some?
    ensures Keeps(d, Step(d, inp, room).value, inp, room)
  {
    hide Peek, Acceptable, DecodeSym, Pow2, CodeLengthCode, CodesOk, BlockCodesOk;
    SmallPowers();
    match d.phase
    case Table => PeekBound(inp, d.pos, 5); PeekBound(inp, d.pos + 5, 5); PeekBound(inp, d.pos + 10, 4);
    case LenLens(nlen, ndist, ncode, cl) =>
      if |cl| < ncode { PeekBound(inp, d.pos, 3); } else { CodeLengthCodeOk(cl); }
    case CodeLens(nlen, ndist, clens, ll) => CodeLensKeepsOk(d, inp);
  }

  lemma StepKeepsOk(d: Dec, inp: seq<byte>, room: bool)
    requires Ok(d) && Step(d, inp, room).Some?
    ensures Keeps(d, Step(d, inp, room).value, inp, room)
  {
    hide Peek, CodeOk, Pow2, StepLen, StepDist, StepCodeLens, StepLenLens, StepTable;
    match d.phase
    case Header => FixedOk();
    case Table => DynamicKeepsOk(d, inp, room);
    case LenLens(nlen, ndist, ncode, cl) => DynamicKeepsOk(d, inp, room);
    case CodeLens(nlen, ndist, clens, ll) => DynamicKeepsOk(d, inp, room);
    case Len => LenKeepsOk(d, inp, room);
    case LenExt(length, extra) => PeekBound(inp, d.pos, extra);
    case Dist(length) => DistKeepsOk(d, inp, room);
    case DistExt(length, offset, extra) => PeekBound(inp, d.pos, extra);
    case _ =>
  }

  lemma SmallPowers()
    ensures Pow2(1) == 2 && Pow2(2) == 4 && Pow2(3) == 8 && Pow2(4) == 16 && Pow2(5) == 32 && Pow2(7) == 128
  {}

  lemma CodeLensKeepsOk(d: Dec, inp: seq<byte>)
    requires Ok(d) && d.phase.CodeLens? && StepCodeLens(d, inp).Some?
    ensures Ok(StepCodeLens(d, inp).value)
    ensures StepCodeLens(d, inp).value.out == d.out
    ensures d.pos <= 8 * |inp| ==> d.pos <= StepCodeLens(d, inp).value.pos <= 8 * |inp|
  {
    hide Peek, DecodeSym, Acceptable, TableSize, RootBits, TooBig;
    var p := d.phase;
    if |p.ll| < p.nlen + p.ndist {
      DecodeInInput(CODES, p.clens, inp, d.pos);
    } else if BlockCodesOk(p.ll, p.nlen) {
      assert |p.ll[..p.nlen]| <= 288 && |p.ll[p.nlen..]| <= 32;
    }
  }

  lemma StepsOnHeader(d: Dec, inp: seq<byte>, room: bool)
    requires d.phase.Header?
    ensures Step(d, inp, room) == StepHeader(d, inp)
  {}

  // ---- runs

  /** n steps lead from d to e when output may grow to limit bytes. */
  ghost predicate Steps(d: Dec, e: Dec, inp: seq<byte>, limit: nat, n: nat)
    decreases n
  {
    if n == 0 then d == e
    else
      var s := Step(d, inp, |d.out| < limit);
      s.Some? && Steps(s.value, e, inp, limit, n - 1)
  }

  ghost predicate Reaches(d: Dec, e: Dec, inp: seq<byte>, limit: nat)
  {
    exists n: nat :: Steps(d, e, inp, limit, n)
  }

  ghost predicate Stuck(d: Dec, inp: seq<byte>, limit: nat)
  {
    Step(d, inp, |d.out| < limit) == None
  }

  lemma ReachesSelf(d: Dec, inp: seq<byte>, limit: nat)
    ensures Reaches(d, d, inp, limit)
  {
    assert Steps(d, d, inp, limit, 0);
  }

  lemma {:induction false} StepsTrans(a: Dec, b: Dec, c: Dec, inp: seq<byte>, limit: nat, m: nat, n: nat)
    requires Steps(a, b, inp, limit, m) && Steps(b, c, inp, limit, n)
    ensures Steps(a, c, inp, limit, m + n)
    decreases m
  {
    hide Step;
    if m != 0 {
      StepsTrans(Step(a, inp, |a.out| < limit).value, b, c, inp, limit, m - 1, n);
    }
  }

  lemma ReachesTrans(a: Dec, b: Dec, c: Dec, inp: seq<byte>, limit: nat)
    requires Reaches(a, b, inp, limit) && Reaches(b, c, inp, limit)
    ensures Reaches(a, c, inp, limit)
  {
    hide Step, Steps;
    var m: nat :| Steps(a, b, inp, limit, m);
    var n: nat :| Steps(b, c, inp, limit, n);
    StepsTrans(a, b, c, inp, limit, m, n);
  }

  lemma ReachesOne(a: Dec, b: Dec, inp: seq<byte>, limit: nat)
    requires Step(a, inp, |a.out| < limit) == Some(b)
    ensures Reaches(a, b, inp, limit)
  {
    hide Step;
    assert Steps(b, b, inp, limit, 0);
    assert Steps(a, b, inp, limit, 1);
  }

  lemma {:induction false} StepsKeepOk(d: Dec, e: Dec, inp: seq<byte>, limit: nat, n: nat)
    requires Ok(d) && Steps(d, e, inp, limit, n)
    ensures Ok(e) && d.out <= e.out
    ensures |d.out| <= limit ==> |e.out| <= limit
    ensures d.pos <= 8 * |inp| ==> d.pos <= e.pos <= 8 * |inp|
    decreases n
  {
    hide Step, Ok;
    if n != 0 {
      StepKeepsOk(d, inp, |d.out| < limit);
      StepsKeepOk(Step(d, inp, |d.out| < limit).value, e, inp, limit, n - 1);
    }
  }

  lemma ReachesKeepsOk(d: Dec, e: Dec, inp: seq<byte>, limit: nat)
    requires Ok(d) && Reaches(d, e, inp, limit)
    ensures Ok(e) && d.out <= e.out
    ensures |d.out| <= limit ==> |e.out| <= limit
    ensures d.pos <= 8 * |inp| ==> d.pos <= e.pos <= 8 * |inp|
  {
    hide Step, Steps, Ok;
    var n: nat :| Steps(d, e, inp, limit, n);
    StepsKeepOk(d, e, inp, limit, n);
  }

  lemma {:induction false} StepsMore(d: Dec, e: Dec, inp: seq<byte>, limit: nat, inp': seq<byte>, limit': nat, n: nat)
    requires Ok(d) && inp <= inp' && limit <= limit' && Steps(d, e, inp, limit, n)
    ensures Steps(d, e, inp', limit', n)
    decreases n
  {
    hide Step, Ok;
    if n != 0 {
      StepMore(d, inp, inp', |d.out| < limit, |d.out| < limit');
      StepKeepsOk(d, inp, |d.out| < limit);
      StepsMore(Step(d, inp, |d.out| < limit).value, e, inp, limit, inp', limit', n - 1);
    }
  }

  /** A run stays a run when more input or room is granted. */
  lemma ReachesMore(d: Dec, e: Dec, inp: seq<byte>, limit: nat, inp': seq<byte>, limit': nat)
    requires Ok(d) && inp <= inp' && limit <= limit' && Reaches(d, e, inp, limit)
    ensures Reaches(d, e, inp', limit')
  {
    hide Step, Steps, Ok;
    var n: nat :| Steps(d, e, inp, limit, n);
    StepsMore(d, e, inp, limit, inp', limit', n);
  }

  lemma {:induction false} StepsEndUnique(d: Dec, a: Dec, b: Dec, inp: seq<byte>, limit: nat, m: nat, n: nat)
    requires Steps(d, a, inp, limit, m) && Stuck(a, inp, limit)
    requires Steps(d, b, inp, limit, n) && Stuck(b, inp, limit)
    ensures a == b
    decreases m
  {
    hide Step;
    if m != 0 && n != 0 {
      StepsEndUnique(Step(d, inp, |d.out| < limit).value, a, b, inp, limit, m - 1, n - 1);
    }
  }

  /** There is only one state to get stuck in. */
  lemma EndUnique(d: Dec, a: Dec, b: Dec, inp: seq<byte>, limit: nat)
    requires Reaches(d, a, inp, limit) && Stuck(a, inp, limit)
    requires Reaches(d, b, inp, limit) && Stuck(b, inp, limit)
    ensures a == b
  {
    hide Step, Steps, Stuck;
    var m: nat :| Steps(d, a, inp, limit, m);
    var n: nat :| Steps(d, b, inp, limit, n);
    StepsEndUnique(d, a, b, inp, limit, m, n);
  }
}
