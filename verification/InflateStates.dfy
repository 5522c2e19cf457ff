/**
 The states of inflate on the registers alone: what each reads from the input and
 which decoder step that is.  d is the decoder state on entry, e the one on exit.
 */
module InflateStates {
  import opened Bits
  import opened Huffman
  import opened TableSpec
  import opened BitStream
  import opened Decoder
  import opened DecoderRuns
  import opened BitBuffer
  import opened Fetch
  import opened InflateSteps
  import opened Window

  /** The registers stand for d; fewer than eight bits are held unless they do not make the next step. */
  ghost predicate At(d: Dec, before: seq<byte>, input: seq<byte>, r: Regs)
  {
    && Ok(d) && Buffered(before, input, r) && d.pos == PosOf(before, r)
    && (r.bits < 8 || Step(d, before + input[..r.next], true) == None)
  }

  /** One pass through a state: progress, or stuck for want of input or room. */
  ghost predicate Moved(go: bool, d: Dec, e: Dec, all: seq<byte>, limit: nat)
  {
    if go then Advances(d, e, all, limit)
    else Reaches(d, e, all, limit) && Stuck(e, all, limit)
  }

  lemma AtLimits(d: Dec, before: seq<byte>, input: seq<byte>, r: Regs)
    requires At(d, before, input, r)
    ensures r.next <= |input| && r.bits <= 32 && d.pos + r.bits == 8 * |before + input[..r.next]|
    ensures d.pos <= 8 * |before + input| && before + input[..r.next] <= before + input
    ensures 8 <= r.bits ==> Step(d, before + input[..r.next], true) == None
    ensures r.next == |input| ==> before + input[..r.next] == before + input
  {
    hide Ok, Held, Step;
    TakenPrefix(before, input, r.next);
  }

  /** After one step with fewer than eight bits left over. */
  lemma Stepped(d: Dec, e: Dec, before: seq<byte>, input: seq<byte>, r': Regs, limit: nat)
    requires Ok(d) && Step(d, before + input, |d.out| < limit) == Some(e)
    requires Buffered(before, input, r') && e.pos == PosOf(before, r')
    requires r'.bits < 8 || e.phase.Bad? || e.phase.Finished?
    ensures At(e, before, input, r') && Moved(true, d, e, before + input, limit)
  {
    hide Ok, Buffered;
    StepKeepsOk(d, before + input, |d.out| < limit);
    AdvancesOne(d, e, before + input, limit);
    BufferedFits(before, input, r');
  }

  /** Out of input: all of it is held and is not enough. */
  lemma OutOfInput(d: Dec, before: seq<byte>, input: seq<byte>, r': Regs, limit: nat)
    requires Ok(d) && Buffered(before, input, r') && d.pos == PosOf(before, r') && r'.next == |input|
    requires Step(d, before + input, true) == None
    ensures At(d, before, input, r') && Moved(false, d, d, before + input, limit)
  {
    hide Ok, Held;
    TakenPrefix(before, input, r'.next);
    ReachesSelf(d, before + input, limit);
    if Step(d, before + input, |d.out| < limit).Some? {
      StepMore(d, before + input, before + input, |d.out| < limit, true);
    }
  }

  // ---- block header

  /** After the last block the rest of the byte is skipped. */
  lemma LastState(input: seq<byte>, r: Regs, before: seq<byte>, d: Dec, limit: nat) returns (e: Dec)
    requires At(d, before, input, r) && d.phase.Header? && d.last
    ensures At(e, before, input, ByteBits(r)) && Moved(true, d, e, before + input, limit) && ByteBits(r).put == r.put
    ensures e == d.(phase := Finished, pos := e.pos)
  {
    hide Ok, Buffered, Held, Align, ByteBits, Moved, At;
    BuffersOf(d, before, input, r);
    StepsOnHeader(d, before + input, |d.out| < limit);
    Aligned(before, input, r);
    e := d.(phase := Finished, pos := Align(d.pos));
    Stepped(d, e, before, input, ByteBits(r), limit);
  }

  method TypeState(input: seq<byte>, r: Regs, ghost before: seq<byte>, ghost d: Dec, ghost limit: nat)
    returns (go: bool, final: bool, kind: nat, r': Regs, ghost e: Dec)
    requires At(d, before, input, r) && d.phase.Header? && !d.last
    ensures At(e, before, input, r') && Moved(go, d, e, before + input, limit) && r'.put == r.put
    ensures go ==> e == BlockOf(d.(last := final, pos := e.pos), kind)
    ensures !go ==> e == d
  {
    hide Ok, Buffered, Held, Align, ByteBits, Peek, Low, Shr, BlockOf, Moved, At;
    ghost var all := before + input;
    AtLimits(d, before, input, r);
    BuffersOf(d, before, input, r);
    StepsOnHeader(d, all, |d.out| < limit);
    StepsOnHeader(d, all, true);
    StepsOnHeader(d, before + input[..r.next], true);
    go, final, kind, r' := HeaderBits(input, r, before, all);
    if go {
      e := BlockOf(d.(last := final, pos := d.pos + 3), kind);
      BlockOfPos(d.(last := final, pos := d.pos + 3), kind);
      Stepped(d, e, before, input, r', limit);
    } else {
      e := d;
      OutOfInput(d, before, input, r', limit);
    }
  }

  lemma BlockOfPos(d: Dec, kind: nat)
    ensures BlockOf(d, kind).pos == d.pos
  {}

  lemma BuffersOf(d: Dec, before: seq<byte>, input: seq<byte>, r: Regs)
    requires At(d, before, input, r)
    ensures Ok(d) && Buffered(before, input, r) && d.pos == PosOf(before, r)
  {}

  // ---- stored blocks

  lemma StepsOnStored(d: Dec, inp: seq<byte>, room: bool)
    requires d.phase.Stored?
    ensures Step(d, inp, room) == StepStored(d, inp)
  {}

  /** Lengths of a stored block: the second is the complement of the first. */
  method StoredState(input: seq<byte>, r: Regs, ghost before: seq<byte>, ghost d: Dec, ghost limit: nat)
    returns (go: bool, bad: bool, length: nat, r': Regs, ghost e: Dec)
    requires At(d, before, input, r) && d.phase.Stored?
    ensures At(e, before, input, r') && Moved(go, d, e, before + input, limit) && r'.put == r.put
    ensures e == d.(phase := if !go then Stored else if bad then Bad else Copy(length), pos := e.pos)
    ensures go && !bad ==> r'.bits == 0
  {
    hide Ok, Buffered, Held, ByteBits, Peek, Low, Shr, Moved, At, Align, Reaches, Advances;
    ghost var all := before + input;
    AtLimits(d, before, input, r);
    BuffersOf(d, before, input, r);
    StepsOnStored(d, before + input[..r.next], true);
    AlignReach(d, all, limit);
    Aligned(before, input, r);
    ghost var d1 := d.(pos := Align(d.pos));
    StepsOnStored(d1, all, true);
    StepsOnStored(d1, all, |d1.out| < limit);
    ReachesKeepsOk(d, d1, all, limit);
    bad, length := false, 0;
    r' := ByteBits(r);
    go, r' := NeedBits(input, r', 32, before);
    BufferedFits(before, input, r');
    if !go {
      e := d1;
      OutOfInput(d1, before, input, r', limit);
      AlsoReaches(false, d, d1, e, all, limit);
      return;
    }
    BitsAre(before, input, r', 16);
    Dropped(before, input, r', 16);
    BitsAre(before, input, DropBits(r', 16), 16);
    HeldHigh(before, input, r');
    bad := Low(r'.hold, 16) != 0xffff - Shr(r'.hold, 16);
    if bad {
      e := d1.(phase := Bad);
      Stepped(d1, e, before, input, r', limit);
    } else {
      length := Low(r'.hold, 16);
      e := d1.(phase := Copy(length), pos := d1.pos + 32);
      Cleared(before, input, r');
      r' := Regs(r'.next, 0, 0, r'.put);
      Stepped(d1, e, before, input, r', limit);
    }
    AlsoReaches(true, d, d1, e, all, limit);
  }

  lemma AlsoReaches(go: bool, d: Dec, d1: Dec, e: Dec, all: seq<byte>, limit: nat)
    requires Reaches(d, d1, all, limit) && Moved(go, d1, e, all, limit)
    ensures Moved(go, d, e, all, limit)
  {
    hide Step, Reaches, Advances, Stuck;
    if go {
      ReachesAdvances(d, d1, e, all, limit);
    } else {
      ReachesTrans(d, d1, e, all, limit);
    }
  }

  /** With 32 bits held, hold >> 16 is the second half. */
  lemma HeldHigh(before: seq<byte>, input: seq<byte>, r: Regs)
    requires Buffered(before, input, r) && r.bits == 32
    ensures Low(Shr(r.hold, 16), 16) == Shr(r.hold, 16)
  {
    hide Low, Shr, Pow2;
    HeldBound(before + input[..r.next], r.hold, r.bits);
    ShrBound(r.hold, 16, 16);
    LowFits(Shr(r.hold, 16), 16);
  }

  /** INITBITS drops all that is held. */
  lemma Cleared(before: seq<byte>, input: seq<byte>, r: Regs)
    requires Buffered(before, input, r)
    ensures Buffered(before, input, Regs(r.next, 0, 0, r.put))
    ensures PosOf(before, Regs(r.next, 0, 0, r.put)) == PosOf(before, r) + r.bits
  {}

  // ---- dynamic block headers

  lemma StepsOnTable(d: Dec, inp: seq<byte>, room: bool)
    requires d.phase.Table?
    ensures Step(d, inp, room) == StepTable(d, inp)
  {}

  method TableState(input: seq<byte>, r: Regs, ghost before: seq<byte>, ghost d: Dec, ghost limit: nat)
    returns (go: bool, bad: bool, nlen: nat, ndist: nat, ncode: nat, r': Regs, ghost e: Dec)
    requires At(d, before, input, r) && d.phase.Table?
    ensures At(e, before, input, r') && Moved(go, d, e, before + input, limit) && r'.put == r.put
    ensures go ==> e == d.(phase := if bad then Bad else LenLens(nlen, ndist, ncode, []), pos := e.pos)
    ensures !go ==> e == d
  {
    hide Ok, Buffered, Held, Peek, Low, Shr, Moved, At;
    ghost var all := before + input;
    AtLimits(d, before, input, r);
    BuffersOf(d, before, input, r);
    StepsOnTable(d, before + input[..r.next], true);
    StepsOnTable(d, all, true);
    StepsOnTable(d, all, |d.out| < limit);
    bad, nlen, ndist, ncode, e := false, 0, 0, 0, d;
    go, r' := NeedBits(input, r, 14, before);
    BufferedFits(before, input, r');
    if !go {
      OutOfInput(d, before, input, r', limit);
      return;
    }
    BitsAre(before, input, r', 5);
    nlen := Low(r'.hold, 5) + 257;
    Dropped(before, input, r', 5);
    r' := DropBits(r', 5);
    BitsAre(before, input, r', 5);
    ndist := Low(r'.hold, 5) + 1;
    Dropped(before, input, r', 5);
    r' := DropBits(r', 5);
    BitsAre(before, input, r', 4);
    ncode := Low(r'.hold, 4) + 4;
    Dropped(before, input, r', 4);
    r' := DropBits(r', 4);
    bad := nlen > 286 || ndist > 30;
    e := d.(phase := if bad then Bad else LenLens(nlen, ndist, ncode, []), pos := d.pos + 14);
    Stepped(d, e, before, input, r', limit);
  }

  lemma StepsOnLenLens(d: Dec, inp: seq<byte>, room: bool)
    requires d.phase.LenLens?
    ensures Step(d, inp, room) == StepLenLens(d, inp)
  {}

  /** One three-bit length of the code length code. */
  method LenLensState(input: seq<byte>, r: Regs, ghost before: seq<byte>, ghost d: Dec, ghost limit: nat)
    returns (go: bool, v: nat, r': Regs, ghost e: Dec)
    requires At(d, before, input, r) && d.phase.LenLens? && |d.phase.cl| < d.phase.ncode
    ensures At(e, before, input, r') && Moved(go, d, e, before + input, limit) && r'.put == r.put
    ensures go ==> v <= 7 && e == d.(phase := d.phase.(cl := d.phase.cl + [v]), pos := e.pos)
    ensures !go ==> e == d
  {
    hide Ok, Buffered, Held, Peek, Moved, At, CodeLengthCode, Acceptable;
    ghost var all := before + input;
    AtLimits(d, before, input, r);
    BuffersOf(d, before, input, r);
    StepsOnLenLens(d, before + input[..r.next], true);
    StepsOnLenLens(d, all, true);
    StepsOnLenLens(d, all, |d.out| < limit);
    go, v, r' := TakeBits(input, r, 3, before);
    if !go {
      e := d;
      OutOfInput(d, before, input, r', limit);
      return;
    }
    PeekBound(all, d.pos, 3);
    SmallPowers();
    e := d.(phase := d.phase.(cl := d.phase.cl + [v]), pos := d.pos + 3);
    Stepped(d, e, before, input, r', limit);
  }

  /** One symbol of the code lengths: a length, or a repeat count. */
  method CodeLensState(codes: array<Code>, at: nat, root: nat, input: seq<byte>, r: Regs, have: nat, prev: nat, total: nat,
                       ghost before: seq<byte>, ghost d: Dec, ghost limit: nat)
    returns (go: bool, bad: bool, v: nat, copy: nat, r': Regs, ghost e: Dec)
    requires At(d, before, input, r) && d.phase.CodeLens? && TableFor(codes[..], at, root, CODES, d.phase.clens)
    requires have == |d.phase.ll| < total == d.phase.nlen + d.phase.ndist
    requires have > 0 ==> prev == d.phase.ll[have - 1]
    ensures At(e, before, input, r') && Moved(go, d, e, before + input, limit) && r'.put == r.put
    ensures go && !bad ==> e == d.(phase := d.phase.(ll := d.phase.ll + Repeat(v, copy)), pos := e.pos) && have + copy <= total
    ensures go && !bad ==> 1 <= copy
    ensures go && bad ==> e == d.(phase := Bad, pos := e.pos)
    ensures !go ==> e == d
  {
    hide Ok, Buffered, Held, Peek, Low, Shr, Moved, At, TableFor, DecodeSym, Front;
    ghost var all, clens := before + input, d.phase.clens;
    AtLimits(d, before, input, r);
    BuffersOf(d, before, input, r);
    OkCodeLens(d);
    bad, v, copy, e := false, 0, 0, d;
    var leaf;
    go, leaf, r' := FetchCode(codes, at, root, input, r, before, CODES, clens);
    ghost var sym := DecodeSym(clens, all, d.pos);
    if !go {
      CodeLensStuck(d, all);
      TakenPrefix(before, input, r'.next);
      OutOfInput(d, before, input, r', limit);
      return;
    }
    CodeLensIs(d, all, leaf, true);
    CodeLensIs(d, all, leaf, |d.out| < limit);
    CodeLensLean(d, before, input, r, r', leaf);
    if leaf.val < 16 {
      Dropped(before, input, r', leaf.bits);
      r' := DropBits(r', leaf.bits);
      v, copy := leaf.val, 1;
      assert Repeat(v, copy) == [leaf.val];
      e := d.(phase := d.phase.(ll := d.phase.ll + Repeat(v, copy)), pos := d.pos + leaf.bits);
      Stepped(d, e, before, input, r', limit);
      return;
    }
    go, bad, v, copy, r', e := RepeatState(input, r', leaf.bits, leaf.val, have, prev, total, before, d, limit);
  }

  /** A repeat: its extra bits, and the length that is repeated. */
  method RepeatState(input: seq<byte>, r: Regs, bits: nat, s: nat, have: nat, prev: nat, total: nat,
                     ghost before: seq<byte>, ghost d: Dec, ghost limit: nat)
    returns (go: bool, bad: bool, v: nat, copy: nat, r': Regs, ghost e: Dec)
    requires Ok(d) && Buffered(before, input, r) && d.pos == PosOf(before, r) && d.phase.CodeLens?
    requires 16 <= s < 19 && bits <= 7 && d.pos + bits <= 8 * |before + input| && r.bits < bits + RepeatBits(s) + 8
    requires Step(d, before + input, true) == AddLengths(d, before + input, bits, s)
    requires Step(d, before + input, |d.out| < limit) == AddLengths(d, before + input, bits, s)
    requires have == |d.phase.ll| < total == d.phase.nlen + d.phase.ndist
    requires have > 0 ==> prev == d.phase.ll[have - 1]
    ensures At(e, before, input, r') && Moved(go, d, e, before + input, limit) && r'.put == r.put
    ensures go && !bad ==> e == d.(phase := d.phase.(ll := d.phase.ll + Repeat(v, copy)), pos := e.pos) && have + copy <= total
    ensures go && !bad ==> 1 <= copy
    ensures go && bad ==> e == d.(phase := Bad, pos := e.pos)
    ensures !go ==> e == d
  {
    hide Ok, Buffered, Held, Peek, Low, Shr, Moved, At, Step, Repeat;
    bad, v, copy, e := false, 0, 0, d;
    var n := RepeatBits(s);
    go, r' := NeedBits(input, r, bits + n, before);
    BufferedFits(before, input, r');
    if !go {
      OutOfInput(d, before, input, r', limit);
      return;
    }
    Dropped(before, input, r', bits);
    r' := DropBits(r', bits);
    if s == 16 && have == 0 {
      bad := true;
      e := d.(phase := Bad, pos := d.pos + bits);
      Stepped(d, e, before, input, r', limit);
      return;
    }
    v := if s == 16 then prev else 0;
    BitsAre(before, input, r', n);
    copy := RepeatLeast(s) + Low(r'.hold, n);
    Dropped(before, input, r', n);
    r' := DropBits(r', n);
    bad := have + copy > total;
    e := d.(phase := if bad then Bad else d.phase.(ll := d.phase.ll + Repeat(v, copy)), pos := d.pos + bits + n);
    Stepped(d, e, before, input, r', limit);
  }

  lemma CodeLensStuck(d: Dec, all: seq<byte>)
    requires d.phase.CodeLens? && |d.phase.ll| < d.phase.nlen + d.phase.ndist
    requires DecodeSym(d.phase.clens, all, d.pos) == NeedMore
    ensures Step(d, all, true) == None
  {}

  /** Given the entry for the next symbol, the step is adding the lengths it stands for. */
  lemma CodeLensIs(d: Dec, all: seq<byte>, leaf: Code, room: bool)
    requires Ok(d) && d.phase.CodeLens? && |d.phase.ll| < d.phase.nlen + d.phase.ndist
    requires Decoded(CODES, d.phase.clens, leaf, DecodeSym(d.phase.clens, all, d.pos))
    ensures leaf.val < 19 && leaf.bits <= 7 && d.pos + leaf.bits <= 8 * |all|
    ensures Step(d, all, room) == AddLengths(d, all, leaf.bits, leaf.val)
  {
    hide DecodeSym, Acceptable, Peek;
    DecodeInInput(CODES, d.phase.clens, all, d.pos);
  }

  /** No byte was pulled that the symbol and its repeat count did not need. */
  lemma CodeLensLean(d: Dec, before: seq<byte>, input: seq<byte>, r: Regs, r': Regs, leaf: Code)
    requires At(d, before, input, r) && d.phase.CodeLens? && |d.phase.ll| < d.phase.nlen + d.phase.ndist
    requires Decoded(CODES, d.phase.clens, leaf, DecodeSym(d.phase.clens, before + input, d.pos))
    requires Pulled(d.phase.clens, before, input, r, r')
    requires (r.bits < 8 || DecodeSym(d.phase.clens, before + input[..r.next], d.pos) == NeedMore) ==> r'.bits < leaf.bits + 8
    ensures leaf.val < 16 ==> r'.bits < leaf.bits + 8
    ensures leaf.val >= 16 ==> r'.bits < leaf.bits + RepeatBits(leaf.val) + 8
  {
    hide DecodeSym, CodeOk, Peek, Held, Decoded;
    var c, all, clens := before + input[..r.next], before + input, d.phase.clens;
    AtLimits(d, before, input, r);
    OkCodeLens(d);
    if 8 <= r.bits && DecodeSym(clens, c, d.pos) != NeedMore {
      DecodeMore(CODES, clens, c, all, d.pos);
      CodeLensIs(d, c, leaf, true);
      if r' != r {
        TakenPrefix(before, input, r'.next - 1);
        ShorterPrefix(before, input, r.next, r'.next - 1);
        DecodeMore(CODES, clens, c, before + input[..r'.next - 1], d.pos);
      }
    }
  }

  lemma ShorterPrefix(before: seq<byte>, input: seq<byte>, m: nat, n: nat)
    requires m <= n <= |input|
    ensures before + input[..m] <= before + input[..n]
  {
    assert input[..n] == input[..m] + input[m..n];
    assert before + input[..n] == (before + input[..m]) + input[m..n];
  }

  lemma OkCodeLens(d: Dec)
    requires Ok(d) && d.phase.CodeLens?
    ensures |d.phase.clens| == 19 && CodeOk(CODES, d.phase.clens) && AllAtMost(d.phase.clens, 7)
  {}

  // ---- lengths and distances

  lemma OkInBlock(d: Dec)
    requires Ok(d) && (d.phase.Len? || d.phase.Dist?)
    ensures InBlock(d)
  {}

  /** A literal, the end of the block, or a length. */
  method LenState(codes: array<Code>, at: nat, root: nat, input: seq<byte>, r: Regs,
                  ghost before: seq<byte>, ghost d: Dec, ghost limit: nat)
    returns (go: bool, leaf: Code, r': Regs, ghost e: Dec)
    requires At(d, before, input, r) && d.phase.Len? && TableFor(codes[..], at, root, LENS, d.lit)
    ensures At(e, before, input, r') && Moved(go, d, e, before + input, limit) && r'.put == r.put
    ensures go ==> e == d.(phase := AfterLen(leaf), pos := e.pos) && e.pos > d.pos
    ensures go && leaf.op == 0 ==> leaf.val < 256
    ensures !go ==> e == d
  {
    hide Ok, Buffered, Held, Peek, Low, Shr, Moved, At, TableFor, DecodeSym, Decoded, AfterLen;
    ghost var all := before + input;
    AtLimits(d, before, input, r);
    BuffersOf(d, before, input, r);
    LenNone(d, before + input[..r.next]);
    e := d;
    go, leaf, r' := FetchCode(codes, at, root, input, r, before, LENS, d.lit);
    if !go {
      LenNone(d, all);
      OutOfInput(d, before, input, r', limit);
      return;
    }
    LenStep(d, all, |d.out| < limit, leaf);
    LeafTakesBits(LENS, d.lit, leaf, DecodeSym(d.lit, all, d.pos));
    Dropped(before, input, r', leaf.bits);
    r' := DropBits(r', leaf.bits);
    e := d.(phase := AfterLen(leaf), pos := d.pos + leaf.bits);
    Stepped(d, e, before, input, r', limit);
  }

  lemma LenNone(d: Dec, inp: seq<byte>)
    requires d.phase.Len?
    ensures Step(d, inp, true) == None <==> DecodeSym(d.lit, inp, d.pos) == NeedMore
  {
    hide DecodeSym;
  }

  lemma DistNone(d: Dec, inp: seq<byte>)
    requires d.phase.Dist?
    ensures Step(d, inp, true) == None <==> DecodeSym(d.dst, inp, d.pos) == NeedMore
  {
    hide DecodeSym;
  }

  lemma LeafTakesBits(typ: CodeType, lens: seq<nat>, leaf: Code, sym: Symbol)
    requires Decoded(typ, lens, leaf, sym)
    ensures 1 <= leaf.bits <= MAXBITS
    ensures typ == LENS && leaf.op == 0 ==> leaf.val < 256
  {}

  method DistState(codes: array<Code>, at: nat, root: nat, input: seq<byte>, r: Regs,
                   ghost before: seq<byte>, ghost d: Dec, ghost limit: nat)
    returns (go: bool, leaf: Code, r': Regs, ghost e: Dec)
    requires At(d, before, input, r) && d.phase.Dist? && TableFor(codes[..], at, root, DISTS, d.dst)
    ensures At(e, before, input, r') && Moved(go, d, e, before + input, limit) && r'.put == r.put
    ensures go ==> e == d.(phase := AfterDist(d.phase.length, leaf), pos := e.pos) && e.pos > d.pos
    ensures !go ==> e == d
  {
    hide Ok, Buffered, Held, Peek, Low, Shr, Moved, At, TableFor, DecodeSym, Decoded, AfterDist;
    ghost var all := before + input;
    AtLimits(d, before, input, r);
    BuffersOf(d, before, input, r);
    DistNone(d, before + input[..r.next]);
    e := d;
    go, leaf, r' := FetchCode(codes, at, root, input, r, before, DISTS, d.dst);
    if !go {
      DistNone(d, all);
      OutOfInput(d, before, input, r', limit);
      return;
    }
    DistStep(d, all, |d.out| < limit, leaf);
    LeafTakesBits(DISTS, d.dst, leaf, DecodeSym(d.dst, all, d.pos));
    Dropped(before, input, r', leaf.bits);
    r' := DropBits(r', leaf.bits);
    e := d.(phase := AfterDist(d.phase.length, leaf), pos := d.pos + leaf.bits);
    Stepped(d, e, before, input, r', limit);
  }

  lemma ExtraBits(d: Dec)
    requires Ok(d) && (d.phase.LenExt? || d.phase.DistExt?)
    ensures d.phase.extra <= 13
  {}

  lemma StepsOnExt(d: Dec, inp: seq<byte>, room: bool)
    requires d.phase.LenExt? || d.phase.DistExt?
    ensures d.phase.LenExt? ==> Step(d, inp, room) == StepLenExt(d, inp)
    ensures d.phase.DistExt? ==> Step(d, inp, room) == StepDistExt(d, inp)
  {}

  /** The extra bits of a length or a distance. */
  method ExtraState(input: seq<byte>, r: Regs, extra: nat, ghost before: seq<byte>, ghost d: Dec, ghost limit: nat)
    returns (go: bool, v: nat, r': Regs, ghost e: Dec)
    requires At(d, before, input, r) && (d.phase.LenExt? || d.phase.DistExt?) && extra == d.phase.extra
    ensures At(e, before, input, r') && Moved(go, d, e, before + input, limit) && r'.put == r.put
    ensures go && d.phase.LenExt? ==> e == d.(phase := Dist(d.phase.length + v), pos := e.pos)
    ensures go && d.phase.DistExt? ==> e == d.(phase := Match(d.phase.length, d.phase.offset + v), pos := e.pos)
    ensures !go ==> e == d
  {
    hide Peek, Ok, Buffered, Held, Moved, At;
    ghost var all := before + input;
    AtLimits(d, before, input, r);
    BuffersOf(d, before, input, r);
    ExtraBits(d);
    StepsOnExt(d, before + input[..r.next], true);
    StepsOnExt(d, all, true);
    StepsOnExt(d, all, |d.out| < limit);
    v, r', go := 0, r, true;
    BufferedFits(before, input, r);
    if extra != 0 {
      go, v, r' := TakeBits(input, r, extra, before);
    } else {
      PeekNone(all, d.pos);
    }
    if !go {
      e := d;
      OutOfInput(d, before, input, r', limit);
      return;
    }
    e := if d.phase.LenExt? then d.(phase := Dist(d.phase.length + v), pos := d.pos + extra)
         else d.(phase := Match(d.phase.length, d.phase.offset + v), pos := d.pos + extra);
    Stepped(d, e, before, input, r', limit);
  }

  /** States that only move on, with the registers as they are. */
  lemma MoveOn(d: Dec, e: Dec, before: seq<byte>, input: seq<byte>, r: Regs, limit: nat)
    requires At(d, before, input, r) && Step(d, before + input, |d.out| < limit) == Some(e) && e.pos == d.pos
    requires Step(d, before + input[..r.next], true) != None
    ensures At(e, before, input, r) && Moved(true, d, e, before + input, limit)
  {
    hide Ok, Held, Step, Advances;
    Stepped(d, e, before, input, r, limit);
  }

  /** Stuck for room: the output has no space for the next byte. */
  lemma OutOfRoom(d: Dec, before: seq<byte>, input: seq<byte>, r: Regs, limit: nat)
    requires At(d, before, input, r) && Step(d, before + input, |d.out| < limit) == None
    ensures Moved(false, d, d, before + input, limit)
  {
    hide Ok, Held, Step;
    ReachesSelf(d, before + input, limit);
  }

  // ---- output

  lemma StepsOnCopy(d: Dec, inp: seq<byte>, room: bool)
    requires d.phase.Copy?
    ensures Step(d, inp, room) == StepCopy(d, inp, room)
  {}

  lemma HoldIsZero(before: seq<byte>, input: seq<byte>, r: Regs, k: nat)
    requires Buffered(before, input, r) && r.bits == 0 && r.next + k <= |input|
    ensures Buffered(before, input, r.(next := r.next + k, put := r.put + k))
  {}

  /** Copying bytes of a stored block. */
  lemma CopyMoves(d: Dec, before: seq<byte>, input: seq<byte>, r: Regs, n: nat, limit: nat) returns (e: Dec)
    requires At(d, before, input, r) && d.phase.Copy? && r.bits == 0
    requires 1 <= n <= d.phase.length && r.next + n <= |input| && |d.out| + n <= limit
    ensures e == d.(phase := Copy(d.phase.length - n), pos := e.pos, out := d.out + input[r.next..r.next + n])
    ensures At(e, before, input, r.(next := r.next + n, put := r.put + n)) && Moved(true, d, e, before + input, limit)
  {
    hide Ok, Step, Held, Buffered, Reaches, Advances;
    var all := before + input;
    AtLimits(d, before, input, r);
    CopyRun(d, all, limit, n);
    var i := d.pos / 8;
    assert all[i..i + n] == input[r.next..r.next + n];
    e := d.(phase := Copy(d.phase.length - n), pos := d.pos + 8 * n, out := d.out + all[i..i + n]);
    HoldIsZero(before, input, r, n);
    ReachesKeepsOk(d, e, all, limit);
  }

  /** Copying n bytes of a match. */
  lemma MatchMoves(d: Dec, out': seq<byte>, before: seq<byte>, input: seq<byte>, r: Regs, n: nat, limit: nat) returns (e: Dec)
    requires At(d, before, input, r) && d.phase.Match? && 1 <= n <= d.phase.length && |d.out| + n <= limit
    requires Repeats(d.out, out', d.phase.offset, n)
    ensures e == d.(phase := AfterMatch(d.phase.length - n, d.phase.offset), out := out')
    ensures At(e, before, input, r.(put := r.put + n)) && Moved(true, d, e, before + input, limit)
  {
    hide Ok, Held, Buffered, Reaches, Advances, Repeats;
    var all := before + input;
    MatchRun(d, out', all, limit, n);
    e := d.(phase := AfterMatch(d.phase.length - n, d.phase.offset), out := out');
    AdvancesReaches(d, e, all, limit);
    ReachesKeepsOk(d, e, all, limit);
    MatchIsLean(d, before, input, r, out', n);
    SamePut(before, input, r, n);
  }

  lemma SamePut(before: seq<byte>, input: seq<byte>, r: Regs, n: nat)
    requires Buffered(before, input, r)
    ensures Buffered(before, input, r.(put := r.put + n))
  {}

  lemma MatchIsLean(d: Dec, before: seq<byte>, input: seq<byte>, r: Regs, out': seq<byte>, n: nat)
    requires At(d, before, input, r) && d.phase.Match? && Repeats(d.out, out', d.phase.offset, n)
    ensures r.bits < 8
  {}

  /** Writing a literal. */
  lemma LitMoves(d: Dec, before: seq<byte>, input: seq<byte>, r: Regs, limit: nat) returns (e: Dec)
    requires At(d, before, input, r) && d.phase.Lit? && |d.out| < limit
    ensures e == d.(phase := Len, out := d.out + [d.phase.b])
    ensures At(e, before, input, r.(put := r.put + 1)) && Moved(true, d, e, before + input, limit)
  {
    hide Ok, Held;
    e := d.(phase := Len, out := d.out + [d.phase.b]);
    SamePut(before, input, r, 1);
    Stepped(d, e, before, input, r.(put := r.put + 1), limit);
  }

  lemma LitStuck(d: Dec, inp: seq<byte>)
    requires d.phase.Lit?
    ensures Step(d, inp, false) == None
  {}

  lemma MatchStuck(d: Dec, inp: seq<byte>)
    requires d.phase.Match?
    ensures Step(d, inp, false) == None
  {}

  lemma MatchLimits(d: Dec, before: seq<byte>, input: seq<byte>, r: Regs)
    requires At(d, before, input, r) && d.phase.Match?
    ensures 1 <= d.phase.length && 1 <= d.phase.offset <= WSIZE
  {}

  /** A distance that reaches before the start of the output. */
  lemma MatchTooFar(d: Dec, before: seq<byte>, input: seq<byte>, r: Regs, limit: nat) returns (e: Dec)
    requires At(d, before, input, r) && d.phase.Match? && d.phase.offset > |d.out| && |d.out| < limit
    ensures e == d.(phase := Bad)
    ensures At(e, before, input, r) && Moved(true, d, e, before + input, limit)
  {
    hide Ok, Held;
    e := d.(phase := Bad);
    Stepped(d, e, before, input, r, limit);
  }

  lemma MovedReaches(d0: Dec, d: Dec, e: Dec, all: seq<byte>, limit: nat)
    requires Reaches(d0, d, all, limit) && Moved(true, d, e, all, limit)
    ensures Reaches(d0, e, all, limit)
  {
    hide Step, Reaches, Advances;
    AdvancesReaches(d, e, all, limit);
    ReachesTrans(d0, d, e, all, limit);
  }

  /** The code length code is complete: it is used or refused. */
  lemma LenLensDone(d: Dec, before: seq<byte>, input: seq<byte>, r: Regs, limit: nat) returns (e: Dec)
    requires At(d, before, input, r) && d.phase.LenLens? && |d.phase.cl| == d.phase.ncode
    ensures var clens := CodeLengthCode(d.phase.cl);
            && AllAtMost(clens, 7) && CodesOk(CODES, clens)
            && e == d.(phase := if Acceptable(CODES, clens) then CodeLens(d.phase.nlen, d.phase.ndist, clens, []) else Bad)
    ensures At(e, before, input, r) && Moved(true, d, e, before + input, limit)
  {
    hide Held, CodeLengthCode, Acceptable, Advances;
    var clens := CodeLengthCode(d.phase.cl);
    CodeLengthCodeOk(d.phase.cl);
    e := d.(phase := if Acceptable(CODES, clens) then CodeLens(d.phase.nlen, d.phase.ndist, clens, []) else Bad);
    MoveOn(d, e, before, input, r, limit);
  }

  /** All code lengths are there: the codes are used or refused. */
  lemma CodeLensDone(d: Dec, before: seq<byte>, input: seq<byte>, r: Regs, limit: nat) returns (e: Dec)
    requires At(d, before, input, r) && d.phase.CodeLens? && |d.phase.ll| == d.phase.nlen + d.phase.ndist
    ensures 256 < d.phase.nlen <= |d.phase.ll|
    ensures e == if BlockCodesOk(d.phase.ll, d.phase.nlen)
                 then d.(phase := Len, lit := d.phase.ll[..d.phase.nlen], dst := d.phase.ll[d.phase.nlen..])
                 else d.(phase := Bad)
    ensures At(e, before, input, r) && Moved(true, d, e, before + input, limit)
  {
    hide Held, BlockCodesOk, CodeOk, Advances;
    var p := d.phase;
    e := if BlockCodesOk(p.ll, p.nlen) then d.(phase := Len, lit := p.ll[..p.nlen], dst := p.ll[p.nlen..]) else d.(phase := Bad);
    MoveOn(d, e, before, input, r, limit);
  }
}
