/**
 The decoding part of inflate_fast on the registers alone: two bytes at a time are
 pulled unchecked, and a literal or a whole length and distance is decoded.
 */
module FastPath {
  import opened Bits
  import opened Huffman
  import opened TableSpec
  import opened BitStream
  import opened Decoder
  import opened DecoderRuns
  import opened BitBuffer
  import opened Fetch
  import opened InflateSteps
  import opened InflateStates
  import opened Window

  /** The registers stand for d; any number of bits may be held. */
  ghost predicate Fast(d: Dec, before: seq<byte>, input: seq<byte>, r: Regs)
  {
    Ok(d) && Buffered(before, input, r) && d.pos == PosOf(before, r)
  }

  /** if (bits < 15) { two PULLBYTEs } */
  method FillTwo(input: seq<byte>, r: Regs, ghost before: seq<byte>) returns (r': Regs)
    requires Buffered(before, input, r) && (r.bits < 15 ==> r.next + 2 <= |input|)
    ensures Buffered(before, input, r') && PosOf(before, r') == PosOf(before, r) && r'.put == r.put
    ensures 15 <= r'.bits && r'.next == r.next + if r.bits < 15 then 2 else 0
  {
    hide Buffered;
    r' := r;
    if r.bits < 15 {
      r' := PullByte(input, r', before);
      r' := PullByte(input, r', before);
    }
  }

  /** n extra bits, pulling bytes as long as they are not there. */
  method FastBits(input: seq<byte>, r: Regs, n: nat, ghost before: seq<byte>) returns (v: nat, r': Regs)
    requires Buffered(before, input, r) && n <= 13
    requires (r.bits < n ==> r.next + 1 <= |input|) && (r.bits + 8 < n ==> r.next + 2 <= |input|)
    ensures Buffered(before, input, r') && PosOf(before, r') == PosOf(before, r) + n && r'.put == r.put
    ensures 0 <= PosOf(before, r) && PosOf(before, r') <= 8 * |before + input| && v == Peek(before + input, PosOf(before, r), n)
    ensures r'.next == r.next + if n <= r.bits then 0 else if n <= r.bits + 8 then 1 else 2
  {
    hide Buffered, Low, Shr, Peek;
    r' := r;
    if r'.bits < n {
      r' := PullByte(input, r', before);
      if r'.bits < n {
        r' := PullByte(input, r', before);
      }
    }
    BitsAre(before, input, r', n);
    v := Low(r'.hold, n);
    Dropped(before, input, r', n);
    r' := DropBits(r', n);
  }

  // ---- table entries

  /** The tests on op tell the kinds of entries apart. */
  lemma LeafOps(typ: CodeType, lens: seq<nat>, leaf: Code, sym: Symbol)
    requires Decoded(typ, lens, leaf, sym) && typ != CODES
    ensures 1 <= leaf.bits <= MAXBITS && !IsLink(leaf)
    ensures leaf.op == 0 || Bit(leaf.op, 4) || Bit(leaf.op, 6)
    ensures leaf.op == 0 ==> typ == LENS && leaf.val < 256
    ensures Bit(leaf.op, 4) ==> !Bit(leaf.op, 5) && !Bit(leaf.op, 6)
    ensures Bit(leaf.op, 5) ==> typ == LENS
    ensures Bit(leaf.op, 6) <==> leaf.op >= 64
  {
    hide Bit, LengthBits, LengthFirst, DistBits, DistFirst;
    OtherOps();
    if sym.Sym? && typ == LENS && 257 <= sym.s < 286 {
      LengthTables(sym.s);
      LengthRanges(sym.s);
    } else if sym.Sym? && typ == DISTS && sym.s < 30 {
      DistTables(sym.s);
      DistRanges(sym.s);
    }
    if 16 <= leaf.op < 32 {
      ShortOps(leaf.op);
      MiddleOps(leaf.op);
    }
  }

  lemma OtherOps()
    ensures !Bit(0, 4) && !Bit(0, 5) && !Bit(0, 6)
    ensures !Bit(96, 4) && Bit(96, 5) && Bit(96, 6) && !Bit(64, 4) && !Bit(64, 5) && Bit(64, 6)
    ensures !Bit(77, 4) && !Bit(77, 5) && Bit(77, 6) && !Bit(202, 4) && !Bit(202, 5) && Bit(202, 6)
  {}

  lemma MiddleOps(op: nat)
    requires 16 <= op < 32
    ensures Bit(op, 4)
  {
    Decompose(op - 16, 1, 4);
    assert Pow2(4) == 16 == Shl(1, 4);
  }

  lemma LinkOps(op: nat)
    requires 0 < op < 16
    ensures !Bit(op, 4) && !Bit(op, 6)
  {
    assert Pow2(4) == 16 && Pow2(6) == 64;
    LowFits(op, 4);
    LowFits(op, 6);
  }

  /** One code, with enough bits held for any codeword: here, and at most one link. */
  method FastCode(codes: array<Code>, at: nat, root: nat, input: seq<byte>, r: Regs,
                  ghost before: seq<byte>, ghost typ: CodeType, ghost lens: seq<nat>)
    returns (op: nat, val: nat, r': Regs, ghost leaf: Code)
    requires TableFor(codes[..], at, root, typ, lens) && typ != CODES
    requires Buffered(before, input, r) && 15 <= r.bits
    ensures 0 <= PosOf(before, r) && Decoded(typ, lens, leaf, DecodeSym(lens, before + input, PosOf(before, r)))
    ensures leaf.op == op && leaf.val == val && 1 <= leaf.bits <= MAXBITS
    ensures Buffered(before, input, r') && PosOf(before, r') == PosOf(before, r) + leaf.bits
    ensures r'.next == r.next && r'.put == r.put
  {
    hide Buffered, TableFor, Low, Shr, Decoded, DecodeSym, IsLink, Resolves, Bit, TableSize;
    leaf := LookAt(codes[..], at, root, typ, lens, before, input, r);
    LeafOps(typ, lens, leaf, DecodeSym(lens, before + input, PosOf(before, r)));
    LeafLimits(codes[..], at, root, typ, lens, r.hold, leaf);
    var here := codes[at + Low(r.hold, root)];
    LinkIs(here);
    if IsLink(here) { LinkOps(here.op); }
    Dropped(before, input, r, here.bits);
    r' := DropBits(r, here.bits);
    if here.op != 0 && !Bit(here.op, 4) && !Bit(here.op, 6) {
      here := codes[at + here.val + Low(r'.hold, here.op)];
      Dropped(before, input, r', here.bits);
      r' := DropBits(r', here.bits);
    }
    return here.op, here.val, r', leaf;
  }

  // ---- one pass of the loop

  /** One more decoder step after a run, whatever the bits held. */
  lemma Onward(d0: Dec, d: Dec, e: Dec, before: seq<byte>, input: seq<byte>, r': Regs, limit: nat)
    requires Reaches(d0, d, before + input, limit) && Ok(d)
    requires Step(d, before + input, |d.out| < limit) == Some(e)
    requires Buffered(before, input, r') && e.pos == PosOf(before, r')
    ensures Advances(d0, e, before + input, limit) && Reaches(d0, e, before + input, limit) && Fast(e, before, input, r')
  {
    hide Step, Reaches, Advances, Steps, Buffered, Ok;
    var all := before + input;
    AdvancesOne(d, e, all, limit);
    ReachesAdvances(d0, d, e, all, limit);
    AdvancesReaches(d0, e, all, limit);
    StepKeepsOk(d, all, |d.out| < limit);
  }

  lemma FastIs(d: Dec, before: seq<byte>, input: seq<byte>, r: Regs)
    requires Fast(d, before, input, r)
    ensures Ok(d) && Buffered(before, input, r) && d.pos == PosOf(before, r) && r.next <= |input|
  {}

  lemma StepsOnCodes(d: Dec, inp: seq<byte>, room: bool)
    ensures d.phase.LenExt? ==> Step(d, inp, room) == StepLenExt(d, inp)
    ensures d.phase.DistExt? ==> Step(d, inp, room) == StepDistExt(d, inp)
    ensures Ok(d) && d.phase.LenExt? ==> d.phase.extra <= 5
    ensures Ok(d) && d.phase.DistExt? ==> d.phase.extra <= 13
  {}

  lemma DistLengths(d: Dec, before: seq<byte>, input: seq<byte>, r: Regs)
    requires Fast(d, before, input, r) && d.phase.Dist?
    ensures 3 <= d.phase.length <= 258
  {}

  /** The most bytes pulled after a length code when b bits are left: 5 + 15 + 13 bits are to come. */
  function Ahead(b: nat): nat
  {
    if b == 0 then 5 else 4
  }

  /** The extra bits of the length, the distance code and its extra bits. */
  method FastDistance(codes: array<Code>, at: nat, root: nat, input: seq<byte>, r: Regs, base: nat, extra: nat,
                      ghost before: seq<byte>, ghost d: Dec, ghost limit: nat)
    returns (bad: bool, length: nat, dist: nat, r': Regs, ghost e: Dec)
    requires Fast(d, before, input, r) && d.phase == LenExt(base, extra)
    requires TableFor(codes[..], at, root, DISTS, d.dst) && r.next + Ahead(r.bits) <= |input|
    ensures Reaches(d, e, before + input, limit) && Fast(e, before, input, r')
    ensures e == d.(phase := if bad then Bad else Match(length, dist), pos := e.pos) && e.pos > d.pos
    ensures !bad ==> 3 <= length <= 258
    ensures r.next <= r'.next <= r.next + Ahead(r.bits) && r'.put == r.put
  {
    hide Ok, Buffered, Peek, TableFor, DecodeSym, Decoded, Bit, Low, Reaches, Advances, Fast, AfterDist, Step;
    ghost var all := before + input;
    FastIs(d, before, input, r);
    StepsOnCodes(d, all, |d.out| < limit);
    length, r' := FastBits(input, r, extra, before);
    length := base + length;
    e := d.(phase := Dist(length), pos := d.pos + extra);
    ReachesSelf(d, all, limit);
    Onward(d, d, e, before, input, r', limit);
    DistLengths(e, before, input, r');

    FastIs(e, before, input, r');
    r' := FillTwo(input, r', before);
    var op;
    ghost var leaf;
    op, dist, r', leaf := FastCode(codes, at, root, input, r', before, DISTS, d.dst);
    LeafOps(DISTS, d.dst, leaf, DecodeSym(d.dst, all, e.pos));
    DistStep(e, all, |e.out| < limit, leaf);
    AfterDistIs(length, leaf);
    ghost var f := e.(phase := AfterDist(length, leaf), pos := e.pos + leaf.bits);
    Onward(d, e, f, before, input, r', limit);
    bad := !Bit(op, 4);
    e := f;
    if bad {
      return;
    }

    FastIs(f, before, input, r');
    StepsOnCodes(f, all, |f.out| < limit);
    var more;
    more, r' := FastBits(input, r', Low(op, 4), before);
    dist := dist + more;
    e := f.(phase := Match(length, dist), pos := f.pos + Low(op, 4));
    Onward(d, f, e, before, input, r', limit);
  }

  lemma AfterDistIs(length: nat, leaf: Code)
    ensures AfterDist(length, leaf) == if Bit(leaf.op, 6) then Bad else DistExt(length, leaf.val, Low(leaf.op, 4))
  {}

  lemma AfterLenIs(leaf: Code)
    requires leaf.op == 0 ==> leaf.val < 256
    requires Bit(leaf.op, 4) ==> !Bit(leaf.op, 5) && !Bit(leaf.op, 6)
    requires leaf.op == 0 || Bit(leaf.op, 4) || Bit(leaf.op, 6)
    ensures AfterLen(leaf) == if leaf.op == 0 then Lit(leaf.val)
                              else if Bit(leaf.op, 4) then LenExt(leaf.val, Low(leaf.op, 4))
                              else if Bit(leaf.op, 5) then Header else Bad
  {
    hide Bit;
    OtherOps();
  }

  datatype Found = Literal(b: byte) | Pair(length: nat, dist: nat) | EndOfBlock | Broken

  function FoundPhase(f: Found): Phase
  {
    match f
    case Literal(b) => Lit(b)
    case Pair(length, dist) => Match(length, dist)
    case EndOfBlock => Header
    case Broken => Bad
  }

  /** A literal, a length and distance, the end of the block or an error. */
  method FastNext(codes: array<Code>, lencode: nat, lenbits: nat, distcode: nat, distbits: nat, input: seq<byte>, r: Regs,
                  ghost before: seq<byte>, ghost d: Dec, ghost limit: nat)
    returns (found: Found, r': Regs, ghost e: Dec)
    requires Fast(d, before, input, r) && d.phase.Len? && r.next + 6 <= |input|
    requires TableFor(codes[..], lencode, lenbits, LENS, d.lit) && TableFor(codes[..], distcode, distbits, DISTS, d.dst)
    ensures Advances(d, e, before + input, limit) && Fast(e, before, input, r')
    ensures e == d.(phase := FoundPhase(found), pos := e.pos) && e.pos > d.pos
    ensures found.Pair? ==> 3 <= found.length <= 258
    ensures r.next <= r'.next <= r.next + 6 && r'.put == r.put
  {
    hide Ok, Buffered, Peek, TableFor, DecodeSym, Decoded, Bit, Low, Reaches, Advances, Fast, AfterLen, Step;
    ghost var all := before + input;
    FastIs(d, before, input, r);
    r' := FillTwo(input, r, before);
    var op, val;
    ghost var leaf;
    op, val, r', leaf := FastCode(codes, lencode, lenbits, input, r', before, LENS, d.lit);
    LeafOps(LENS, d.lit, leaf, DecodeSym(d.lit, all, d.pos));
    LenStep(d, all, |d.out| < limit, leaf);
    AfterLenIs(leaf);
    e := d.(phase := AfterLen(leaf), pos := d.pos + leaf.bits);
    ReachesSelf(d, all, limit);
    Onward(d, d, e, before, input, r', limit);
    if op == 0 {
      found := Literal(val);
    } else if Bit(op, 4) {
      ghost var f;
      var bad, length, dist;
      bad, length, dist, r', f := FastDistance(codes, distcode, distbits, input, r', val, Low(op, 4), before, e, limit);
      AdvancesMore(d, e, f, all, limit);
      found := if bad then Broken else Pair(length, dist);
      e := f;
    } else if Bit(op, 5) {
      found := EndOfBlock;
    } else {
      found := Broken;
    }
  }

  // ---- output

  lemma PutOn(before: seq<byte>, input: seq<byte>, r: Regs, n: nat)
    requires Buffered(before, input, r)
    ensures Buffered(before, input, r.(put := r.put + n)) && PosOf(before, r.(put := r.put + n)) == PosOf(before, r)
  {}

  lemma StepsOnOutput(d: Dec, inp: seq<byte>)
    ensures d.phase.Lit? ==> Step(d, inp, true) == Some(d.(phase := Len, out := d.out + [d.phase.b]))
    ensures d.phase.Match? && d.phase.offset > |d.out| ==> Step(d, inp, true) == Some(d.(phase := Bad))
  {}

  /** Writing a literal. */
  lemma FastLit(d0: Dec, d: Dec, before: seq<byte>, input: seq<byte>, r: Regs, limit: nat) returns (e: Dec)
    requires Advances(d0, d, before + input, limit) && Fast(d, before, input, r) && d.phase.Lit? && |d.out| < limit
    ensures e == d.(phase := Len, out := d.out + [d.phase.b])
    ensures Advances(d0, e, before + input, limit) && Fast(e, before, input, r.(put := r.put + 1))
  {
    hide Step, Reaches, Advances, Buffered, Ok;
    StepsOnOutput(d, before + input);
    e := d.(phase := Len, out := d.out + [d.phase.b]);
    AdvancesReaches(d0, d, before + input, limit);
    PutOn(before, input, r, 1);
    Onward(d0, d, e, before, input, r.(put := r.put + 1), limit);
  }

  /** A distance too far back. */
  lemma FastTooFar(d0: Dec, d: Dec, before: seq<byte>, input: seq<byte>, r: Regs, limit: nat) returns (e: Dec)
    requires Advances(d0, d, before + input, limit) && Fast(d, before, input, r) && d.phase.Match? && |d.out| < limit
    requires d.phase.offset > |d.out|
    ensures e == d.(phase := Bad) && Advances(d0, e, before + input, limit) && Fast(e, before, input, r)
  {
    hide Step, Reaches, Advances, Buffered, Ok;
    StepsOnOutput(d, before + input);
    e := d.(phase := Bad);
    AdvancesReaches(d0, d, before + input, limit);
    Onward(d0, d, e, before, input, r, limit);
  }

  lemma FastLengths(d: Dec, before: seq<byte>, input: seq<byte>, r: Regs)
    requires Fast(d, before, input, r) && d.phase.Match?
    ensures 1 <= d.phase.length <= 258 && 1 <= d.phase.offset <= 0x8000
  {}

  /** A whole match. */
  lemma FastMatch(d0: Dec, d: Dec, out': seq<byte>, before: seq<byte>, input: seq<byte>, r: Regs, limit: nat) returns (e: Dec)
    requires Advances(d0, d, before + input, limit) && Fast(d, before, input, r) && d.phase.Match?
    requires |d.out| + d.phase.length <= limit && Repeats(d.out, out', d.phase.offset, d.phase.length)
    ensures e == d.(phase := Len, out := out')
    ensures Advances(d0, e, before + input, limit) && Fast(e, before, input, r.(put := r.put + d.phase.length))
  {
    hide Step, Reaches, Advances, Buffered, Repeats;
    var all := before + input;
    MatchRun(d, out', all, limit, d.phase.length);
    e := d.(phase := Len, out := out');
    AdvancesReaches(d, e, all, limit);
    AdvancesMore(d0, d, e, all, limit);
    ReachesKeepsOk(d, e, all, limit);
    PutOn(before, input, r, d.phase.length);
  }

  // ---- the end of the loop

  /** Decoding one symbol goes at least to the last byte taken in before it. */
  lemma NotTooFarBack(d: Dec, e: Dec, before: seq<byte>, input: seq<byte>, r: Regs, limit: nat)
    requires At(d, before, input, r) && d.phase.Len? && Advances(d, e, before + input, limit)
    ensures e.pos + 7 >= 8 * (|before| + r.next)
  {
    hide Ok, Buffered, DecodeSym, Reaches, Leaf, PosOf, At, Step, Acceptable;
    AtLimits(d, before, input, r);
    BuffersOf(d, before, input, r);
    OkInBlock(d);
    var c, all := before + input[..r.next], before + input;
    var s := Step(d, all, |d.out| < limit).value;
    StepKeepsOk(d, all, |d.out| < limit);
    ReachesKeepsOk(s, e, all, limit);
    if 8 <= r.bits {
      LenNone(d, c);
      var leaf := NextLeaf(d, all, |d.out| < limit);
      NotMoreThanNeeded(LENS, d.lit, c, all, d.pos, leaf);
    }
  }

  lemma NextLeaf(d: Dec, all: seq<byte>, room: bool) returns (leaf: Code)
    requires Ok(d) && d.phase.Len? && Step(d, all, room).Some?
    ensures Decoded(LENS, d.lit, leaf, DecodeSym(d.lit, all, d.pos)) && Step(d, all, room).value.pos == d.pos + leaf.bits
  {
    hide DecodeSym, Acceptable, Step;
    var sym := DecodeSym(d.lit, all, d.pos);
    SomeSymbol(d, all, room);
    leaf := if sym.Sym? then Leaf(LENS, sym.s, d.lit[sym.s]) else InvalidCode;
    LenStep(d, all, room, leaf);
  }

  lemma SomeSymbol(d: Dec, all: seq<byte>, room: bool)
    requires d.phase.Len? && Step(d, all, room).Some?
    ensures DecodeSym(d.lit, all, d.pos) != NeedMore
  {
    hide DecodeSym;
  }

  /** Return unused bytes: whole bytes held go back to the input. */
  method GiveBack(input: seq<byte>, r: Regs, ghost start: nat, ghost before: seq<byte>) returns (r': Regs)
    requires Buffered(before, input, r) && start <= r.next && PosOf(before, r) + 7 >= 8 * (|before| + start)
    ensures Buffered(before, input, r') && PosOf(before, r') == PosOf(before, r) && r'.put == r.put
    ensures r'.bits < 8 && start <= r'.next <= r.next
  {
    hide Held, Low;
    var len := r.bits / 8;
    ghost var c := before + input[..r.next];
    var bits := r.bits - 8 * len;
    assert len <= r.next - start;
    GiveBackHeld(c, r.hold, r.bits, len);
    assert c[..|c| - len] == before + input[..r.next - len];
    return Regs(r.next - len, Low(r.hold, bits), bits, r.put);
  }
}
