/** The registers of inflate and decoding one code with them (NEEDBITS, PULLBYTE and the look-up loops). */
module Fetch {
  import opened Bits
  import opened Huffman
  import opened TableSpec
  import opened BitStream
  import opened Decoder
  import opened DecoderRuns
  import opened BitBuffer

  /** The registers of inflate(): next input byte, bit accumulator, next output byte. */
  datatype Regs = Regs(next: nat, hold: nat, bits: nat, put: nat)

  /** The registers hold the last bits of input before ++ input[..next]. */
  ghost predicate Buffered(before: seq<byte>, input: seq<byte>, r: Regs)
  {
    r.next <= |input| && r.bits <= 32 && Held(before + input[..r.next], r.hold, r.bits)
  }

  /** The position in the whole input. */
  ghost function PosOf(before: seq<byte>, r: Regs): int
  {
    8 * (|before| + r.next) - r.bits
  }

  // ---- the bit accumulator

  /** PULLBYTE, when there is a byte of input. */
  method PullByte(input: seq<byte>, r: Regs, ghost before: seq<byte>) returns (r': Regs)
    requires Buffered(before, input, r) && r.next < |input| && r.bits <= 24
    ensures Buffered(before, input, r') && PosOf(before, r') == PosOf(before, r)
    ensures r'.next == r.next + 1 && r'.bits == r.bits + 8 && r'.put == r.put
  {
    hide Held, Shl;
    PullHeld(before + input[..r.next], input[r.next], r.hold, r.bits);
    assert before + input[..r.next + 1] == before + input[..r.next] + [input[r.next]];
    return Regs(r.next + 1, r.hold + Shl(input[r.next], r.bits), r.bits + 8, r.put);
  }

  /** NEEDBITS(n): false when the input runs out. */
  method NeedBits(input: seq<byte>, r: Regs, n: nat, ghost before: seq<byte>) returns (ok: bool, r': Regs)
    requires Buffered(before, input, r)
    requires n <= 25 || (n == 32 && r.bits % 8 == 0)
    ensures Buffered(before, input, r') && PosOf(before, r') == PosOf(before, r) && r'.put == r.put
    ensures r.next <= r'.next && r.bits <= r'.bits && r'.bits % 8 == r.bits % 8
    ensures ok ==> n <= r'.bits && (r' == r || r'.bits < n + 8)
    ensures !ok ==> r'.next == |input| && r'.bits < n
  {
    hide Buffered;
    r' := r;
    BufferedFits(before, input, r);
    while r'.bits < n
      invariant Buffered(before, input, r') && PosOf(before, r') == PosOf(before, r) && r'.put == r.put
      invariant r.next <= r'.next <= |input| && r.bits <= r'.bits && r'.bits % 8 == r.bits % 8
      invariant r' == r || r'.bits < n + 8
      decreases |input| - r'.next
    {
      if r'.next == |input| {
        return false, r';
      }
      r' := PullByte(input, r', before);
      BufferedFits(before, input, r');
    }
    return true, r';
  }

  lemma BufferedFits(before: seq<byte>, input: seq<byte>, r: Regs)
    requires Buffered(before, input, r)
    ensures r.next <= |input| && r.bits <= 32 && 0 <= PosOf(before, r) <= 8 * |before + input|
    ensures r.next == |input| ==> PosOf(before, r) + r.bits == 8 * |before + input|
    ensures PosOf(before, r) + r.bits <= 8 * |before + input|
  {}

  /** DROPBITS(n) */
  function DropBits(r: Regs, n: nat): Regs
    requires n <= r.bits
  {
    r.(hold := Shr(r.hold, n), bits := r.bits - n)
  }

  lemma Dropped(before: seq<byte>, input: seq<byte>, r: Regs, n: nat)
    requires Buffered(before, input, r) && n <= r.bits
    ensures Buffered(before, input, DropBits(r, n))
    ensures PosOf(before, DropBits(r, n)) == PosOf(before, r) + n
  {
    hide Held, Shr;
    DropHeld(before + input[..r.next], r.hold, r.bits, n);
  }

  /** BYTEBITS */
  function ByteBits(r: Regs): Regs
  {
    DropBits(r, r.bits % 8)
  }

  lemma Aligned(before: seq<byte>, input: seq<byte>, r: Regs)
    requires Buffered(before, input, r)
    ensures Buffered(before, input, ByteBits(r))
    ensures 0 <= PosOf(before, r) && PosOf(before, ByteBits(r)) == Align(PosOf(before, r))
    ensures r.bits < 8 ==> ByteBits(r).bits == 0
    ensures r.bits % 8 == 0 ==> ByteBits(r) == r
    ensures ByteBits(r).bits % 8 == 0 && ByteBits(r).next == r.next && ByteBits(r).put == r.put
  {
    hide Held;
    Dropped(before, input, r, r.bits % 8);
    BufferedFits(before, input, r);
  }

  /** BITS(n) are the next bits of the input. */
  lemma BitsAre(before: seq<byte>, input: seq<byte>, r: Regs, n: nat)
    requires Buffered(before, input, r) && n <= r.bits
    ensures 0 <= PosOf(before, r) && PosOf(before, r) + n <= 8 * |before + input|
    ensures Low(r.hold, n) == Peek(before + input, PosOf(before, r), n)
  {
    hide Held, Low, Peek;
    TakenPrefix(before, input, r.next);
    BitsHeld(before + input[..r.next], before + input, r.hold, r.bits, n);
    HeldFits(before + input[..r.next], r.hold, r.bits);
  }

  lemma HeldFits(c: seq<byte>, hold: nat, bits: nat)
    requires Held(c, hold, bits)
    ensures bits <= 8 * |c|
  {}

  lemma TakenPrefix(before: seq<byte>, input: seq<byte>, n: nat)
    requires n <= |input|
    ensures before + input[..n] <= before + input
    ensures n == |input| ==> before + input[..n] == before + input
  {
    assert input == input[..n] + input[n..];
    assert before + input == (before + input[..n]) + input[n..];
  }

  /** The last-block bit and the two bits of the block type. */
  method HeaderBits(input: seq<byte>, r: Regs, ghost before: seq<byte>, ghost all: seq<byte>)
    returns (ok: bool, final: bool, kind: nat, r': Regs)
    requires Buffered(before, input, r) && all == before + input
    ensures Buffered(before, input, r') && r'.put == r.put && r'.next <= |input| && 0 <= PosOf(before, r) <= PosOf(before, r')
    ensures !ok ==> PosOf(before, r') == PosOf(before, r) && 8 * |all| < PosOf(before, r) + 3 && r'.next == |input|
    ensures ok ==> && PosOf(before, r') == PosOf(before, r) + 3 <= 8 * |all|
                   && final == (Peek(all, PosOf(before, r), 1) == 1)
                   && kind == Peek(all, PosOf(before, r) + 1, 2)
                   && (r.bits < 8 ==> r'.bits < 8)
  {
    hide Held, Peek, Low, Shr, Buffered;
    ok, r' := NeedBits(input, r, 3, before);
    BufferedFits(before, input, r');
    TakenPrefix(before, input, r'.next);
    if ok {
      BitsAre(before, input, r', 1);
      final := Low(r'.hold, 1) == 1;
      Dropped(before, input, r', 1);
      r' := DropBits(r', 1);
      BitsAre(before, input, r', 2);
      kind := Low(r'.hold, 2);
      Dropped(before, input, r', 2);
      r' := DropBits(r', 2);
      BufferedFits(before, input, r');
    } else {
      final, kind := false, 0;
    }
  }

  /** NEEDBITS(n), BITS(n), DROPBITS(n). */
  method TakeBits(input: seq<byte>, r: Regs, n: nat, ghost before: seq<byte>) returns (ok: bool, v: nat, r': Regs)
    requires Buffered(before, input, r) && n <= 25
    ensures Buffered(before, input, r') && r'.put == r.put && r'.next <= |input| && 0 <= PosOf(before, r) <= PosOf(before, r')
    ensures !ok ==> PosOf(before, r') == PosOf(before, r) && 8 * |before + input| < PosOf(before, r) + n && r'.next == |input|
    ensures ok ==> && PosOf(before, r') == PosOf(before, r) + n <= 8 * |before + input|
                   && v == Peek(before + input, PosOf(before, r), n)
                   && (r.bits < 8 || r.bits < n ==> r'.bits < 8)
  {
    hide Held, Peek, Low, Shr, Buffered;
    ok, r' := NeedBits(input, r, n, before);
    BufferedFits(before, input, r');
    v := 0;
    if ok {
      BitsAre(before, input, r', n);
      v := Low(r'.hold, n);
      Dropped(before, input, r', n);
      r' := DropBits(r', n);
      BufferedFits(before, input, r');
    }
  }

  // ---- looking a code up

  /** What a fetched entry says about the next symbol. */
  ghost predicate Decoded(typ: CodeType, lens: seq<nat>, leaf: Code, sym: Symbol)
  {
    match sym
    case Sym(s) => IsSym(lens, s) && s < MaxCodes(typ) && leaf == Leaf(typ, s, lens[s]) && leaf.bits == lens[s]
    case Invalid => leaf == InvalidCode
    case NeedMore => false
  }

  lemma LeafLimits(t: seq<Code>, at: nat, root: nat, typ: CodeType, lens: seq<nat>, x: nat, leaf: Code)
    requires TableFor(t, at, root, typ, lens) && Resolves(t, at, root, x, leaf, TableSize(lens, root))
    requires leaf.bits <= MAXBITS && !IsLink(leaf)
    ensures at + Low(x, root) < |t|
    ensures var e := t[at + Low(x, root)];
            && e.bits <= MAXBITS
            && (!IsLink(e) ==> e == leaf)
            && (IsLink(e) ==> e.bits == root < leaf.bits && at + e.val + Low(Shr(x, root), e.op) < |t|
                              && e.op <= MAXBITS - root
                              && t[at + e.val + Low(Shr(x, root), e.op)] == leaf.(bits := leaf.bits - root))
  {
    hide Low, Shr, Decodes, Pow2, TableSize;
  }

  /** Looking at the bits held: the leaf they lead to, and whether they are enough. */
  lemma LookAt(t: seq<Code>, at: nat, root: nat, typ: CodeType, lens: seq<nat>,
               before: seq<byte>, input: seq<byte>, r: Regs) returns (leaf: Code)
    requires TableFor(t, at, root, typ, lens) && Buffered(before, input, r)
    ensures 0 <= PosOf(before, r) && !IsLink(leaf) && leaf.bits <= MAXBITS
    ensures Resolves(t, at, root, r.hold, leaf, TableSize(lens, root))
    ensures leaf.bits <= r.bits ==> Decoded(typ, lens, leaf, DecodeSym(lens, before + input, PosOf(before, r)))
    ensures r.bits < leaf.bits ==> DecodeSym(lens, before + input[..r.next], PosOf(before, r)) == NeedMore
  {
    hide Held, Low, Shr, Peek, Resolves, Leaf, TableSize, Kraft, Decodes, Acceptable, Pow2, TableFor;
    var c := before + input[..r.next];
    TakenPrefix(before, input, r.next);
    BufferedFits(before, input, r);
    var found, s;
    found, s, leaf := LookUp(t, at, root, typ, lens, c, before + input, r.hold, r.bits);
    LookUpIsFunction(t, at, root, typ, lens, c, r, found, s, leaf);
  }

  lemma LookUpIsFunction(t: seq<Code>, at: nat, root: nat, typ: CodeType, lens: seq<nat>,
                         c: seq<byte>, r: Regs, found: bool, s: nat, leaf: Code)
    requires TableFor(t, at, root, typ, lens) && Held(c, r.hold, r.bits)
    requires Resolves(t, at, root, r.hold, leaf, TableSize(lens, root))
    requires found ==> IsSym(lens, s) && leaf == Leaf(typ, s, lens[s]) && leaf.bits == lens[s]
    requires !found ==> leaf == InvalidCode
    ensures s < MaxCodes(typ) || !found
    ensures !IsLink(leaf) && leaf.bits <= MAXBITS
    ensures r.bits < leaf.bits ==> DecodeSym(lens, c, 8 * |c| - r.bits) == NeedMore
  {
    hide Low, Shr, Peek, TableSize, Kraft, Decodes, Pow2, Held, DecodeSym;
    var f', s', leaf' := LookUp(t, at, root, typ, lens, c, c, r.hold, r.bits);
    SameLeaf(t, at, root, r.hold, leaf, leaf', TableSize(lens, root));
    assert CodesOk(typ, lens);
  }

  lemma SameLeaf(t: seq<Code>, at: nat, root: nat, x: nat, leaf: Code, leaf': Code, lim: nat)
    requires Resolves(t, at, root, x, leaf, lim) && Resolves(t, at, root, x, leaf', lim)
    ensures leaf == leaf'
  {}

  /** A codeword found after pulling a byte was not there before it. */
  lemma NotMoreThanNeeded(typ: CodeType, lens: seq<nat>, c: seq<byte>, all: seq<byte>, pos: nat, leaf: Code)
    requires CodeOk(typ, lens) && c <= all && DecodeSym(lens, c, pos) == NeedMore
    requires Decoded(typ, lens, leaf, DecodeSym(lens, all, pos))
    ensures 8 * |c| < pos + leaf.bits
  {
    hide Kraft, Front, Acceptable, Leaf, Pow2;
    var sym := DecodeSym(lens, all, pos);
    if sym.Sym? {
      assert Front(lens, sym.s, all, pos);
      if pos + lens[sym.s] <= 8 * |c| {
        FrontPrefix(lens, sym.s, c, all, pos);
      }
    }
  }

  /** The bits held were not enough one byte ago. */
  ghost predicate Pulled(lens: seq<nat>, before: seq<byte>, input: seq<byte>, r: Regs, r': Regs)
  {
    && r.next <= r'.next <= |input|
    && (r' == r || (r.next < r'.next && 0 <= PosOf(before, r) &&
                    DecodeSym(lens, before + input[..r'.next - 1], PosOf(before, r)) == NeedMore))
  }

  lemma Minimal(typ: CodeType, lens: seq<nat>, before: seq<byte>, input: seq<byte>, r: Regs, r': Regs, leaf: Code)
    requires CodeOk(typ, lens) && 0 <= PosOf(before, r) == PosOf(before, r') && Pulled(lens, before, input, r, r')
    requires Decoded(typ, lens, leaf, DecodeSym(lens, before + input, PosOf(before, r)))
    ensures (r.bits < 8 || DecodeSym(lens, before + input[..r.next], PosOf(before, r)) == NeedMore) ==>
              r'.bits < leaf.bits + 8
  {
    hide Decoded, DecodeSym, Acceptable;
    if r' != r {
      TakenPrefix(before, input, r'.next - 1);
      NotMoreThanNeeded(typ, lens, before + input[..r'.next - 1], before + input, PosOf(before, r), leaf);
    } else if DecodeSym(lens, before + input[..r.next], PosOf(before, r)) == NeedMore {
      TakenPrefix(before, input, r.next);
      NotMoreThanNeeded(typ, lens, before + input[..r.next], before + input, PosOf(before, r), leaf);
    }
  }

  /** The loops that look a code up with what is held and pull one byte at a time until
      the entry found has no more bits than that; nothing is dropped yet. */
  method FetchCode(codes: array<Code>, at: nat, root: nat, input: seq<byte>, r: Regs,
                   ghost before: seq<byte>, ghost typ: CodeType, ghost lens: seq<nat>)
    returns (ok: bool, leaf: Code, r': Regs)
    requires TableFor(codes[..], at, root, typ, lens)
    requires Buffered(before, input, r) && 0 <= PosOf(before, r) && r.next <= |input|
    ensures Buffered(before, input, r') && PosOf(before, r') == PosOf(before, r) && r'.put == r.put && r'.next <= |input|
    ensures ok ==> Decoded(typ, lens, leaf, DecodeSym(lens, before + input, PosOf(before, r))) && leaf.bits <= r'.bits
    ensures ok && (r.bits < 8 || DecodeSym(lens, before + input[..r.next], PosOf(before, r)) == NeedMore) ==>
              r'.bits < leaf.bits + 8
    ensures Pulled(lens, before, input, r, r')
    ensures !ok ==> r'.next == |input| && DecodeSym(lens, before + input, PosOf(before, r)) == NeedMore
  {
    hide Held, Buffered, TableFor, Low, Shr, Peek, Resolves, Leaf, TableSize, Kraft, Decodes, Acceptable, Pow2,
         Decoded, DecodeSym, IsLink;
    ghost var t, pos := codes[..], PosOf(before, r);
    TableIs(t, at, root, typ, lens);
    r' := r;
    var here;
    while true
      invariant Buffered(before, input, r') && PosOf(before, r') == pos && r'.put == r.put
      invariant Pulled(lens, before, input, r, r')
      decreases |input| - r'.next
    {
      ghost var lf := LookAt(t, at, root, typ, lens, before, input, r');
      LeafLimits(t, at, root, typ, lens, r'.hold, lf);
      here := codes[at + Low(r'.hold, root)];
      if here.bits <= r'.bits {
        break;
      }
      if r'.next == |input| {
        TakenPrefix(before, input, r'.next);
        return false, here, r';
      }
      r' := PullByte(input, r', before);
    }
    if 0 < here.op < 16 {
      assert IsLink(here) by { LinkIs(here); }
      var last := here;
      ghost var low := Low(r'.hold, root);
      BitsAre(before, input, r', root);
      while true
        invariant Buffered(before, input, r') && PosOf(before, r') == pos && r'.put == r.put
        invariant Pulled(lens, before, input, r, r')
        invariant root <= r'.bits && Low(r'.hold, root) == low
        decreases |input| - r'.next
      {
        ghost var lf := LookAt(t, at, root, typ, lens, before, input, r');
        LeafLimits(t, at, root, typ, lens, r'.hold, lf);
        LowSplit(r'.hold, last.bits, last.op);
        here := codes[at + last.val + Shr(Low(r'.hold, last.bits + last.op), last.bits)];
        if last.bits + here.bits <= r'.bits {
          break;
        }
        if r'.next == |input| {
          TakenPrefix(before, input, r'.next);
          return false, here, r';
        }
        r' := PullByte(input, r', before);
        BitsAre(before, input, r', root);
      }
      leaf := here.(bits := last.bits + here.bits);
    } else {
      assert !IsLink(here) by { LinkIs(here); }
      leaf := here;
    }
    Minimal(typ, lens, before, input, r, r', leaf);
    return true, leaf, r';
  }

  lemma LinkIs(e: Code)
    ensures IsLink(e) <==> 0 < e.op < 16
  {}

  lemma TableIs(t: seq<Code>, at: nat, root: nat, typ: CodeType, lens: seq<nat>)
    requires TableFor(t, at, root, typ, lens)
    ensures CodeOk(typ, lens) && root <= MAXBITS
  {}
}
