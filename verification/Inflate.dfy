/** inflate.c and inffast.c: resumable decoding of a raw deflate stream. */
module Inflate {
  import opened Bits
  import opened Huffman
  import opened TableSpec
  import opened InfTrees
  import opened BitStream
  import opened Decoder
  import opened DecoderRuns
  import opened BitBuffer
  import opened Fetch
  import opened InflateLemmas
  import opened InflateSteps
  import opened InflateStates
  import opened Window
  import opened FastPath

  const ENOUGH: nat := 1444

  datatype Mode = TYPE | STORED | COPY | TABLE | LENLENS | CODELENS | LEN | LENEXT | DIST | DISTEXT | MATCH | LIT | DONE | BAD

  predicate InBlockMode(m: Mode)
  {
    m == LEN || m == LENEXT || m == DIST || m == DISTEXT || m == MATCH || m == LIT
  }

  /** The code length code lengths received so far, in the order they are sent. */
  function Sent(lens: seq<nat>, have: nat): (r: seq<nat>)
    ensures have <= 19 && |lens| == 320 ==> |r| == have && forall i :: 0 <= i < have ==> r[i] == lens[Order[i]]
  {
    if have <= 19 && |lens| == 320 then seq(have, i requires 0 <= i < have => lens[Order[i]]) else []
  }

  lemma SentNone(lens: seq<nat>)
    ensures Sent(lens, 0) == []
  {}

  /** The next length goes where the order says and disturbs none before it. */
  lemma SentMore(lens: seq<nat>, have: nat, v: nat)
    requires |lens| == 320 && have < 19
    ensures Order[have] < 19 && Sent(lens[Order[have] := v], have + 1) == Sent(lens, have) + [v]
  {
    OrderPlace(have);
    forall i: nat | i < have
      ensures Order[i] < 19 && Order[i] != Order[have]
    {
      OrderPlace(i);
    }
  }

  /** With zeros for the lengths not sent, lens holds the code length code. */
  lemma SentAll(lens: seq<nat>, n: nat, cl: seq<nat>)
    requires |lens| == 320 && n <= 19 && cl == Sent(lens, n)
    requires forall i: nat :: n <= i < 19 ==> lens[Order[i]] == 0
    ensures lens[..19] == CodeLengthCode(cl)
  {
    forall s: nat | s < 19
      ensures lens[s] == CodeLengthCode(cl)[s]
    {
      OrderPlace(s);
    }
  }

  /** inflate_state, with the buffers of the current call. */
  class Inflater {
    var mode: Mode
    var last: bool
    var hold: nat
    var bits: nat
    var length: nat
    var offset: nat
    var extra: nat
    var nlen: nat
    var ndist: nat
    var ncode: nat
    var have: nat
    const lens: array<nat>
    const work: array<nat>
    const codes: array<Code>
    var lencode: nat
    var distcode: nat
    var lenbits: nat
    var distbits: nat
    const window: array<byte>
    var wsize: nat
    var whave: nat
    var wnext: nat

    var input: seq<byte>
    var output: array<byte>

    // what earlier calls consumed and produced, and the codes in the tables
    ghost var consumed: seq<byte>
    ghost var history: seq<byte>
    ghost var clens: seq<nat>
    ghost var lit: seq<nat>
    ghost var dst: seq<nat>

    // ---- the decoder state this stands for

    ghost predicate Shape()
      reads `output, `wsize, `whave, `wnext
    {
      && lens.Length == 320 && work.Length == 288 && lens != work
      && codes.Length == ENOUGH && window.Length == WSIZE && output != window
      && (wsize == 0 || wsize == WSIZE) && whave <= WSIZE && wnext < WSIZE
    }

    /** All input there is so far. */
    ghost function Given(): seq<byte>
      reads `consumed, `input
    {
      consumed + input
    }

    /** All output there is so far. */
    ghost function Produced(put: nat): (s: seq<byte>)
      requires put <= output.Length
      reads `history, `output, output
      ensures |s| == |history| + put
    {
      history + output[..put]
    }

    /** How far all output may grow in this call. */
    ghost function Limit(): nat
      reads `history, `output
    {
      |history| + output.Length
    }

    ghost function PhaseNow(): Phase
      reads `mode, `length, `offset, `extra, `nlen, `ndist, `ncode, `have, `clens, lens
    {
      match mode
      case TYPE => Header
      case STORED => Stored
      case COPY => Copy(length)
      case TABLE => Table
      case LENLENS => LenLens(nlen, ndist, ncode, Sent(lens[..], have))
      case CODELENS => CodeLens(nlen, ndist, clens, if have <= lens.Length then lens[..have] else [])
      case LEN => Len
      case LENEXT => LenExt(length, extra)
      case DIST => Dist(length)
      case DISTEXT => DistExt(length, offset, extra)
      case MATCH => Match(length, offset)
      case LIT => Lit(if length < 256 then length else 0)
      case DONE => Finished
      case BAD => Bad
    }

    ghost function Abs(r: Regs): Dec
      requires r.put <= output.Length && 0 <= PosOf(consumed, r)
      reads `mode, `length, `offset, `extra, `nlen, `ndist, `ncode, `have, `clens, lens,
            `last, `consumed, `history, `output, output, `lit, `dst
    {
      Dec(PhaseNow(), last, PosOf(consumed, r), Produced(r.put), lit, dst)
    }

    // ---- what holds between steps

    /** The table for the code length code. */
    ghost predicate LengthsTable()
      reads `lencode, `lenbits, `clens, codes
    {
      TableFor(codes[..], lencode, lenbits, CODES, clens)
    }

    /** The two tables of the current block. */
    ghost predicate BlockTables()
      reads `lencode, `lenbits, `distcode, `distbits, `lit, `dst, codes
    {
      && TableFor(codes[..], lencode, lenbits, LENS, lit)
      && TableFor(codes[..], distcode, distbits, DISTS, dst)
    }

    /** The window is the tail of all earlier output. */
    ghost predicate Remembers()
      reads `wsize, `whave, `wnext, `history, window
    {
      Holds(window[..], wsize, whave, wnext, history)
    }

    /** What each state relies on besides its place in the stream. */
    ghost predicate Kept(held: nat)
      reads `mode, `length, `have, `ncode, `lencode, `lenbits, `distcode, `distbits, `clens, `lit, `dst,
            `wsize, `whave, `wnext, `history, codes, window
    {
      && (mode == CODELENS ==> LengthsTable())
      && (InBlockMode(mode) ==> BlockTables())
      && (mode != DONE && mode != BAD ==> Remembers())
      && (mode == COPY ==> held == 0)
      && (mode == LIT ==> length < 256)
      && (mode == LENLENS ==> have <= ncode <= 19) && (mode == CODELENS ==> have <= lens.Length)
    }

    // Kept, state by state.

    lemma KeptPlain(held: nat)
      requires mode == TYPE || mode == STORED || mode == TABLE
      ensures Kept(held) <==> Remembers()
    {}

    lemma KeptCopy(held: nat)
      requires mode == COPY
      ensures Kept(held) <==> Remembers() && held == 0
    {}

    lemma KeptLenLens(held: nat)
      requires mode == LENLENS
      ensures Kept(held) <==> Remembers() && have <= ncode <= 19
    {}

    lemma KeptCodeLens(held: nat)
      requires mode == CODELENS
      ensures Kept(held) <==> Remembers() && LengthsTable() && have <= lens.Length
    {}

    lemma KeptBlock(held: nat)
      requires mode == LEN || mode == LENEXT || mode == DIST || mode == DISTEXT || mode == MATCH
      ensures Kept(held) <==> Remembers() && BlockTables()
    {}

    lemma KeptLit(held: nat)
      requires mode == LIT
      ensures Kept(held) <==> Remembers() && BlockTables() && length < 256
    {}

    lemma KeptEnd(held: nat)
      requires mode == DONE || mode == BAD
      ensures Kept(held)
    {}

    /** Within a call, with the registers r. */
    ghost predicate Good(r: Regs)
      reads this, lens, codes, window, output
    {
      && Shape() && r.put <= output.Length && 0 <= PosOf(consumed, r)
      && At(Abs(r), consumed, input, r)
      && Kept(r.bits)
    }

    // ---- the block states

    /** fixedtables: lengths 8, 9, 7, 8 for literals and lengths, 5 for distances. */
    method FixedTables()
      requires Shape()
      modifies `lencode, `distcode, `lenbits, `distbits, `lit, `dst, codes, work
      ensures lit == FixedLit() && dst == FixedDist() && BlockTables()
    {
      hide Decodes, FixedLit, FixedDist, Acceptable, TableSize, RootBits;
      FixedFits();
      lit, dst := FixedLit(), FixedDist();
      lencode := 0;
      var ret, next, root := InflateTable(LENS, FixedLit(), codes, 0, 9, work);
      lenbits := root;
      distcode := next;
      ghost var t := codes[..];
      ret, next, root := InflateTable(DISTS, FixedDist(), codes, next, 5, work);
      distbits := root;
      assert forall j :: 0 <= j < distcode ==> codes[..][j] == t[j];
      TableForKept(t, codes[..], 0, lenbits, LENS, FixedLit());
    }

    lemma PhaseIs()
      ensures mode == TYPE ==> PhaseNow() == Header
      ensures mode == DONE ==> PhaseNow() == Finished
    {}

    /** Enter the state for a block type; fixed codes are ready at once. */
    method StartBlock(final: bool, kind: nat, ghost d: Dec, ghost held: nat)
      requires Shape() && Remembers() && d.lit == lit && d.dst == dst && d.last == final
      modifies `mode, `last, `lencode, `distcode, `lenbits, `distbits, `lit, `dst, codes, work
      ensures mode == (if kind == 0 then STORED else if kind == 1 then LEN else if kind == 2 then TABLE else BAD)
      ensures BlockOf(d, kind) == d.(phase := PhaseNow(), lit := lit, dst := dst) && last == final
      ensures Kept(held)
    {
      hide FixedLit, FixedDist, BlockTables, Remembers;
      last := final;
      match kind {
        case 0 => mode := STORED;
        case 1 =>
          FixedTables();
          mode := LEN;
        case 2 => mode := TABLE;
        case _ => mode := BAD;
      }
    }

    /** TYPEDO: after the last block the rest of the byte is skipped; else there is a block header. */
    method DoType(r: Regs) returns (go: bool, r': Regs)
      requires Good(r) && mode == TYPE
      modifies `mode, `last, `lencode, `distcode, `lenbits, `distbits, `lit, `dst, codes, work
      ensures Good(r') && r'.put == r.put
      ensures Moved(go, old(Abs(r)), Abs(r'), Given(), Limit())
    {
      hide Good, Moved, Abs;
      if last {
        r' := DoLast(r);
        go := true;
      } else {
        go, r' := DoHeader(r);
      }
    }

    method DoLast(r: Regs) returns (r': Regs)
      requires Good(r) && mode == TYPE && last
      modifies `mode
      ensures Good(r') && r'.put == r.put
      ensures Moved(true, old(Abs(r)), Abs(r'), Given(), Limit())
    {
      hide Kept, BlockTables, Remembers, LengthsTable, Produced, At, Moved, PosOf, ByteBits;
      ghost var e := LastState(input, r, consumed, Abs(r), Limit());
      r' := ByteBits(r);
      AtPos(e, consumed, input, r');
      mode := DONE;
      KeptEnd(r'.bits);
      assert Abs(r') == e;
    }

    /** The three header bits of a block. */
    method DoHeader(r: Regs) returns (go: bool, r': Regs)
      requires Good(r) && mode == TYPE && !last
      modifies `mode, `last, `lencode, `distcode, `lenbits, `distbits, `lit, `dst, codes, work
      ensures Good(r') && r'.put == r.put
      ensures Moved(go, old(Abs(r)), Abs(r'), Given(), Limit())
    {
      hide Kept, BlockTables, Remembers, LengthsTable, PhaseNow, BlockOf, Produced, At, Moved, PosOf;
      KeptPlain(r.bits);
      PhaseIs();
      ghost var d := Abs(r);
      ghost var e;
      var final, kind;
      go, final, kind, r', e := TypeState(input, r, consumed, d, Limit());
      AtPos(e, consumed, input, r');
      if go {
        StartBlock(final, kind, d.(last := final, pos := e.pos), r'.bits);
      } else {
        KeptPlain(r'.bits);
      }
      assert Abs(r') == e;
    }

    /** Change state, keeping what was decoded of a length and distance. */
    method Enter(m: Mode, len: nat, off: nat, ext: nat)
      modifies `mode, `length, `offset, `extra
      ensures mode == m && length == len && offset == off && extra == ext
    {
      mode, length, offset, extra := m, len, off, ext;
    }

    /** Start to copy, or refuse the block. */
    method EnterCopy(bad: bool, len: nat, ghost held: nat)
      requires Remembers() && (!bad ==> held == 0)
      modifies `mode, `length, `offset, `extra
      ensures mode == (if bad then BAD else COPY) && length == len && Kept(held)
    {
      hide Remembers;
      Enter(if bad then BAD else COPY, len, offset, extra);
    }

    method DoStored(r: Regs) returns (go: bool, r': Regs)
      requires Good(r) && mode == STORED
      modifies `mode, `length, `offset, `extra
      ensures Good(r') && r'.put == r.put
      ensures Moved(go, old(Abs(r)), Abs(r'), Given(), Limit())
    {
      hide Kept, BlockTables, Remembers, LengthsTable, Sent, Produced, At, Moved, PosOf;
      KeptPlain(r.bits);
      ghost var e;
      var bad, len;
      go, bad, len, r', e := StoredState(input, r, consumed, Abs(r), Limit());
      AtPos(e, consumed, input, r');
      if go {
        EnterCopy(bad, len, r'.bits);
      } else {
        KeptPlain(r'.bits);
      }
      assert Abs(r') == e;
    }

    method DoTable(r: Regs) returns (go: bool, r': Regs)
      requires Good(r) && mode == TABLE
      modifies `mode, `nlen, `ndist, `ncode, `have
      ensures Good(r') && r'.put == r.put
      ensures Moved(go, old(Abs(r)), Abs(r'), Given(), Limit())
    {
      hide Kept, BlockTables, Remembers, LengthsTable, Sent, Produced, At, Moved, PosOf;
      KeptPlain(r.bits);
      ghost var e;
      var bad, nl, nd, nc;
      go, bad, nl, nd, nc, r', e := TableState(input, r, consumed, Abs(r), Limit());
      AtPos(e, consumed, input, r');
      if go {
        AtNcode(e, consumed, input, r');
        SentNone(lens[..]);
        EnterTable(bad, nl, nd, nc, r'.bits);
      } else {
        KeptPlain(r'.bits);
      }
      assert Abs(r') == e;
    }

    method EnterTable(bad: bool, nl: nat, nd: nat, nc: nat, ghost held: nat)
      requires Remembers() && (!bad ==> nc <= 19)
      modifies `mode, `nlen, `ndist, `ncode, `have
      ensures nlen == nl && ndist == nd && ncode == nc
      ensures (if bad then mode == BAD else mode == LENLENS && have == 0) && Kept(held)
    {
      hide Remembers;
      nlen, ndist, ncode := nl, nd, nc;
      if bad {
        mode := BAD;
      } else {
        have := 0;
        mode := LENLENS;
      }
    }

    // ---- literals, lengths and distances

    /** Change state within a block, or leave it. */
    method EnterInBlock(m: Mode, len: nat, off: nat, ext: nat, ghost held: nat)
      requires Remembers() && BlockTables() && (InBlockMode(m) || m == TYPE || m == BAD) && (m == LIT ==> len < 256)
      modifies `mode, `length, `offset, `extra
      ensures mode == m && length == len && offset == off && extra == ext && Kept(held)
    {
      hide Remembers, BlockTables;
      Enter(m, len, off, ext);
    }

    method DoLen(r: Regs) returns (go: bool, r': Regs)
      requires Good(r) && mode == LEN
      modifies `mode, `length, `offset, `extra
      ensures Good(r') && r'.put == r.put
      ensures Moved(go, old(Abs(r)), Abs(r'), Given(), Limit())
    {
      hide Kept, TableFor, Remembers, LengthsTable, Sent, Produced, At, Moved, PosOf, Bit, Low;
      KeptBlock(r.bits);
      ghost var e;
      var leaf;
      go, leaf, r', e := LenState(codes, lencode, lenbits, input, r, consumed, Abs(r), Limit());
      AtPos(e, consumed, input, r');
      if go {
        EnterInBlock(if leaf.op == 0 then LIT else if Bit(leaf.op, 5) then TYPE else if Bit(leaf.op, 6) then BAD else LENEXT,
                     leaf.val, offset, Low(leaf.op, 4), r'.bits);
      } else {
        KeptBlock(r'.bits);
      }
      assert Abs(r') == e;
    }

    method DoLenExt(r: Regs) returns (go: bool, r': Regs)
      requires Good(r) && mode == LENEXT
      modifies `mode, `length, `offset, `extra
      ensures Good(r') && r'.put == r.put
      ensures Moved(go, old(Abs(r)), Abs(r'), Given(), Limit())
    {
      hide Kept, BlockTables, Remembers, LengthsTable, Sent, Produced, At, Moved, PosOf;
      KeptBlock(r.bits);
      ghost var e;
      var v;
      go, v, r', e := ExtraState(input, r, extra, consumed, Abs(r), Limit());
      AtPos(e, consumed, input, r');
      if go {
        Enter(DIST, length + v, offset, extra);
      }
      KeptBlock(r'.bits);
      assert Abs(r') == e;
    }

    method DoDist(r: Regs) returns (go: bool, r': Regs)
      requires Good(r) && mode == DIST
      modifies `mode, `length, `offset, `extra
      ensures Good(r') && r'.put == r.put
      ensures Moved(go, old(Abs(r)), Abs(r'), Given(), Limit())
    {
      hide Kept, TableFor, Remembers, LengthsTable, Sent, Produced, At, Moved, PosOf, Bit, Low;
      KeptBlock(r.bits);
      ghost var e;
      var leaf;
      go, leaf, r', e := DistState(codes, distcode, distbits, input, r, consumed, Abs(r), Limit());
      AtPos(e, consumed, input, r');
      if go {
        EnterInBlock(if Bit(leaf.op, 6) then BAD else DISTEXT, length, leaf.val, Low(leaf.op, 4), r'.bits);
      } else {
        KeptBlock(r'.bits);
      }
      assert Abs(r') == e;
    }

    method DoDistExt(r: Regs) returns (go: bool, r': Regs)
      requires Good(r) && mode == DISTEXT
      modifies `mode, `length, `offset, `extra
      ensures Good(r') && r'.put == r.put
      ensures Moved(go, old(Abs(r)), Abs(r'), Given(), Limit())
    {
      hide Kept, BlockTables, Remembers, LengthsTable, Sent, Produced, At, Moved, PosOf;
      KeptBlock(r.bits);
      ghost var e;
      var v;
      go, v, r', e := ExtraState(input, r, extra, consumed, Abs(r), Limit());
      AtPos(e, consumed, input, r');
      if go {
        Enter(MATCH, length, offset + v, extra);
      }
      KeptBlock(r'.bits);
      assert Abs(r') == e;
    }

    // ---- output

    /** Stored bytes, as many as there are input and room for. */
    method DoCopy(r: Regs) returns (go: bool, r': Regs)
      requires Good(r) && mode == COPY
      modifies `mode, `length, output
      ensures Good(r') && r.put <= r'.put
      ensures Moved(go, old(Abs(r)), Abs(r'), Given(), Limit())
    {
      hide Good, Moved, Abs;
      GoodIs(r);
      if length == 0 {
        CopyDone(r);
        return true, r;
      }
      var copy := Min(length, Min(|input| - r.next, output.Length - r.put));
      if copy == 0 {
        CopyStuck(r);
        return false, r;
      }
      r' := CopySome(r, copy);
      return true, r';
    }

    /** The block is complete. */
    method CopyDone(r: Regs)
      requires Good(r) && mode == COPY && length == 0
      modifies `mode
      ensures Good(r) && Moved(true, old(Abs(r)), Abs(r), Given(), Limit())
    {
      hide Kept, BlockTables, Remembers, LengthsTable, Sent, Moved, Ok, Held;
      KeptCopy(r.bits);
      ghost var d := Abs(r);
      ghost var e := d.(phase := Header);
      StepsOnCopy(d, Given(), |d.out| < Limit());
      Stepped(d, e, consumed, input, r, Limit());
      mode := TYPE;
      KeptPlain(r.bits);
      assert Abs(r) == e;
    }

    /** No input, or no room. */
    lemma CopyStuck(r: Regs)
      requires Good(r) && mode == COPY && length > 0 && (r.next == |input| || r.put == output.Length)
      ensures Moved(false, Abs(r), Abs(r), Given(), Limit())
    {
      hide Kept, BlockTables, Remembers, LengthsTable, Sent, Moved, Ok, Held;
      KeptCopy(r.bits);
      ghost var d := Abs(r);
      StepsOnCopy(d, Given(), |d.out| < Limit());
      OutOfRoom(d, consumed, input, r, Limit());
    }

    method CopySome(r: Regs, copy: nat) returns (r': Regs)
      requires Good(r) && mode == COPY && r.next <= |input|
      requires 1 <= copy <= length && copy <= |input| - r.next && copy <= output.Length - r.put
      modifies `length, output
      ensures Good(r') && r.put <= r'.put
      ensures Moved(true, old(Abs(r)), Abs(r'), Given(), Limit())
    {
      hide Kept, BlockTables, Remembers, LengthsTable, Sent, Moved, Ok, Held;
      KeptCopy(r.bits);
      ghost var d := Abs(r);
      ghost var e := CopyMoves(d, consumed, input, r, copy, Limit());
      CopyIn(output, r.put, input[r.next..r.next + copy]);
      assert Produced(r.put + copy) == d.out + input[r.next..r.next + copy];
      length := length - copy;
      r' := r.(next := r.next + copy, put := r.put + copy);
      KeptCopy(r'.bits);
      assert Abs(r') == e;
    }

    method DoLit(r: Regs) returns (go: bool, r': Regs)
      requires Good(r) && mode == LIT
      modifies `mode, output
      ensures Good(r') && r.put <= r'.put
      ensures Moved(go, old(Abs(r)), Abs(r'), Given(), Limit())
    {
      hide Kept, BlockTables, Remembers, LengthsTable, Sent, Moved, At;
      KeptLit(r.bits);
      ghost var d, e := Abs(r), Abs(r);
      r' := r;
      go := r.put != output.Length;
      if go {
        e := LitMoves(d, consumed, input, r, Limit());
        output[r.put] := length;
        mode := LEN;
        r' := r.(put := r.put + 1);
        assert output[..r.put + 1] == output[..r.put] + [output[r.put]];
        assert Produced(r.put + 1) == d.out + [length];
      } else {
        LitStuck(d, Given());
        OutOfRoom(d, consumed, input, r, Limit());
      }
      if mode == LIT {
        KeptLit(r'.bits);
      } else {
        KeptBlock(r'.bits);
      }
      assert Abs(r') == e;
    }

    /** Copy n bytes of a match from the window, from index from on. */
    method CopyWindow(put: nat, n: nat, dist: nat, from: nat)
      requires Shape() && Remembers() && put + n <= output.Length && put < dist <= put + whave
      requires from == Source(wnext, dist - put).0 && n <= Source(wnext, dist - put).1
      modifies output
      ensures Repeats(old(Produced(put)), Produced(put + n), dist, n)
    {
      CopyOut(window, from, output, put, n);
      WindowRepeats(window[..], wsize, whave, wnext, history, output[..put], output[put..put + n], dist);
      assert Produced(put + n) == history + output[..put] + output[put..put + n];
    }

    /** Copy n bytes of a match from the output itself. */
    method CopyOutput(put: nat, n: nat, dist: nat)
      requires put + n <= output.Length && 1 <= dist <= put
      modifies output
      ensures Repeats(old(Produced(put)), Produced(put + n), dist, n)
    {
      ghost var was := Produced(put);
      CopyAgain(output, dist, put, n);
      assert Produced(put + n)[..|was|] == was;
    }

    /** As much of the match as one place holds and there is room for; false when it starts too far back. */
    method CopyPart(put: nat) returns (ok: bool, copy: nat)
      requires Shape() && Remembers() && put < output.Length && 1 <= length && 1 <= offset <= WSIZE
      modifies output
      ensures ok <==> offset <= |history| + put
      ensures !ok ==> Produced(put) == old(Produced(put))
      ensures ok ==> && 1 <= copy <= length && put + copy <= output.Length
                     && Repeats(old(Produced(put)), Produced(put + copy), offset, copy)
    {
      hide Holds, Repeats, Produced;
      TailLength(window[..], wsize, whave, wnext, history);
      copy := length;
      if offset > put {
        var back := offset - put;
        if back > whave {
          return false, 0;
        }
        copy := Min(Min(Source(wnext, back).1, length), output.Length - put);
        CopyWindow(put, copy, offset, Source(wnext, back).0);
      } else {
        copy := Min(copy, output.Length - put);
        CopyOutput(put, copy, offset);
      }
      return true, copy;
    }

    method DoMatch(r: Regs) returns (go: bool, r': Regs)
      requires Good(r) && mode == MATCH
      modifies `mode, `length, output
      ensures Good(r') && r.put <= r'.put
      ensures Moved(go, old(Abs(r)), Abs(r'), Given(), Limit())
    {
      hide Good, Moved, Abs;
      GoodIs(r);
      if r.put == output.Length {
        MatchWaits(r);
        return false, r;
      }
      r' := MatchOn(r);
      return true, r';
    }

    lemma MatchWaits(r: Regs)
      requires Good(r) && mode == MATCH && r.put == output.Length
      ensures Moved(false, Abs(r), Abs(r), Given(), Limit())
    {
      hide Kept, BlockTables, LengthsTable, Remembers, Sent, Moved, At;
      ghost var d := Abs(r);
      MatchStuck(d, Given());
      OutOfRoom(d, consumed, input, r, Limit());
    }

    method MatchOn(r: Regs) returns (r': Regs)
      requires Good(r) && mode == MATCH && r.put < output.Length
      modifies `mode, `length, output
      ensures Good(r') && r.put <= r'.put
      ensures Moved(true, old(Abs(r)), Abs(r'), Given(), Limit())
    {
      hide Kept, BlockTables, LengthsTable, Remembers, Sent, Moved, At, Repeats;
      KeptBlock(r.bits);
      ghost var d := Abs(r);
      MatchLimits(d, consumed, input, r);
      var ok, copy := CopyPart(r.put);
      if ok {
        r' := MatchTaken(r, copy, d);
      } else {
        assert Abs(r) == d;
        KeptBlock(r.bits);
        MatchFar(r);
        r' := r;
      }
    }

    /** The bytes are there: d is the state before they were. */
    method MatchTaken(r: Regs, copy: nat, ghost d: Dec) returns (r': Regs)
      requires Shape() && mode == MATCH && Remembers() && BlockTables() && At(d, consumed, input, r)
      requires r.put < output.Length && 0 <= PosOf(consumed, r) && |d.out| == |history| + r.put
      requires d == Dec(PhaseNow(), last, PosOf(consumed, r), d.out, lit, dst)
      requires 1 <= copy <= length && r.put + copy <= output.Length && Repeats(d.out, Produced(r.put + copy), offset, copy)
      requires offset <= |d.out|
      modifies `mode, `length
      ensures Good(r') && r.put <= r'.put
      ensures Moved(true, d, Abs(r'), Given(), Limit())
    {
      hide Kept, BlockTables, LengthsTable, Remembers, Sent, Moved, At, Repeats, Produced;
      ghost var e := MatchMoves(d, Produced(r.put + copy), consumed, input, r, copy, Limit());
      FinishMatch(copy, r.bits);
      r' := r.(put := r.put + copy);
      assert Abs(r') == e;
    }

    /** The match starts before the output. */
    method MatchFar(r: Regs)
      requires Good(r) && mode == MATCH && r.put < output.Length && |history| + r.put < offset
      modifies `mode
      ensures Good(r) && Moved(true, old(Abs(r)), Abs(r), Given(), Limit())
    {
      hide Kept, BlockTables, LengthsTable, Remembers, Sent, Moved, At, Produced;
      ghost var e := MatchTooFar(Abs(r), consumed, input, r, Limit());
      GiveUp(r.bits);
      assert Abs(r) == e;
    }

    method FinishMatch(copy: nat, ghost held: nat)
      requires mode == MATCH && copy <= length && Remembers() && BlockTables()
      modifies `mode, `length
      ensures length == old(length) - copy && mode == (if length == 0 then LEN else MATCH) && Kept(held)
    {
      hide Remembers, BlockTables;
      length := length - copy;
      if length == 0 {
        mode := LEN;
      }
    }

    method GiveUp(ghost held: nat)
      modifies `mode
      ensures mode == BAD && Kept(held)
    {
      mode := BAD;
      KeptEnd(held);
    }

    // ---- inflate_fast

    /** The three cases of a match that starts in the window, and the case that does not. */
    method FastCopy(put: nat, length: nat, dist: nat)
      requires Shape() && Remembers() && 3 <= length && put + length <= output.Length
      requires 1 <= dist <= |history| + put && (dist > put ==> dist <= put + whave)
      modifies output
      ensures Repeats(old(Produced(put)), Produced(put + length), dist, length)
    {
      hide Holds, Repeats, Produced;
      ghost var a := Produced(put);
      if dist <= put {
        CopyOutput(put, length, dist);
        return;
      }
      TailLength(window[..], wsize, whave, wnext, history);
      var op := dist - put;
      var from;
      if wnext == 0 {
        from := wsize - op;
      } else if wnext < op {
        from := wsize + wnext - op;
        op := op - wnext;
      } else {
        from := wnext - op;
      }
      if length <= op {
        CopyWindow(put, length, dist, from);
        return;
      }
      CopyWindow(put, op, dist, from);
      ghost var b := Produced(put + op);
      if put + op < dist {
        // the rest of the distance back is at the start of the window
        var more := Min(wnext, length - op);
        CopyWindow(put + op, more, dist, 0);
        RepeatsOn(a, b, Produced(put + op + more), dist, op, more);
        op := op + more;
        b := Produced(put + op);
      }
      if op < length {
        CopyOutput(put + op, length - op, dist);
        RepeatsOn(a, b, Produced(put + length), dist, op, length - op);
      }
    }

    /** One pass of the loop. */
    method FastSymbol(r: Regs) returns (r': Regs)
      requires Shape() && mode == LEN && BlockTables() && Remembers()
      requires r.next + 6 <= |input| && r.put + 258 <= output.Length && 0 <= PosOf(consumed, r)
      requires Fast(Abs(r), consumed, input, r)
      modifies `mode, output
      ensures r.next <= r'.next <= r.next + 6 && r.put <= r'.put <= r.put + 258 && 0 <= PosOf(consumed, r')
      ensures Fast(Abs(r'), consumed, input, r') && Advances(old(Abs(r)), Abs(r'), Given(), Limit())
      ensures mode == LEN || mode == TYPE || mode == BAD
      ensures PosOf(consumed, r) < PosOf(consumed, r')
    {
      hide Holds, Repeats, Fast, Advances, TableFor, PosOf, Source, Remembers;
      ghost var d := Abs(r);
      var found;
      ghost var e;
      found, r', e := FastNext(codes, lencode, lenbits, distcode, distbits, input, r, consumed, d, Limit());
      FastAt(e, consumed, input, r');
      match found {
        case Literal(b) =>
          r' := PutLiteral(r', b, d, e);
        case Pair(length, dist) =>
          r' := PutPair(r', length, dist, d, e);
        case EndOfBlock =>
          mode := TYPE;
          assert Abs(r') == e;
        case Broken =>
          mode := BAD;
          assert Abs(r') == e;
      }
    }

    /** A literal goes out: d is the state before its code was read, e the one after. */
    method PutLiteral(r: Regs, b: byte, ghost d: Dec, ghost e: Dec) returns (r': Regs)
      requires Shape() && mode == LEN && 0 <= PosOf(consumed, r) && r.put + 258 <= output.Length
      requires Abs(r) == d.(pos := PosOf(consumed, r)) && e == d.(phase := FoundPhase(Literal(b)), pos := e.pos)
      requires Fast(e, consumed, input, r) && Advances(d, e, Given(), Limit())
      modifies output
      ensures r' == r.(put := r.put + 1) && PosOf(consumed, r') == PosOf(consumed, r)
      ensures Fast(Abs(r'), consumed, input, r') && Advances(d, Abs(r'), Given(), Limit())
    {
      hide Fast, Advances, PosOf;
      FastAt(e, consumed, input, r);
      ghost var f := FastLit(d, e, consumed, input, r, Limit());
      output[r.put] := b;
      assert output[..r.put + 1] == output[..r.put] + [b];
      r' := r.(put := r.put + 1);
      assert Produced(r'.put) == d.out + [b];
      FastAt(f, consumed, input, r');
      assert Abs(r') == f;
    }
    /** A match goes out, unless it starts too far back. */
    method PutPair(r: Regs, length: nat, dist: nat, ghost d: Dec, ghost e: Dec) returns (r': Regs)
      requires Shape() && Remembers() && mode == LEN && 0 <= PosOf(consumed, r) && r.put + 258 <= output.Length
      requires Abs(r) == d.(pos := PosOf(consumed, r)) && e == d.(phase := Match(length, dist), pos := e.pos)
      requires Fast(e, consumed, input, r) && Advances(d, e, Given(), Limit()) && 3 <= length <= 258
      modifies `mode, output
      ensures r'.next == r.next && r.put <= r'.put <= r.put + 258 && PosOf(consumed, r') == PosOf(consumed, r)
      ensures Fast(Abs(r'), consumed, input, r') && Advances(d, Abs(r'), Given(), Limit())
      ensures mode == LEN || mode == BAD
    {
      hide Holds, Repeats, Fast, Advances, Source, Remembers;
      FarIs();
      FastLengths(e, consumed, input, r);
      FastAt(e, consumed, input, r);
      ghost var f;
      if dist > r.put + whave {
        f := FastTooFar(d, e, consumed, input, r, Limit());
        mode := BAD;
        r' := r;
      } else {
        FastCopy(r.put, length, dist);
        f := FastMatch(d, e, Produced(r.put + length), consumed, input, r, Limit());
        r' := r.(put := r.put + length);
      }
      FastAt(f, consumed, input, r');
      assert Abs(r') == f;
    }

    /** How far back a distance may go: the window has all that earlier calls wrote, up to its size. */
    lemma FarIs()
      requires Remembers()
      ensures whave == Min(|history|, WSIZE)
    {}

    /** Decode while there are six bytes of input and 258 bytes of room. */
    method FastLoop(r: Regs) returns (r': Regs)
      requires Shape() && mode == LEN && BlockTables() && Remembers()
      requires 6 <= |input| - r.next && 258 <= output.Length - r.put && 0 <= PosOf(consumed, r)
      requires Fast(Abs(r), consumed, input, r)
      modifies `mode, output
      ensures r.next <= r'.next && r.put <= r'.put <= output.Length && 0 <= PosOf(consumed, r')
      ensures Fast(Abs(r'), consumed, input, r') && Advances(old(Abs(r)), Abs(r'), Given(), Limit())
      ensures mode == LEN || mode == TYPE || mode == BAD
    {
      hide Remembers, BlockTables, Fast, Produced, PosOf, Advances, Abs;
      ghost var d := Abs(r);
      r' := FastSymbol(r);
      while mode == LEN && r'.next + 5 < |input| && r'.put + 257 < output.Length
        invariant r.next <= r'.next && r.put <= r'.put <= output.Length && 0 <= PosOf(consumed, r')
        invariant Fast(Abs(r'), consumed, input, r') && Advances(d, Abs(r'), Given(), Limit())
        invariant mode == LEN || mode == TYPE || mode == BAD
        decreases 8 * |Given()| - PosOf(consumed, r')
      {
        ghost var was := Abs(r');
        FastWithin(was, consumed, input, r');
        r' := FastSymbol(r');
        AdvancesOn(d, was, Abs(r'), Given(), Limit());
      }
    }

    /** inflate_fast: the loop, then whole bytes held go back to the input. */
    method InflateFast(r: Regs) returns (r': Regs)
      requires Good(r) && mode == LEN && 6 <= |input| - r.next && 258 <= output.Length - r.put
      modifies `mode, output
      ensures Good(r') && r.put <= r'.put && r.next <= r'.next && r'.bits < 8
      ensures Moved(true, old(Abs(r)), Abs(r'), Given(), Limit())
    {
      hide Kept, Remembers, BlockTables, Fast, At, Produced, PosOf, Advances, LengthsTable, Sent;
      KeptBlock(r.bits);
      ghost var d := Abs(r);
      FastStarts(d, consumed, input, r);
      r' := FastLoop(r);
      ghost var e := Abs(r');
      r' := GiveUnused(r', r, d, e);
      if mode == LEN {
        KeptBlock(r'.bits);
      } else if mode == TYPE {
        KeptPlain(r'.bits);
      } else {
        KeptEnd(r'.bits);
      }
      assert Abs(r') == e;
    }

    method GiveUnused(r: Regs, ghost r0: Regs, ghost d: Dec, ghost e: Dec) returns (r': Regs)
      requires At(d, consumed, input, r0) && d.phase.Len? && Advances(d, e, Given(), Limit())
      requires Fast(e, consumed, input, r) && r0.next <= r.next
      ensures At(e, consumed, input, r') && e.pos == PosOf(consumed, r') && r'.put == r.put && r0.next <= r'.next && r'.bits < 8
    {
      hide At, Advances, PosOf, Buffered, Ok;
      NotTooFarBack(d, e, consumed, input, r0, Limit());
      FastIs(e, consumed, input, r);
      r' := GiveBack(input, r, r0.next, consumed);
      FastEnds(e, consumed, input, r');
    }

    // ---- the history window

    /** updatewindow: put the last bytes of this call's output, copy in all, into the window. */
    method UpdateWindow(copy: nat)
      requires Shape() && copy <= output.Length
      modifies window, `wsize, `whave, `wnext
      ensures Shape() && wsize == WSIZE
      ensures old(Remembers()) ==> Holds(window[..], wsize, whave, wnext, history + output[..copy])
    {
      hide Holds;
      ghost var known := Remembers();
      if known {
        WindowStarts(window[..], wsize, whave, wnext, history);
      }
      if wsize == 0 {
        wsize, whave, wnext := WSIZE, 0, 0;
      }
      whave, wnext := WriteWindow(window, whave, wnext, output[..copy], history, known);
    }

    /** inflateGetDictionary: the window in order of writing. */
    method GetDictionary(dictionary: array<byte>) returns (length: nat)
      requires Shape() && Remembers() && dictionary != window && dictionary.Length >= WSIZE
      modifies dictionary
      ensures length == Min(|history|, WSIZE)
      ensures dictionary[..length] == history[|history| - length..]
    {
      hide Holds;
      WindowStarts(window[..], wsize, whave, wnext, history);
      length := ReadWindow(window, whave, wnext, dictionary, history);
    }

    // ---- the codes of a dynamic block

    /** One more length of the code length code. */
    method ReadLength(r: Regs) returns (go: bool, r': Regs)
      requires Good(r) && mode == LENLENS && have < ncode
      modifies lens, `have
      ensures Good(r') && mode == LENLENS && r'.put == r.put
      ensures Moved(go, old(Abs(r)), Abs(r'), Given(), Limit())
      ensures if go then have == old(have) + 1 else have == old(have)
    {
      hide Kept, BlockTables, Remembers, LengthsTable, Sent, Produced, At, Moved, PosOf;
      KeptLenLens(r.bits);
      ghost var e;
      var v;
      go, v, r', e := LenLensState(input, r, consumed, Abs(r), Limit());
      AtPos(e, consumed, input, r');
      if go {
        SentMore(lens[..], have, v);
        PutLength(v);
      }
      KeptLenLens(r'.bits);
      assert Abs(r') == e;
    }

    method PutLength(v: nat)
      requires lens.Length == 320 && have < 19 && Order[have] < 19
      modifies lens, `have
      ensures lens[..] == old(lens[..])[Order[old(have)] := v] && have == old(have) + 1
    {
      lens[Order[have]] := v;
      have := have + 1;
    }

    /** LENLENS: the lengths of the code length code, zeros for the rest, and its table. */
    method DoLenLens(r: Regs) returns (go: bool, r': Regs)
      requires Good(r) && mode == LENLENS
      modifies lens, work, codes, `have, `mode, `lencode, `lenbits, `clens
      ensures Good(r') && r'.put == r.put
      ensures Moved(go, old(Abs(r)), Abs(r'), Given(), Limit())
    {
      hide BlockTables, Remembers, LengthsTable, Sent, Produced, At, Moved, PosOf, Abs, Reaches;
      ghost var d0 := Abs(r);
      r' := r;
      ReachesSelf(d0, Given(), Limit());
      while have < ncode
        invariant Good(r') && mode == LENLENS && r'.put == r.put
        invariant Reaches(d0, Abs(r'), Given(), Limit())
        decreases ncode - have
      {
        ghost var d := Abs(r');
        go, r' := ReadLength(r');
        if !go {
          AlsoReaches(false, d0, d, Abs(r'), Given(), Limit());
          return;
        }
        MovedReaches(d0, d, Abs(r'), Given(), Limit());
      }
      ghost var d1 := Abs(r');
      LengthsRead(r');
      AlsoReaches(true, d0, d1, Abs(r'), Given(), Limit());
      return true, r';
    }

    /** All lengths are there: build the table. */
    method LengthsRead(r: Regs)
      requires Good(r) && mode == LENLENS && have == ncode
      modifies lens, work, codes, `have, `mode, `lencode, `lenbits, `clens
      ensures Good(r)
      ensures Moved(true, old(Abs(r)), Abs(r), Given(), Limit())
    {
      hide Kept, BlockTables, Remembers, LengthsTable, Sent, Produced, At, Moved, PosOf, Acceptable, CodeLengthCode, AllAtMost, CodesOk;
      KeptLenLens(r.bits);
      ghost var e := LenLensDone(Abs(r), consumed, input, r, Limit());
      LengthCodeTable();
      if mode == BAD {
        KeptEnd(r.bits);
      } else {
        KeptCodeLens(r.bits);
      }
      assert Abs(r) == e;
    }

    /** The table of the code length code, 7 bits at the root. */
    method LengthCodeTable()
      requires Shape() && have <= 19
      requires AllAtMost(CodeLengthCode(Sent(lens[..], have)), 7) && CodesOk(CODES, CodeLengthCode(Sent(lens[..], have)))
      modifies lens, work, codes, `have, `mode, `lencode, `lenbits, `clens
      ensures clens == CodeLengthCode(old(Sent(lens[..], have)))
      ensures if Acceptable(CODES, clens) then mode == CODELENS && have == 0 && LengthsTable() else mode == BAD
    {
      hide Sent, Decodes, Acceptable, CodeLengthCode, TableSize, RootBits, CodesOk;
      ZeroRest();
      var ret, next, root := InflateTable(CODES, lens[..19], codes, 0, 7, work);
      clens := lens[..19];
      lencode, lenbits := 0, root;
      if ret != 0 {
        mode := BAD;
      } else {
        have := 0;
        mode := CODELENS;
      }
    }

    /** One symbol of the code lengths. */
    method ReadCode(r: Regs) returns (go: bool, r': Regs)
      requires Good(r) && mode == CODELENS && have < nlen + ndist
      modifies lens, `have, `mode
      ensures Good(r') && r'.put == r.put
      ensures Moved(go, old(Abs(r)), Abs(r'), Given(), Limit())
      ensures if go then mode == BAD || (mode == CODELENS && have > old(have)) else mode == CODELENS
    {
      hide Kept, TableFor, BlockTables, Remembers, Sent, Produced, At, Moved, PosOf, Repeat;
      KeptCodeLens(r.bits);
      ghost var e;
      var bad, v, copy;
      CodeLensLimits(Abs(r), consumed, input, r);
      go, bad, v, copy, r', e := CodeLensState(codes, lencode, lenbits, input, r, have, if have > 0 then lens[have - 1] else 0,
                                               nlen + ndist, consumed, Abs(r), Limit());
      AtPos(e, consumed, input, r');
      if go {
        StoreRun(bad, v, copy, r'.bits);
      } else {
        KeptCodeLens(r'.bits);
      }
      assert Abs(r') == e;
    }

    method StoreRun(bad: bool, v: nat, copy: nat, ghost held: nat)
      requires mode == CODELENS && Remembers() && LengthsTable() && (have + copy <= lens.Length || bad)
      modifies lens, `have, `mode
      ensures bad ==> mode == BAD && have == old(have) && lens[..] == old(lens[..])
      ensures !bad ==> mode == CODELENS && have == old(have) + copy <= lens.Length
                       && lens[..have] == old(lens[..have]) + Repeat(v, copy)
      ensures Kept(held)
    {
      hide Remembers, LengthsTable, Repeat;
      PutRun(bad, v, copy);
    }

    /** Store a run of one length, or give up. */
    method PutRun(bad: bool, v: nat, copy: nat)
      requires have + copy <= lens.Length || bad
      modifies lens, `have, `mode
      ensures bad ==> mode == BAD && have == old(have) && lens[..] == old(lens[..])
      ensures !bad ==> mode == old(mode) && have == old(have) + copy <= lens.Length
                       && lens[..have] == old(lens[..have]) + Repeat(v, copy)
    {
      if bad {
        mode := BAD;
        return;
      }
      ghost var start, was := have, lens[..have];
      var left := copy;
      while left != 0
        invariant 0 <= left <= copy && have == start + copy - left && mode == old(mode)
        invariant lens[..have] == was + Repeat(v, copy - left)
      {
        lens[have] := v;
        have := have + 1;
        left := left - 1;
      }
    }

    /** CODELENS: all lengths of the two codes, and their tables. */
    method DoCodeLens(r: Regs) returns (go: bool, r': Regs)
      requires Good(r) && mode == CODELENS
      modifies lens, work, codes, `have, `mode, `lencode, `lenbits, `distcode, `distbits, `lit, `dst
      ensures Good(r') && r'.put == r.put
      ensures Moved(go, old(Abs(r)), Abs(r'), Given(), Limit())
    {
      hide Good, Moved, Abs, Reaches;
      GoodIs(r);
      ghost var d0 := Abs(r);
      r' := r;
      ReachesSelf(d0, Given(), Limit());
      while have < nlen + ndist
        invariant Good(r') && mode == CODELENS && r'.put == r.put
        invariant r'.put <= output.Length && 0 <= PosOf(consumed, r')
        invariant Reaches(d0, Abs(r'), Given(), Limit())
        decreases nlen + ndist - have
      {
        ghost var d := Abs(r');
        go, r' := ReadCode(r');
        GoodIs(r');
        if !go || mode == BAD {
          AlsoReaches(go, d0, d, Abs(r'), Given(), Limit());
          return;
        }
        MovedReaches(d0, d, Abs(r'), Given(), Limit());
      }
      ghost var d1 := Abs(r');
      CodesRead(r');
      AlsoReaches(true, d0, d1, Abs(r'), Given(), Limit());
      return true, r';
    }

    /** The registers in a good state. */
    lemma GoodIs(r: Regs)
      requires Good(r)
      ensures r.put <= output.Length && r.next <= |input| && 0 <= PosOf(consumed, r)
    {}

    /** All code lengths are there: build the tables. */
    method CodesRead(r: Regs)
      requires Good(r) && mode == CODELENS && have >= nlen + ndist
      modifies work, codes, `mode, `lencode, `lenbits, `distcode, `distbits, `lit, `dst
      ensures Good(r)
      ensures Moved(true, old(Abs(r)), Abs(r), Given(), Limit())
    {
      hide Kept, LengthsTable, BlockTables, Remembers, Sent, Produced, At, Moved, PosOf, AllAtMost, BlockCodesOk;
      KeptCodeLens(r.bits);
      CodeLensLimits(Abs(r), consumed, input, r);
      ghost var e := CodeLensDone(Abs(r), consumed, input, r, Limit());
      EnterBlock(r.bits);
      assert Abs(r) == e;
    }

    /** Make the tables and go on with the block, or give up. */
    method EnterBlock(ghost held: nat)
      requires Shape() && Sizes(nlen, ndist) && have == nlen + ndist && AllAtMost(lens[..have], MAXBITS) && Remembers()
      modifies work, codes, `mode, `lencode, `lenbits, `distcode, `distbits, `lit, `dst
      ensures if BlockCodesOk(lens[..have], nlen)
              then mode == LEN && lit == lens[..have][..nlen] && dst == lens[..have][nlen..]
              else mode == BAD && lit == old(lit) && dst == old(dst)
      ensures Kept(held)
    {
      hide Kept, BlockTables, Remembers, BlockCodesOk, AllAtMost;
      BlockCodeTables();
      if mode == BAD {
        KeptEnd(held);
      } else {
        KeptBlock(held);
      }
    }

    /** The literal/length table, 9 bits at the root. */
    method LitCodeTable() returns (ok: bool, next: nat)
      requires Shape() && nlen <= 286 && CodesOk(LENS, lens[..nlen])
      modifies work, codes, `lencode, `lenbits
      ensures ok <==> CodeFine(LENS, lens[..nlen], 9)
      ensures ok ==> TableFor(codes[..], lencode, lenbits, LENS, lens[..nlen])
      ensures ok ==> lencode + TableSize(lens[..nlen], lenbits) == next <= ENOUGH_LENS
    {
      hide Decodes, Acceptable, TableSize, RootBits, TooBig, CodesOk;
      RootSmall(lens[..nlen], 9);
      var ret, root;
      ret, next, root := InflateTable(LENS, lens[..nlen], codes, 0, 9, work);
      lencode, lenbits := 0, root;
      ok := ret == 0;
    }

    /** The distance table behind it, 6 bits at the root. */
    method DistCodeTable(next: nat, ghost litCode: seq<nat>) returns (ok: bool)
      requires Shape() && nlen + ndist <= 320 && ndist <= 30 && CodesOk(DISTS, lens[nlen..nlen + ndist])
      requires TableFor(codes[..], lencode, lenbits, LENS, litCode) && lencode + TableSize(litCode, lenbits) <= next <= ENOUGH_LENS
      modifies work, codes, `distcode, `distbits
      ensures ok <==> CodeFine(DISTS, lens[nlen..nlen + ndist], 6)
      ensures ok ==> TableFor(codes[..], lencode, lenbits, LENS, litCode)
      ensures ok ==> TableFor(codes[..], distcode, distbits, DISTS, lens[nlen..nlen + ndist])
    {
      hide Decodes, Acceptable, TableSize, RootBits, TooBig, CodesOk, TableFor;
      ghost var t := codes[..];
      RootSmall(lens[nlen..nlen + ndist], 6);
      var ret, end, root := InflateTable(DISTS, lens[nlen..nlen + ndist], codes, next, 6, work);
      distcode, distbits := next, root;
      ok := ret == 0;
      assert forall j :: 0 <= j < next ==> codes[..][j] == t[j];
      TableForKept(t, codes[..], lencode, lenbits, LENS, litCode);
      if ok {
        IsTableFor(codes[..], distcode, distbits, DISTS, lens[nlen..nlen + ndist]);
      }
    }

    /** The end-of-block code must be there; then the two tables. */
    method BlockCodeTables()
      requires Shape() && Sizes(nlen, ndist) && have == nlen + ndist && AllAtMost(lens[..have], MAXBITS)
      modifies work, codes, `mode, `lencode, `lenbits, `distcode, `distbits, `lit, `dst
      ensures if BlockCodesOk(lens[..have], nlen)
              then mode == LEN && lit == lens[..have][..nlen] && dst == lens[..have][nlen..] && BlockTables()
              else mode == BAD && lit == old(lit) && dst == old(dst)
    {
      hide CodeFine, TableSize, TableFor, BlockCodesOk, CodesOk, AllAtMost;
      ghost var ll := lens[..have];
      assert ll[..nlen] == lens[..nlen] && ll[nlen..] == lens[nlen..nlen + ndist] && ll[256] == lens[256];
      FineCodes(ll, nlen);
      mode := BAD;
      if lens[256] == 0 {
        return;
      }
      var ok, next := LitCodeTable();
      if !ok {
        return;
      }
      ok := DistCodeTable(next, ll[..nlen]);
      if !ok {
        return;
      }
      lit, dst := ll[..nlen], ll[nlen..];
      mode := LEN;
    }

    /** while (have < 19) lens[order[have++]] = 0 */
    method ZeroRest()
      requires lens.Length == 320 && have <= 19
      modifies lens, `have
      ensures lens[..19] == CodeLengthCode(old(Sent(lens[..], have)))
    {
      ghost var n, was := have, lens[..];
      while have < 19
        invariant n <= have <= 19
        invariant Sent(lens[..], n) == Sent(was, n)
        invariant forall i: nat :: n <= i < have ==> lens[Order[i]] == 0
      {
        OrderPlace(have);
        forall i: nat | i < 19 && i != have
          ensures Order[i] < 19 && Order[i] != Order[have]
        {
          OrderPlace(i);
        }
        lens[Order[have]] := 0;
        have := have + 1;
      }
      SentAll(lens[..], n, Sent(was, n));
    }

    // ---- inflate()

    /** One turn of the switch: fast or slow for LEN, as there is input and room. */
    method Pass(r: Regs) returns (go: bool, r': Regs)
      requires Good(r) && mode != DONE && mode != BAD
      modifies `mode, `last, `length, `offset, `extra, `nlen, `ndist, `ncode, `have, `lencode, `distcode, `lenbits, `distbits,
               `clens, `lit, `dst, lens, work, codes, output
      ensures Good(r') && r.put <= r'.put
      ensures Moved(go, old(Abs(r)), Abs(r'), Given(), Limit())
    {
      hide Good, Moved, Abs;
      match mode {
        case TYPE => go, r' := DoType(r);
        case STORED => go, r' := DoStored(r);
        case COPY => go, r' := DoCopy(r);
        case TABLE => go, r' := DoTable(r);
        case LENLENS => go, r' := DoLenLens(r);
        case CODELENS => go, r' := DoCodeLens(r);
        case LEN =>
          GoodIs(r);
          if 6 <= |input| - r.next && 258 <= output.Length - r.put {
            r' := InflateFast(r);
            go := true;
          } else {
            go, r' := DoLen(r);
          }
        case LENEXT => go, r' := DoLenExt(r);
        case DIST => go, r' := DoDist(r);
        case DISTEXT => go, r' := DoDistExt(r);
        case MATCH => go, r' := DoMatch(r);
        case LIT => go, r' := DoLit(r);
      }
    }

    /** Turns of the switch until the end, an error, or no more input or room. */
    method Run(r: Regs) returns (r': Regs)
      requires Good(r)
      modifies `mode, `last, `length, `offset, `extra, `nlen, `ndist, `ncode, `have, `lencode, `distcode, `lenbits, `distbits,
               `clens, `lit, `dst, lens, work, codes, output
      ensures Good(r') && r.put <= r'.put
      ensures Reaches(old(Abs(r)), Abs(r'), Given(), Limit()) && Stuck(Abs(r'), Given(), Limit())
    {
      hide Good, Moved, Abs, Reaches, Stuck, PhaseRank, Produced;
      GoodLimits(r);
      ghost var d0 := Abs(r);
      r' := r;
      ReachesSelf(d0, Given(), Limit());
      while mode != DONE && mode != BAD
        invariant Good(r') && r.put <= r'.put <= output.Length && 0 <= PosOf(consumed, r')
        invariant Reaches(d0, Abs(r'), Given(), Limit())
        decreases 8 * |Given()| - Abs(r').pos, Limit() - |Abs(r').out|, PhaseRank(Abs(r').phase)
      {
        ghost var d := Abs(r');
        GoodLimits(r');
        var go;
        go, r' := Pass(r');
        GoodLimits(r');
        if !go {
          MovedStuck(d0, d, Abs(r'), Given(), Limit());
          return;
        }
        MovedReaches(d0, d, Abs(r'), Given(), Limit());
        MovedCloser(d, Abs(r'), Given(), Limit());
      }
      EndsStuck(r');
    }

    lemma EndsStuck(r: Regs)
      requires Good(r) && (mode == DONE || mode == BAD)
      ensures Stuck(Abs(r), Given(), Limit())
    {}

    lemma GoodLimits(r: Regs)
      requires Good(r)
      ensures r.put <= output.Length && 0 <= PosOf(consumed, r) && Ok(Abs(r))
      ensures Abs(r).pos <= 8 * |Given()| && |Abs(r).out| <= Limit()
    {
      hide Held, Ok, Kept;
      BufferedFits(consumed, input, r);
    }

    /** The decoder state between calls. */
    ghost function State(): Dec
      reads `mode, `length, `offset, `extra, `nlen, `ndist, `ncode, `have, `clens, lens,
            `last, `consumed, `history, `bits, `lit, `dst
    {
      Dec(PhaseNow(), last, if bits <= 8 * |consumed| then 8 * |consumed| - bits else 0, history, lit, dst)
    }

    /** Between calls. */
    ghost predicate Valid()
      reads `mode, `last, `hold, `bits, `length, `offset, `extra, `nlen, `ndist, `ncode, `have, `lencode, `lenbits,
            `distcode, `distbits, `clens, `lit, `dst, `wsize, `whave, `wnext, `consumed, `history, lens, codes, window
    {
      && lens.Length == 320 && work.Length == 288 && lens != work && codes.Length == ENOUGH && window.Length == WSIZE
      && (wsize == 0 || wsize == WSIZE) && whave <= WSIZE && wnext < WSIZE
      && At(State(), consumed, [], Regs(0, hold, bits, 0))
      && Kept(bits)
    }

    /** inflateInit for a raw stream with the largest window. */
    constructor ()
      ensures Valid() && Remembers() && State() == Initial() && consumed == [] && history == []
      ensures fresh(lens) && fresh(work) && fresh(codes) && fresh(window)
    {
      mode, last, hold, bits := TYPE, false, 0, 0;
      length, offset, extra, nlen, ndist, ncode, have := 0, 0, 0, 0, 0, 0, 0;
      lens := new nat[320];
      work := new nat[288];
      codes := new Code[ENOUGH](_ => Code(0, 0, 0));
      lencode, distcode, lenbits, distbits := 0, 0, 0, 0;
      window := new byte[WSIZE];
      wsize, whave, wnext := 0, 0, 0;
      input, output := [], new byte[0];
      consumed, history, clens, lit, dst := [], [], [], [], [];
      new;
      StartsAt();
    }

    /** Update the window when it is in use, or when there is output that may be referred to. */
    method KeepWindow(put: nat, finish: bool)
      requires Shape() && put <= output.Length
      modifies `wsize, `whave, `wnext, window
      ensures Shape()
      ensures old(Remembers()) && (wsize != 0 || (mode != DONE && mode != BAD)) ==>
                Holds(window[..], wsize, whave, wnext, history + output[..put])
    {
      hide Holds;
      if wsize != 0 || (put != 0 && mode != BAD && (mode != DONE || !finish)) {
        UpdateWindow(put);
      } else {
        assert put == 0 ==> history + output[..put] == history;
      }
    }

    /** What Kept says, but for the window. */
    lemma KeptParts(held: nat)
      requires Kept(held)
      ensures (mode == CODELENS ==> LengthsTable() && have <= lens.Length) && (InBlockMode(mode) ==> BlockTables())
      ensures (mode == COPY ==> held == 0) && (mode == LIT ==> length < 256) && (mode == LENLENS ==> have <= ncode <= 19)
      ensures mode != DONE && mode != BAD ==> Remembers()
    {
      hide LengthsTable, BlockTables, Remembers;
    }

    /** RESTORE, and note what was used. */
    method Restore(r: Regs)
      requires r.put <= output.Length && r.next <= |input|
      requires (mode == CODELENS ==> LengthsTable() && have <= lens.Length) && (InBlockMode(mode) ==> BlockTables())
      requires (mode == COPY ==> r.bits == 0) && (mode == LIT ==> length < 256) && (mode == LENLENS ==> have <= ncode <= 19)
      requires mode != DONE && mode != BAD ==> Holds(window[..], wsize, whave, wnext, history + output[..r.put])
      modifies `hold, `bits, `consumed, `history
      ensures hold == r.hold && bits == r.bits && Kept(bits)
      ensures consumed == old(consumed) + input[..r.next] && history == old(history) + output[..r.put]
    {
      hide LengthsTable, BlockTables, Holds;
      hold, bits, consumed, history := r.hold, r.bits, consumed + input[..r.next], history + output[..r.put];
    }

    /** The end of a call. */
    method Leave(r: Regs, finish: bool)
      requires Good(r)
      modifies `hold, `bits, `consumed, `history, `wsize, `whave, `wnext, window
      ensures Valid() && State() == old(Abs(r))
      ensures consumed == old(consumed) + input[..r.next] && history == old(history) + output[..r.put]
      ensures old(Remembers()) && wsize != 0 ==> Remembers()
    {
      hide Holds, BlockTables, LengthsTable, At, PhaseNow, Kept;
      ghost var d := Abs(r);
      AtRest(d, consumed, input, r);
      KeptParts(r.bits);
      KeepWindow(r.put, finish);
      Restore(r);
      assert State() == d;
    }

    /** inflate(): decode inp into out until the end, an error, or one of them is used up. */
    method Inflate(inp: seq<byte>, out: array<byte>, finish: bool) returns (ret: Return, next: nat, put: nat)
      requires Valid() && out != window
      modifies this, lens, work, codes, window, out
      ensures Valid() && next <= |inp| && put <= out.Length
      ensures consumed == old(consumed) + inp[..next] && history == old(history) + out[..put]
      ensures Reaches(old(State()), State(), old(consumed) + inp, |old(history)| + out.Length)
      ensures Stuck(State(), old(consumed) + inp, |old(history)| + out.Length)
      ensures old(Remembers()) && wsize != 0 ==> Remembers()
      ensures ret == STREAM_END <==> State().phase.Finished?
      ensures ret == DATA_ERROR <==> State().phase.Bad?
      ensures ret == BUF_ERROR <==> ret != STREAM_END && ret != DATA_ERROR && (finish || (next == 0 && put == 0))
    {
      hide Good, Valid, Remembers, Abs, State, Reaches, Stuck;
      var r := Begin(inp, out);
      r := Run(r);
      ret, next, put := Outcome(r, finish);
      Leave(r, finish);
    }

    /** What inflate() returns: a call that got nothing done, or was asked to finish, reports it. */
    method Outcome(r: Regs, finish: bool) returns (ret: Return, next: nat, put: nat)
      requires Good(r)
      ensures next == r.next <= |input| && put == r.put <= output.Length && 0 <= PosOf(consumed, r)
      ensures ret == STREAM_END <==> Abs(r).phase.Finished?
      ensures ret == DATA_ERROR <==> Abs(r).phase.Bad?
      ensures ret == BUF_ERROR <==> ret != STREAM_END && ret != DATA_ERROR && (finish || (next == 0 && put == 0))
    {
      hide Ok, Kept, Held, Step;
      next, put := r.next, r.put;
      ret := if mode == DONE then STREAM_END else if mode == BAD then DATA_ERROR
             else if finish || (next == 0 && put == 0) then BUF_ERROR else OK;
    }

    /** LOAD */
    method Begin(inp: seq<byte>, out: array<byte>) returns (r: Regs)
      requires Valid() && out != window
      modifies `input, `output
      ensures input == inp && output == out && Good(r) && r.put == 0 && Abs(r) == old(State())
      ensures Remembers() == old(Remembers())
    {
      hide PhaseNow, At, Kept;
      ghost var d := State();
      input, output := inp, out;
      assert State() == d;
      r := Regs(0, hold, bits, 0);
      Starts();
    }

    lemma Starts()
      requires Valid() && output != window
      ensures Good(Regs(0, hold, bits, 0)) && Abs(Regs(0, hold, bits, 0)) == State()
    {
      hide PhaseNow, At, BlockTables, LengthsTable, Remembers;
      AtBeginning(State(), consumed, input, hold, bits);
      assert Produced(0) == history;
      assert Abs(Regs(0, hold, bits, 0)) == State();
    }

    lemma StartsAt()
      requires bits == 0 && hold == 0 && consumed == []
      requires State() == Initial()
      ensures At(State(), consumed, [], Regs(0, hold, bits, 0))
    {}
  }

  datatype Return = OK | STREAM_END | DATA_ERROR | BUF_ERROR

  lemma AtPos(d: Dec, before: seq<byte>, input: seq<byte>, r: Regs)
    requires At(d, before, input, r)
    ensures d.pos == PosOf(before, r)
  {}

  lemma FastAt(d: Dec, before: seq<byte>, input: seq<byte>, r: Regs)
    requires Fast(d, before, input, r)
    ensures d.pos == PosOf(before, r)
  {}

  lemma FastStarts(d: Dec, before: seq<byte>, input: seq<byte>, r: Regs)
    requires At(d, before, input, r)
    ensures Fast(d, before, input, r)
  {}

  lemma FastEnds(d: Dec, before: seq<byte>, input: seq<byte>, r: Regs)
    requires Ok(d) && Buffered(before, input, r) && d.pos == PosOf(before, r) && r.bits < 8
    ensures At(d, before, input, r)
  {}

  lemma AdvancesOn(d: Dec, e: Dec, f: Dec, all: seq<byte>, limit: nat)
    requires Advances(d, e, all, limit) && Advances(e, f, all, limit)
    ensures Advances(d, f, all, limit)
  {
    hide Reaches, Advances;
    AdvancesReaches(e, f, all, limit);
    AdvancesMore(d, e, f, all, limit);
  }

  lemma FastWithin(d: Dec, before: seq<byte>, input: seq<byte>, r: Regs)
    requires Fast(d, before, input, r)
    ensures PosOf(before, r) <= 8 * |before + input|
  {
    hide Held;
    BufferedFits(before, input, r);
  }

  lemma MovedStuck(d0: Dec, d: Dec, e: Dec, all: seq<byte>, limit: nat)
    requires Reaches(d0, d, all, limit) && Moved(false, d, e, all, limit)
    ensures Reaches(d0, e, all, limit) && Stuck(e, all, limit)
  {
    hide Reaches, Stuck;
    ReachesTrans(d0, d, e, all, limit);
  }

  lemma MovedCloser(d: Dec, e: Dec, all: seq<byte>, limit: nat)
    requires Ok(d) && d.pos <= 8 * |all| && Moved(true, d, e, all, limit)
    ensures Closer(d, e)
  {
    hide Advances, Ok, PhaseRank;
    AdvancesCloser(d, e, all, limit);
  }

  /** The registers at rest are those of a call that is over. */
  lemma AtRest(d: Dec, before: seq<byte>, input: seq<byte>, r: Regs)
    requires At(d, before, input, r)
    ensures r.next <= |input| && r.bits <= 8 * |before + input[..r.next]|
    ensures d.pos == 8 * |before + input[..r.next]| - r.bits
    ensures At(d, before + input[..r.next], [], Regs(0, r.hold, r.bits, 0))
  {
    hide Ok, Step, Peek;
    var c := before + input[..r.next];
    var none: seq<byte> := [];
    assert c + none[..0] == c;
  }

  /** And of one that begins. */
  lemma AtBeginning(d: Dec, before: seq<byte>, input: seq<byte>, hold: nat, bits: nat)
    requires At(d, before, [], Regs(0, hold, bits, 0))
    ensures At(d, before, input, Regs(0, hold, bits, 0)) && bits <= 8 * |before|
  {
    hide Ok, Step, Peek;
    var none: seq<byte> := [];
    assert before + none[..0] == before && before + input[..0] == before;
  }

  lemma CodeLensLimits(d: Dec, before: seq<byte>, input: seq<byte>, r: Regs)
    requires At(d, before, input, r) && d.phase.CodeLens?
    ensures Sizes(d.phase.nlen, d.phase.ndist) && |d.phase.ll| <= d.phase.nlen + d.phase.ndist
    ensures AllAtMost(d.phase.ll, MAXBITS)
  {}

  /** inflate_table makes a table for the code. */
  ghost predicate CodeFine(typ: CodeType, lens: seq<nat>, bits: nat)
    requires bits <= MAXBITS
  {
    Acceptable(typ, lens) && (RootSmall(lens, bits); !TooBig(typ, TableSize(lens, RootBits(lens, bits))))
  }

  lemma FineCodes(ll: seq<nat>, nlen: nat)
    requires 256 < nlen <= 286 && nlen <= |ll| <= nlen + 30 && AllAtMost(ll, MAXBITS)
    ensures BlockCodesOk(ll, nlen) <==> ll[256] != 0 && CodeFine(LENS, ll[..nlen], 9) && CodeFine(DISTS, ll[nlen..], 6)
    ensures CodesOk(LENS, ll[..nlen]) && CodesOk(DISTS, ll[nlen..])
  {
    hide Acceptable, TooBig, TableSize, RootBits;
  }

  lemma IsTableFor(t: seq<Code>, at: nat, root: nat, typ: CodeType, lens: seq<nat>)
    requires CodesOk(typ, lens) && Acceptable(typ, lens) && root <= MAXBITS && Decodes(t, at, root, typ, lens, TableSize(lens, root))
    ensures TableFor(t, at, root, typ, lens)
  {
    hide Acceptable, Decodes, TableSize, CodesOk;
  }

  lemma RootSmall(lens: seq<nat>, bits: nat)
    requires bits <= MAXBITS
    ensures RootBits(lens, bits) <= MAXBITS
  {}

  lemma AtNcode(d: Dec, before: seq<byte>, input: seq<byte>, r: Regs)
    requires At(d, before, input, r)
    ensures d.phase.LenLens? ==> d.phase.ncode <= 19
  {}
}
