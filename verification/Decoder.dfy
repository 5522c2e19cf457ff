/**
 A one-shot decoder of the deflate format (section 3.2.3 of RFC 1951), as a
 deterministic machine over the whole input: it reads bits by position, decodes
 canonical codes from their lengths and copies matches out of its own output.
 There are no tables, bit buffers or windows here.
 */
module Decoder {
  import opened Bits
  import opened Huffman
  import opened TableSpec
  import opened BitStream

  datatype Option<T> = None | Some(value: T)

  datatype Phase =
    | Header
    | Stored
    | Copy(length: nat)
    | Table
    | LenLens(nlen: nat, ndist: nat, ncode: nat, cl: seq<nat>)
    | CodeLens(nlen: nat, ndist: nat, clens: seq<nat>, ll: seq<nat>)
    | Len
    | LenExt(length: nat, extra: nat)
    | Dist(length: nat)
    | DistExt(length: nat, offset: nat, extra: nat)
    | Match(length: nat, offset: nat)
    | Lit(b: byte)
    | Finished
    | Bad

  /** pos is a bit position in the input; lit and dst are the code lengths of the current block. */
  datatype Dec = Dec(phase: Phase, last: bool, pos: nat, out: seq<byte>, lit: seq<nat>, dst: seq<nat>)

  /** Before any input. */
  function Initial(): Dec
  {
    Dec(Header, false, 0, [], [], [])
  }

  // ---- decoding one symbol

  datatype Symbol = Sym(s: nat) | Invalid | NeedMore

  /** The codeword of s is next in the input. */
  predicate Front(lens: seq<nat>, s: nat, inp: seq<byte>, pos: nat)
  {
    IsSym(lens, s) && pos + lens[s] <= 8 * |inp| && Peek(inp, pos, lens[s]) == Rev(lens[s], CodeOf(lens, s))
  }

  /** An incomplete code (at most one symbol, of one bit) has bits that start no codeword. */
  ghost function DecodeSym(lens: seq<nat>, inp: seq<byte>, pos: nat): (r: Symbol)
    ensures r.Sym? ==> IsSym(lens, r.s)
  {
    if exists s: nat :: Front(lens, s, inp, pos) then
      var s: nat :| Front(lens, s, inp, pos); Sym(s)
    else if Kraft(lens) < Pow2(MAXBITS) && pos < 8 * |inp| then Invalid
    else NeedMore
  }

  // ---- code lengths

  const Order: seq<nat> := [16, 17, 18, 0, 8, 7, 9, 6, 10, 5, 11, 4, 12, 3, 13, 2, 14, 1, 15]
  const Place: seq<nat> := [3, 17, 15, 13, 11, 9, 7, 5, 4, 6, 8, 10, 12, 14, 16, 18, 0, 1, 2]

  /** The code length code from the lengths that were sent, in the order they are sent. */
  function CodeLengthCode(cl: seq<nat>): (r: seq<nat>)
    ensures |r| == 19
  {
    seq(19, s requires 0 <= s < 19 => if Place[s] < |cl| then cl[Place[s]] else 0)
  }

  /** The fixed codes of section 3.2.6. */
  function FixedLit(): seq<nat>
  {
    Repeat(8, 144) + Repeat(9, 112) + Repeat(7, 24) + Repeat(8, 8)
  }

  function FixedDist(): seq<nat>
  {
    Repeat(5, 32)
  }

  /** Both codes of a dynamic block are good: there is an end-of-block code, and each set
      is accepted by the table builder, whose space is limited. */
  predicate BlockCodesOk(ll: seq<nat>, nlen: nat)
    requires 256 < nlen <= |ll|
  {
    var lit, dst := ll[..nlen], ll[nlen..];
    && ll[256] != 0
    && Acceptable(LENS, lit) && !TooBig(LENS, TableSize(lit, RootBits(lit, 9)))
    && Acceptable(DISTS, dst) && !TooBig(DISTS, TableSize(dst, RootBits(dst, 6)))
  }

  function Repeat(v: nat, n: nat): (r: seq<nat>)
    ensures |r| == n && forall i :: 0 <= i < n ==> r[i] == v
  {
    seq(n, _ => v)
  }

  // ---- lengths and distances (section 3.2.5): how many extra bits, and the first value

  function LengthBits(s: nat): nat
    requires 257 <= s < 286
  {
    if s < 265 || s == 285 then 0 else (s - 261) / 4
  }

  function LengthFirst(s: nat): nat
    requires 257 <= s < 286
  {
    if s < 265 then s - 254
    else if s == 285 then 258
    else 3 + Shl(4 + (s - 257) % 4, LengthBits(s))
  }

  function DistBits(s: nat): nat
  {
    if s < 4 then 0 else s / 2 - 1
  }

  function DistFirst(s: nat): nat
  {
    if s < 4 then s + 1 else 1 + Shl(2 + s % 2, DistBits(s))
  }

  // ---- one step per phase

  function Align(pos: nat): nat
  {
    (pos + 7) / 8 * 8
  }

  /** The two bits of the block type: stored, fixed codes, dynamic codes, or an error. */
  function BlockOf(d: Dec, kind: nat): Dec
  {
    match kind
    case 0 => d.(phase := Stored)
    case 1 => d.(phase := Len, lit := FixedLit(), dst := FixedDist())
    case 2 => d.(phase := Table)
    case _ => d.(phase := Bad)
  }

  function StepHeader(d: Dec, inp: seq<byte>): Option<Dec>
  {
    if d.last then Some(d.(phase := Finished, pos := Align(d.pos)))
    else if d.pos + 3 > 8 * |inp| then None
    else
      Some(BlockOf(d.(last := Peek(inp, d.pos, 1) == 1, pos := d.pos + 3), Peek(inp, d.pos + 1, 2)))
  }

  function StepStored(d: Dec, inp: seq<byte>): Option<Dec>
  {
    if d.pos != Align(d.pos) then Some(d.(pos := Align(d.pos)))
    else if d.pos + 32 > 8 * |inp| then None
    else
      var len, nlen := Peek(inp, d.pos, 16), Peek(inp, d.pos + 16, 16);
      if len + nlen != 0xffff then Some(d.(phase := Bad))
      else Some(d.(phase := Copy(len), pos := d.pos + 32))
  }

  function StepCopy(d: Dec, inp: seq<byte>, room: bool): Option<Dec>
    requires d.phase.Copy?
  {
    if d.phase.length == 0 then Some(d.(phase := Header))
    else if !room || d.pos + 8 > 8 * |inp| then None
    else Some(d.(phase := Copy(d.phase.length - 1), pos := d.pos + 8, out := d.out + [inp[d.pos / 8]]))
  }

  function StepTable(d: Dec, inp: seq<byte>): Option<Dec>
  {
    if d.pos + 14 > 8 * |inp| then None
    else
      var nlen, ndist, ncode := Peek(inp, d.pos, 5) + 257, Peek(inp, d.pos + 5, 5) + 1, Peek(inp, d.pos + 10, 4) + 4;
      var d' := d.(pos := d.pos + 14);
      if nlen > 286 || ndist > 30 then Some(d'.(phase := Bad))
      else Some(d'.(phase := LenLens(nlen, ndist, ncode, [])))
  }

  function StepLenLens(d: Dec, inp: seq<byte>): Option<Dec>
    requires d.phase.LenLens?
  {
    var p := d.phase;
    if |p.cl| < p.ncode then
      if d.pos + 3 > 8 * |inp| then None
      else Some(d.(phase := p.(cl := p.cl + [Peek(inp, d.pos, 3)]), pos := d.pos + 3))
    else
      var clens := CodeLengthCode(p.cl);
      if Acceptable(CODES, clens) then Some(d.(phase := CodeLens(p.nlen, p.ndist, clens, [])))
      else Some(d.(phase := Bad))
  }

  /** The symbols 16, 17, 18: how many more bits, the least repeat count, and what is repeated. */
  function RepeatBits(s: nat): nat { if s == 16 then 2 else if s == 17 then 3 else 7 }
  function RepeatLeast(s: nat): nat { if s == 18 then 11 else 3 }

  function AddLengths(d: Dec, inp: seq<byte>, bits: nat, s: nat): Option<Dec>
    requires d.phase.CodeLens? && d.pos + bits <= 8 * |inp|
  {
    var p := d.phase;
    if s < 16 then Some(d.(phase := p.(ll := p.ll + [s]), pos := d.pos + bits))
    else
      var n := RepeatBits(s);
      if d.pos + bits + n > 8 * |inp| then None
      else if s == 16 && |p.ll| == 0 then Some(d.(phase := Bad, pos := d.pos + bits))
      else
        var v := if s == 16 then p.ll[|p.ll| - 1] else 0;
        var copy := RepeatLeast(s) + Peek(inp, d.pos + bits, n);
        var d' := d.(pos := d.pos + bits + n);
        if |p.ll| + copy > p.nlen + p.ndist then Some(d'.(phase := Bad))
        else Some(d'.(phase := p.(ll := p.ll + Repeat(v, copy))))
  }

  ghost function StepCodeLens(d: Dec, inp: seq<byte>): Option<Dec>
    requires d.phase.CodeLens?
  {
    var p := d.phase;
    if |p.ll| < p.nlen + p.ndist then
      match DecodeSym(p.clens, inp, d.pos)
      case NeedMore => None
      // an empty code length code is not refused: each bit reads as a length of zero
      case Invalid => if d.pos + 1 <= 8 * |inp| then AddLengths(d, inp, 1, 0) else None
      case Sym(s) => AddLengths(d, inp, p.clens[s], s)
    else if 256 < p.nlen <= |p.ll| && BlockCodesOk(p.ll, p.nlen) then
      Some(d.(phase := Len, lit := p.ll[..p.nlen], dst := p.ll[p.nlen..]))
    else Some(d.(phase := Bad))
  }

  ghost function StepLen(d: Dec, inp: seq<byte>): Option<Dec>
  {
    match DecodeSym(d.lit, inp, d.pos)
    case NeedMore => None
    case Invalid => Some(d.(phase := Bad, pos := d.pos + 1))
    case Sym(s) =>
      var d' := d.(pos := d.pos + d.lit[s]);
      if s < 256 then Some(d'.(phase := Lit(s)))
      else if s == 256 then Some(d'.(phase := Header))
      else if s < 286 then Some(d'.(phase := LenExt(LengthFirst(s), LengthBits(s))))
      else Some(d'.(phase := Bad))
  }

  function StepLenExt(d: Dec, inp: seq<byte>): Option<Dec>
    requires d.phase.LenExt?
  {
    var n := d.phase.extra;
    if d.pos + n > 8 * |inp| then None
    else Some(d.(phase := Dist(d.phase.length + Peek(inp, d.pos, n)), pos := d.pos + n))
  }

  ghost function StepDist(d: Dec, inp: seq<byte>): Option<Dec>
    requires d.phase.Dist?
  {
    match DecodeSym(d.dst, inp, d.pos)
    case NeedMore => None
    case Invalid => Some(d.(phase := Bad, pos := d.pos + 1))
    case Sym(s) =>
      var d' := d.(pos := d.pos + d.dst[s]);
      if s < 30 then Some(d'.(phase := DistExt(d.phase.length, DistFirst(s), DistBits(s))))
      else Some(d'.(phase := Bad))
  }

  function StepDistExt(d: Dec, inp: seq<byte>): Option<Dec>
    requires d.phase.DistExt?
  {
    var n := d.phase.extra;
    if d.pos + n > 8 * |inp| then None
    else Some(d.(phase := Match(d.phase.length, d.phase.offset + Peek(inp, d.pos, n)), pos := d.pos + n))
  }

  function AfterMatch(length: nat, offset: nat): Phase
  {
    if length == 0 then Len else Match(length, offset)
  }

  function StepMatch(d: Dec, room: bool): Option<Dec>
    requires d.phase.Match?
  {
    var p := d.phase;
    if !room then None
    else if p.offset > |d.out| then Some(d.(phase := Bad))
    else if p.offset == 0 || p.length == 0 then None
    else Some(d.(phase := AfterMatch(p.length - 1, p.offset), out := d.out + [d.out[|d.out| - p.offset]]))
  }

  function StepLit(d: Dec, room: bool): Option<Dec>
    requires d.phase.Lit?
  {
    if !room then None else Some(d.(phase := Len, out := d.out + [d.phase.b]))
  }

  /** One step on the input there is, with or without room for a byte of output;
      None when more of one of them is needed, or at the end. */
  ghost function Step(d: Dec, inp: seq<byte>, room: bool): Option<Dec>
  {
    match d.phase
    case Header => StepHeader(d, inp)
    case Stored => StepStored(d, inp)
    case Copy(_) => StepCopy(d, inp, room)
    case Table => StepTable(d, inp)
    case LenLens(_, _, _, _) => StepLenLens(d, inp)
    case CodeLens(_, _, _, _) => StepCodeLens(d, inp)
    case Len => StepLen(d, inp)
    case LenExt(_, _) => StepLenExt(d, inp)
    case Dist(_) => StepDist(d, inp)
    case DistExt(_, _, _) => StepDistExt(d, inp)
    case Match(_, _) => StepMatch(d, room)
    case Lit(_) => StepLit(d, room)
    case Finished => None
    case Bad => None
  }
}
