/** Whole runs of deflate, and what a decoder makes of its tokens. */
module Compression {
  import opened Bits
  import opened BitStream
  import opened Decoder
  import opened DecoderRuns
  import opened InflateSteps
  import opened Lz77
  import opened Deflate

  /** The phase in which the decoder of section 3.2.3 of RFC 1951 carries a token out. */
  function PhaseOf(t: Token): Phase
  {
    match t
    case Literal(b) => Lit(b)
    case Pair(distance, length) => Match(length, distance)
  }

  /** A decoder that has put out what the tokens expand to, and carries out one more token, has put
      out what all of them expand to. */
  lemma DecoderExpands(tokens: seq<Token>, t: Token, d: Dec, inp: seq<byte>, limit: nat, maxDist: nat)
    requires WellFormed(tokens + [t], maxDist) && d.out == Expand(tokens) && d.phase == PhaseOf(t)
    requires |Expand(tokens + [t])| <= limit
    ensures Reaches(d, d.(phase := Len, out := Expand(tokens + [t])), inp, limit)
  {
    hide Again, Reaches, Advances;
    var ts := tokens + [t];
    assert ts[..|ts| - 1] == tokens;
    match t
    case Literal(b) =>
      ReachesOne(d, d.(phase := Len, out := d.out + [b]), inp, limit);
    case Pair(distance, length) =>
      AgainRepeats(d.out, distance, length);
      MatchRun(d, Again(d.out, distance, length), inp, limit, length);
      AdvancesReaches(d, d.(phase := Len, out := Expand(ts)), inp, limit);
  }

  /** Compress what arrives in chunks, with a flush asked for after each, and finish. */
  method Compress(chunks: seq<seq<byte>>, flushes: seq<Flush>, windowBits: nat, memLevel: nat, level: nat, choice: Choice)
    returns (tokens: seq<Token>)
    requires |flushes| == |chunks|
    requires 9 <= windowBits <= 15 && 1 <= memLevel <= 9 && 1 <= level <= 9
    ensures Expand(tokens) == Concat(chunks)
    ensures WellFormed(tokens, 32768)
  {
    hide Deflater.Valid, Expand, WellFormed;
    var z := new Deflater(windowBits, memLevel, level, choice);
    for i := 0 to |chunks|
      invariant fresh(z) && fresh(z.window) && fresh(z.head) && fresh(z.prev)
      invariant z.Valid() && z.Offered() == Concat(chunks[..i])
    {
      var _ := z.Deflate(chunks[i], flushes[i]);
      assert chunks[..i + 1][..i] == chunks[..i];
    }
    assert chunks[..|chunks|] == chunks;
    var state := BlockState.NeedMore;
    while state == BlockState.NeedMore
      invariant fresh(z) && fresh(z.window) && fresh(z.head) && fresh(z.prev)
      invariant z.Valid() && z.Offered() == Concat(chunks)
      invariant state != BlockState.NeedMore ==> Expand(z.tokens) == z.Offered() && WellFormed(z.tokens, z.MaxDist())
      decreases state == BlockState.NeedMore, |z.input| + z.lookahead
    {
      state := z.Deflate([], FINISH);
    }
    z.Distances();
    WiderIsFormed(z.tokens, z.MaxDist(), 32768);
    return z.tokens;
  }

  lemma {:induction false} WiderIsFormed(tokens: seq<Token>, a: nat, b: nat)
    requires WellFormed(tokens, a) && a <= b
    ensures WellFormed(tokens, b)
  {
    if tokens != [] {
      WiderIsFormed(tokens[..|tokens| - 1], a, b);
    }
  }
}
