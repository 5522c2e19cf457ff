/** deflate.c: the sliding window, the hash chains and the matchers of deflate. */
module Deflate {
  import opened Bits
  import opened BitStream
  import opened HashKey
  import opened Chains
  import opened Lz77
  import opened Matcher
  import opened Window

  /** What a call is to do at the end of its input. */
  datatype Flush = NO_FLUSH | SOME_FLUSH | FULL_FLUSH | FINISH

  datatype BlockState = NeedMore | BlockDone | FinishStarted | FinishDone

  /** The matcher that is used. */
  datatype Strategy = Fast | Slow | Rle | Huffman

  /** The strategy asked for. */
  datatype Choice = DEFAULT | FILTERED | HUFFMAN_ONLY | RLE | FIXED

  // The configuration table, by level from 1 on.
  const GOOD: seq<nat> := [0, 4, 4, 4, 4, 8, 8, 8, 32, 32]
  const LAZY: seq<nat> := [0, 4, 5, 6, 4, 16, 16, 32, 128, 258]
  const NICE: seq<nat> := [0, 8, 16, 32, 16, 32, 128, 128, 258, 258]
  const CHAIN: seq<nat> := [0, 4, 8, 32, 16, 32, 128, 256, 1024, 4096]

  /** Matches of length 3 are discarded if their distance exceeds this. */
  const TOO_FAR: nat := 4096

  /** A window as deflateInit2 makes it. */
  predicate WindowSize(w: nat)
  {
    512 <= w <= 32768
  }

  /** zmemcpy(window, window + w, n) */
  method MoveDown(window: array<byte>, w: nat, n: nat)
    requires n <= w && w + n <= window.Length
    modifies window
    ensures window[..n] == old(window[w..w + n])
  {
    var i := 0;
    while i < n
      invariant 0 <= i <= n
      invariant window[..i] == old(window[w..w + i])
      invariant window[w..] == old(window[w..])
    {
      assert old(window[w..])[i] == window[w..][i];
      window[i] := window[w + i];
      i := i + 1;
    }
  }

  /** slide_hash, on one of the two tables, from its end to its beginning. */
  method SlideTable(t: array<nat>, w: nat)
    modifies t
    ensures t[..] == SlidAll(old(t[..]), w)
  {
    var n := t.Length;
    while n != 0
      invariant 0 <= n <= t.Length
      invariant forall i :: 0 <= i < n ==> t[i] == old(t[i])
      invariant forall i :: n <= i < t.Length ==> t[i] == Slid(old(t[i]), w)
    {
      n := n - 1;
      t[n] := if t[n] >= w then t[n] - w else 0;
    }
  }

  /** CLEAR_HASH */
  method ClearTable(t: array<nat>)
    modifies t
    ensures forall i :: 0 <= i < t.Length ==> t[i] == 0
  {
    for n := 0 to t.Length
      invariant forall i :: 0 <= i < n ==> t[i] == 0
    {
      t[n] := 0;
    }
  }

  /** zmemcpy(window + at, bytes, |bytes|) */
  method Place(window: array<byte>, at: nat, bytes: seq<byte>)
    requires at + |bytes| <= window.Length
    modifies window
    ensures window[..at] == old(window[..at]) && window[at..at + |bytes|] == bytes
  {
    forall i | 0 <= i < |bytes| {
      window[at + i] := bytes[i];
    }
  }

  /** Input put behind the text lengthens it. */
  lemma TextLonger(w: seq<byte>, w': seq<byte>, s: seq<byte>, base: nat, bytes: seq<byte>)
    requires Text(w, s, base) && |w'| == |w| && |s| - base + |bytes| <= |w|
    requires var n := |s| - base; w'[..n] == w[..n] && w'[n..n + |bytes|] == bytes
    ensures Text(w', s + bytes, base)
  {
    var n := |s| - base;
    assert w'[..n + |bytes|] == w'[..n] + w'[n..n + |bytes|];
    assert (s + bytes)[base..] == s[base..] + bytes;
  }

  /** Moving the upper part of the window down moves the text. */
  lemma TextSlid(w: seq<byte>, w': seq<byte>, s: seq<byte>, base: nat, size: nat)
    requires Text(w, s, base) && |w'| == |w| && base + size <= |s| && |s| - base - size <= |w|
    requires w'[..|s| - base - size] == w[size..|s| - base]
    ensures Text(w', s, base + size)
  {
    assert w[..|s| - base][size..] == w[size..|s| - base];
    assert s[base..][size..] == s[base + size..];
  }

  /** Garbage beyond the text does not matter. */
  lemma TextKept(w: seq<byte>, w': seq<byte>, s: seq<byte>, base: nat)
    requires Text(w, s, base) && |w'| == |w| && w'[..|s| - base] == w[..|s| - base]
    ensures Text(w', s, base)
  {}

  /** deflate_state, with the input of the current call. */
  class Deflater {
    const wSize: nat
    const hashBits: nat
    const litBufsize: nat
    const window: array<byte>
    const prev: array<nat>
    const head: array<nat>

    const strategy: Strategy
    const filtered: bool
    const maxChain: int
    const maxLazy: nat
    const goodMatch: nat
    const niceMatch: nat

    var insH: nat
    var strstart: nat
    var lookahead: nat
    var insert: nat
    var matchLength: nat
    var prevLength: nat
    var matchStart: int
    var prevMatch: int
    var matchAvailable: bool
    var highWater: nat
    var lastLit: nat
    var input: seq<byte>

    // the tokens tallied so far, block after block
    var tokens: seq<Token>

    // all input read so far, the place of window[0] in it, the strings on the chains,
    // and how much of the input the tokens stand for
    ghost var stream: seq<byte>
    ghost var base: nat
    ghost var ins: set<nat>
    ghost var top: nat
    ghost var done: nat

    ghost predicate Shape()
    {
      && WindowSize(wSize) && KeyBits(hashBits) && 2 <= litBufsize
      && window.Length == 2 * wSize && prev.Length == wSize && head.Length == Pow2(hashBits) && head != prev
    }

    /** MAX_DIST */
    function MaxDist(): (d: nat)
    {
      if MIN_LOOKAHEAD <= wSize then wSize - MIN_LOOKAHEAD else 0
    }

    ghost predicate HasText()
      reads `stream, `base, window
    {
      Text(window[..], stream, base)
    }

    ghost predicate HasChains()
      reads `stream, `base, `ins, `top, head, prev
    {
      Linked(hashBits, stream, base, head[..], prev[..], ins, top)
    }

    /** The tokens stand for the stream up to done. */
    ghost predicate Told()
      reads `stream, `tokens, `done
    {
      done <= |stream| && Expand(tokens) == stream[..done] && WellFormed(tokens, MaxDist())
    }

    /** Where the next string is in the stream. */
    ghost function Pos(): nat
      reads `base, `strstart
    {
      base + strstart
    }

    ghost predicate Placed()
      reads `stream, `base, `strstart, `lookahead, `insert, `top, `highWater
    {
      && |stream| == Pos() + lookahead && insert <= strstart && insert < MIN_MATCH && top + insert <= Pos()
      && highWater <= 2 * wSize
    }

    /** The running key is ready for the string at i. */
    ghost predicate KeyReady(i: nat)
      reads `insH, `stream, `base
    {
      base + i + 1 < |stream| && Rolled(hashBits, insH, stream[base + i], stream[base + i + 1])
    }

    /** ... whenever the next string is there to be inserted. */
    ghost predicate Rolling()
      reads `insH, `stream, `base, `strstart, `lookahead, `insert
    {
      lookahead >= MIN_MATCH ==> insert == 0 && KeyReady(strstart)
    }

    // ---- the hash chains

    /** UPDATE_HASH and INSERT_STRING. */
    method InsertString(i: nat) returns (hashHead: nat)
      requires Shape() && HasText() && HasChains() && top <= base + i && base + i + 3 <= |stream| && KeyReady(i)
      modifies `insH, `ins, `top, head, prev
      ensures HasChains() && top == base + i + 1 && ins == old(ins) + {base + i} && KeyReady(i + 1)
      ensures hashHead != 0 ==> OnChain(hashBits, stream, base, ins, i, hashHead)
    {
      hide Linked, Text, Slot, Update, Pow2, Rolled, OnChain;
      ghost var h: seq<nat>, t: seq<nat> := head[..], prev[..];
      TextAt(window[..], stream, base, i + 2);
      RolledOn(hashBits, insH, stream[base + i], stream[base + i + 1], stream[base + i + 2]);
      Insert(hashBits, stream, base, h, t, ins, top, i);
      insH := Update(hashBits, insH, window[i + 2]);
      hashHead := head[insH];
      prev[Slot(i, wSize)] := hashHead;
      head[insH] := i;
      assert head[..] == h[insH := i] && prev[..] == t[Slot(i, wSize) := h[insH]];
      if hashHead != 0 {
        HeadOnChain(hashBits, stream, base, ins, i, hashHead);
      }
      ins, top := ins + {base + i}, base + i + 1;
    }

    // ---- the sliding window

    /** The upper half of the window becomes the lower half. */
    method SlideWindow()
      requires Shape() && HasText() && HasChains() && Placed() && wSize + MaxDist() <= strstart
      modifies window, head, prev, `matchStart, `strstart, `base
      ensures HasText() && HasChains() && Placed()
      ensures base == old(base) + wSize && strstart == old(strstart) - wSize && matchStart == old(matchStart) - wSize
    {
      hide Linked, Text, Pow2;
      TextFits(window[..], stream, base);
      var more := 2 * wSize - lookahead - strstart;
      ghost var w, h, t := window[..], head[..], prev[..];
      Slide(hashBits, stream, base, h, t, ins, top);
      MoveDown(window, wSize, wSize - more);
      TextSlid(w, window[..], stream, base, wSize);
      matchStart, strstart, base := matchStart - wSize, strstart - wSize, base + wSize;
      SlideTable(head, wSize);
      SlideTable(prev, wSize);
    }

    /** read_buf: as much input as fits behind the text. */
    method ReadBuf(more: nat)
      requires Shape() && HasText() && HasChains() && Placed() && more == 2 * wSize - lookahead - strstart
      modifies window, `lookahead, `stream, `input
      ensures HasText() && HasChains() && Placed()
      ensures var n := if |old(input)| > more then more else |old(input)|;
              input == old(input[n..]) && stream == old(stream) + old(input[..n])
    {
      hide Linked, Text;
      var n := if |input| > more then more else |input|;
      ghost var w, s := window[..], stream;
      Place(window, strstart + lookahead, input[..n]);
      TextLonger(w, window[..], s, base, input[..n]);
      Longer(hashBits, s, s + input[..n], base, head[..], prev[..], ins, top);
      lookahead, stream, input := lookahead + n, s + input[..n], input[n..];
    }

    /** Initialize the hash value now that there is some input, and insert the strings left over. */
    method InsertCarried()
      requires Shape() && HasText() && HasChains() && Placed()
      modifies `insH, `insert, `ins, `top, head, prev
      ensures HasChains() && Placed() && Rolling()
    {
      hide Linked, Text, Pow2, Rolled, Update;
      if lookahead + insert >= MIN_MATCH {
        var str := strstart - insert;
        TextAt(window[..], stream, base, str);
        TextAt(window[..], stream, base, str + 1);
        RolledAfresh(hashBits, window[str], window[str + 1]);
        insH := Update(hashBits, window[str], window[str + 1]);
        while insert != 0
          invariant HasChains() && Placed() && str == strstart - insert && KeyReady(str)
          invariant lookahead + insert >= MIN_MATCH || insert == 0
        {
          var _ := InsertString(str);
          str := str + 1;
          insert := insert - 1;
          if lookahead + insert < MIN_MATCH {
            break;
          }
        }
      }
    }

    /** Clear what longest_match may look at beyond the text, if it was never written. */
    method ClearAhead()
      requires Shape() && HasText() && Placed()
      modifies window, `highWater
      ensures HasText() && Placed()
    {
      hide Text;
      TextFits(window[..], stream, base);
      ghost var w := window[..];
      if highWater < 2 * wSize {
        var curr := strstart + lookahead;
        if highWater < curr {
          var init := Min(2 * wSize - curr, MAX_MATCH);
          Place(window, curr, seq(init, _ => 0));
          highWater := curr + init;
        } else if highWater < curr + MAX_MATCH {
          var init := Min(curr + MAX_MATCH - highWater, 2 * wSize - highWater);
          Place(window, highWater, seq(init, _ => 0));
          assert window[..curr] == window[..highWater][..curr];
          assert w[..curr] == w[..highWater][..curr];
          highWater := highWater + init;
        }
      }
      TextKept(w, window[..], stream, base);
    }

    /** Slide if the window is almost full. */
    method MakeRoom()
      requires Shape() && HasText() && HasChains() && Placed()
      modifies window, head, prev, `matchStart, `strstart, `base
      ensures HasText() && HasChains() && Placed() && (old(Rolling()) ==> Rolling())
      ensures Pos() == old(Pos()) && base + matchStart == old(base + matchStart)
      ensures strstart + MIN_LOOKAHEAD < 2 * wSize && strstart + lookahead <= 2 * wSize
      ensures strstart == old(strstart) || MaxDist() <= strstart
    {
      hide Text, Linked, Pow2, Rolled;
      TextFits(window[..], stream, base);
      if strstart >= wSize + MaxDist() {
        SlideWindow();
        TextFits(window[..], stream, base);
      }
    }

    /** Read what fits and insert the strings left over. */
    method ReadOn()
      requires Shape() && HasText() && HasChains() && Placed()
      requires input != [] && strstart + MIN_LOOKAHEAD < 2 * wSize && lookahead < MIN_LOOKAHEAD
      modifies window, head, prev, `lookahead, `stream, `input, `insH, `insert, `ins, `top
      ensures HasText() && HasChains() && Placed() && Rolling()
      ensures stream + input == old(stream + input) && old(stream) <= stream
      ensures |input| < |old(input)| && old(lookahead) <= lookahead
    {
      hide Text, Linked, Pow2, Rolled, Rolling;
      TextFits(window[..], stream, base);
      ghost var s, rest := stream, input;
      ReadBuf(2 * wSize - lookahead - strstart);
      Rejoin(s, rest, |rest| - |input|);
      InsertCarried();
    }

    /** fill_window: read until there is enough to look ahead at, or no more input. */
    method FillWindow()
      requires Shape() && HasText() && HasChains() && Placed() && lookahead < MIN_LOOKAHEAD
      modifies window, head, prev, `matchStart, `strstart, `base, `lookahead, `stream, `input, `insH, `insert, `ins, `top, `highWater
      ensures HasText() && HasChains() && Placed() && (old(Rolling()) ==> Rolling())
      ensures Pos() == old(Pos()) && base + matchStart == old(base + matchStart)
      ensures stream + input == old(stream + input) && old(stream) <= stream
      ensures lookahead >= MIN_LOOKAHEAD || input == []
      ensures strstart + MIN_LOOKAHEAD < 2 * wSize && old(lookahead) <= lookahead
      ensures old(strstart) <= strstart || MaxDist() <= strstart
    {
      hide HasText, HasChains, Placed, Rolling, Shape;
      while true
        invariant HasText() && HasChains() && Placed() && (old(Rolling()) ==> Rolling())
        invariant Pos() == old(Pos()) && base + matchStart == old(base + matchStart)
        invariant stream + input == old(stream + input) && old(stream) <= stream
        invariant lookahead < MIN_LOOKAHEAD && old(lookahead) <= lookahead
        invariant old(strstart) <= strstart || MaxDist() <= strstart
        decreases |input|
      {
        MakeRoom();
        if input == [] {
          break;
        }
        ReadOn();
        if lookahead >= MIN_LOOKAHEAD || input == [] {
          break;
        }
      }
      ClearAhead();
    }

    // ---- tokens and matches

    /** The bytes at p of the stream are those at m, not too far before. */
    ghost predicate Matches(p: int, m: int, len: nat)
      reads `stream
    {
      0 <= m < p && p - m <= MaxDist() && Same(stream, p, m, len)
    }

    /** A match kept for the next string (lazy matching) is one at the byte before it. */
    ghost predicate Carry()
      reads `stream, `base, `strstart, `lookahead, `matchLength, `matchStart, `matchAvailable
    {
      && matchLength <= MAX_MATCH && (matchAvailable ==> 1 <= strstart)
      && (matchLength >= MIN_MATCH ==>
            matchAvailable && matchLength - 1 <= lookahead && Matches(Pos() - 1, base + matchStart, matchLength))
    }

    lemma IsPlaced()
      requires Placed()
      ensures |stream| == Pos() + lookahead
    {}

    /** fill_window leaves what was tallied and what is carried as it is. */
    method Refill()
      requires Shape() && HasText() && HasChains() && Placed() && Told() && Carry() && lookahead < MIN_LOOKAHEAD
      modifies window, head, prev, `matchStart, `strstart, `base, `lookahead, `stream, `input, `insH, `insert, `ins, `top, `highWater
      ensures HasText() && HasChains() && Placed() && Told() && Carry() && (old(Rolling()) ==> Rolling())
      ensures Pos() == old(Pos()) && stream + input == old(stream + input) && old(stream) <= stream
      ensures lookahead >= MIN_LOOKAHEAD || input == []
      ensures strstart + MIN_LOOKAHEAD < 2 * wSize && |input| + lookahead == old(|input| + lookahead)
    {
      hide HasText, HasChains, Placed, Rolling, Expand, WellFormed, Same;
      ghost var s, p, m := stream, Pos() - 1, base + matchStart;
      IsPlaced();
      FillWindow();
      IsPlaced();
      assert |stream| + |input| == old(|stream + input|);
      assert stream[..done] == s[..done];
      if matchLength >= MIN_MATCH {
        SameLonger(s, stream, p, m, matchLength);
      }
    }

    /** _tr_tally_lit: true when the block is full. */
    method TallyLit(c: byte) returns (bflush: bool)
      requires Told() && done < |stream| && c == stream[done] && lastLit < litBufsize - 1
      modifies `tokens, `done, `lastLit
      ensures Told() && done == old(done) + 1 && tokens == old(tokens) + [Literal(c)]
      ensures lastLit == old(lastLit) + 1 && bflush == (lastLit == litBufsize - 1)
    {
      hide Expand, WellFormed;
      ExpandLiteral(tokens, stream, done, MaxDist());
      tokens, done, lastLit := tokens + [Literal(c)], done + 1, lastLit + 1;
      bflush := lastLit == litBufsize - 1;
    }

    /** _tr_tally_dist */
    method TallyDist(distance: nat, length: nat) returns (bflush: bool)
      requires Told() && Matches(done, done - distance, length) && MIN_MATCH <= length <= MAX_MATCH && lastLit < litBufsize - 1
      modifies `tokens, `done, `lastLit
      ensures Told() && done == old(done) + length && tokens == old(tokens) + [Pair(distance, length)]
      ensures lastLit == old(lastLit) + 1 && bflush == (lastLit == litBufsize - 1)
    {
      hide Expand, WellFormed, Same;
      SameWithin(stream, done, done - distance, length);
      ExpandPair(tokens, stream, done, distance, length, MaxDist());
      tokens, done, lastLit := tokens + [Pair(distance, length)], done + length, lastLit + 1;
      bflush := lastLit == litBufsize - 1;
    }

    /** FLUSH_BLOCK: the block goes out; whether the output buffer is full afterwards is not ours to say. */
    method FlushBlock() returns (full: bool)
      modifies `lastLit
      ensures lastLit == 0
    {
      lastLit := 0;
      full := *;
    }

    /** if (bflush) FLUSH_BLOCK */
    method FlushFull(bflush: bool) returns (full: bool)
      requires 2 <= litBufsize && lastLit <= litBufsize - 1 && bflush == (lastLit == litBufsize - 1)
      modifies `lastLit
      ensures lastLit < litBufsize - 1
    {
      full := false;
      if bflush {
        full := FlushBlock();
      }
    }

    /** How a call ends when all input is used: the last block, or the block so far if there is any. */
    method EndBlock(flush: Flush) returns (state: BlockState)
      requires 2 <= litBufsize
      modifies `lastLit
      ensures lastLit < litBufsize - 1
      ensures state == FinishDone || state == FinishStarted <==> flush == FINISH
    {
      var full;
      if flush == FINISH {
        full := FlushBlock();
        return if full then FinishStarted else FinishDone;
      }
      if lastLit != 0 {
        full := FlushBlock();
        if full {
          return NeedMore;
        }
      }
      return BlockDone;
    }

    /** The string at strstart is inserted if all its bytes are there. */
    ghost predicate Inserted()
      reads `insH, `stream, `base, `strstart, `lookahead, `insert, `top, `highWater
    {
      && |stream| == Pos() + lookahead && insert <= strstart && insert < MIN_MATCH && highWater <= 2 * wSize
      && if lookahead >= MIN_MATCH then insert == 0 && top == Pos() + 1 && KeyReady(strstart + 1) else top + insert <= Pos()
    }

    /** Insert the string window[strstart .. strstart + 2], and find the head of its chain. */
    method InsertNext() returns (hashHead: nat)
      requires Shape() && HasText() && HasChains() && Placed() && Rolling()
      modifies `insH, `ins, `top, head, prev
      ensures HasChains() && Inserted()
      ensures hashHead != 0 ==> lookahead >= MIN_MATCH && OnChain(hashBits, stream, base, ins, strstart, hashHead)
    {
      hide Linked, Text, Rolled, OnChain;
      hashHead := 0;
      if lookahead >= MIN_MATCH {
        hashHead := InsertString(strstart);
      }
    }

    /** longest_match for the next string. */
    method Search(hashHead: nat) returns (len: nat, start: int)
      requires Shape() && HasText() && HasChains() && Inserted() && lookahead >= MIN_MATCH
      requires OnChain(hashBits, stream, base, ins, strstart, hashHead) && strstart - hashHead <= MaxDist()
      requires strstart + MIN_LOOKAHEAD <= 2 * wSize && 1 <= prevLength <= MAX_MATCH
      ensures len <= lookahead && len <= MAX_MATCH && (prevLength <= len || len == lookahead)
      ensures prevLength < len ==> Matches(Pos(), base + start, len)
    {
      hide Linked, Text, Rolled, OnChain, Same;
      len, start := LongestMatch(window, prev, strstart, lookahead, hashHead, prevLength, matchStart, maxChain, goodMatch, niceMatch,
                                 hashBits, stream, base, head[..], ins);
    }

    /** A literal for the next byte. */
    method StepLiteral() returns (bflush: bool)
      requires Shape() && HasText() && Told() && (Inserted() || Placed()) && done == Pos() && lookahead > 0 && lastLit < litBufsize - 1
      modifies `tokens, `done, `lastLit, `strstart, `lookahead
      ensures Told() && Placed() && (old(Inserted()) ==> Rolling()) && done == Pos()
      ensures tokens == old(tokens) + [Literal(old(stream[done]))]
      ensures lookahead == old(lookahead) - 1
      ensures lastLit == old(lastLit) + 1 && bflush == (lastLit == litBufsize - 1)
    {
      hide Text, Rolled, Expand, WellFormed;
      TextAt(window[..], stream, base, strstart);
      bflush := TallyLit(window[strstart]);
      lookahead := lookahead - 1;
      strstart := strstart + 1;
    }

    // ---- deflate_fast

    /** Insert the strings of a match: do { strstart++; INSERT_STRING } while (--match_length != 0) */
    method InsertAll()
      requires Shape() && HasText() && HasChains() && 1 <= matchLength && top == Pos() + 1 && KeyReady(strstart + 1)
      requires Pos() + matchLength + MIN_MATCH <= |stream|
      modifies `strstart, `matchLength, `insH, `ins, `top, head, prev
      ensures HasChains() && strstart == old(strstart) + old(matchLength) && matchLength == 0
      ensures top == Pos() + 1 && KeyReady(strstart + 1)
    {
      hide HasText, HasChains, Rolled;
      while matchLength != 0
        invariant HasChains() && top == Pos() + 1 && KeyReady(strstart + 1)
        invariant strstart + matchLength == old(strstart) + old(matchLength)
        decreases matchLength
      {
        strstart := strstart + 1;
        var _ := InsertString(strstart);
        matchLength := matchLength - 1;
      }
    }

    /** Start the running key afresh behind a match that is not inserted. */
    method SkipMatch()
      requires Shape() && HasText() && strstart + matchLength + MIN_MATCH <= window.Length
      modifies `strstart, `matchLength, `insH
      ensures strstart == old(strstart) + old(matchLength) && matchLength == 0
      ensures base + strstart + MIN_MATCH <= |stream| ==> KeyReady(strstart)
    {
      hide Text, Rolled, Update;
      strstart := strstart + matchLength;
      matchLength := 0;
      insH := Update(hashBits, window[strstart], window[strstart + 1]);
      if base + strstart + MIN_MATCH <= |stream| {
        TextAt(window[..], stream, base, strstart);
        TextAt(window[..], stream, base, strstart + 1);
        RolledAfresh(hashBits, window[strstart], window[strstart + 1]);
      }
    }

    /** A match is taken at once; its strings are inserted only if it is not too long. */
    method FastMatch() returns (bflush: bool)
      requires Shape() && HasText() && HasChains() && Told() && Inserted() && done == Pos() && lastLit < litBufsize - 1
      requires strstart + MIN_LOOKAHEAD <= 2 * wSize
      requires MIN_MATCH <= matchLength <= MAX_MATCH && matchLength <= lookahead && Matches(Pos(), base + matchStart, matchLength)
      modifies `tokens, `done, `lastLit, `strstart, `lookahead, `matchLength, `insH, `ins, `top, head, prev
      ensures HasChains() && Told() && Placed() && Rolling() && done == Pos() && old(tokens) <= tokens
      ensures matchLength == 0 && lookahead < old(lookahead)
      ensures lastLit == old(lastLit) + 1 && bflush == (lastLit == litBufsize - 1)
    {
      hide HasText, HasChains, Rolled, Expand, WellFormed, Same;
      bflush := TallyDist(strstart - matchStart, matchLength);
      PassMatch();
    }

    /** Go to the end of the match at strstart. */
    method PassMatch()
      requires Shape() && HasText() && HasChains() && Inserted() && strstart + MIN_LOOKAHEAD <= 2 * wSize
      requires MIN_MATCH <= matchLength <= MAX_MATCH && matchLength <= lookahead
      modifies `strstart, `lookahead, `matchLength, `insH, `ins, `top, head, prev
      ensures HasChains() && Placed() && Rolling() && matchLength == 0
      ensures Pos() == old(Pos() + matchLength) && lookahead == old(lookahead - matchLength)
    {
      hide HasText, HasChains, Rolled;
      lookahead := lookahead - matchLength;
      if matchLength <= maxLazy && lookahead >= MIN_MATCH {
        matchLength := matchLength - 1;
        InsertAll();
        strstart := strstart + 1;
      } else {
        SkipMatch();
      }
    }

    ghost predicate FastReady()
      reads `stream, `base, window, `ins, `top, head, prev, `tokens, `done, `lastLit, `strstart, `lookahead, `insert, `highWater,
            `insH, `matchLength, `matchStart, `matchAvailable, `prevLength
    {
      && Shape() && HasText() && HasChains() && Told() && Placed() && Rolling() && Carry()
      && done == Pos() && lastLit < litBufsize - 1 && matchLength < MIN_MATCH && prevLength == MIN_MATCH - 1
    }

    /** One turn of the loop of deflate_fast, with enough to look ahead at: a match or a literal;
        true when the output is full. */
    method FastStep() returns (full: bool)
      requires FastReady() && !matchAvailable && 0 < lookahead && strstart + MIN_LOOKAHEAD <= 2 * wSize
      modifies `tokens, `done, `lastLit, `strstart, `lookahead, `matchLength, `matchStart, `insH, `ins, `top, head, prev
      ensures FastReady() && old(tokens) <= tokens && lookahead < old(lookahead)
    {
      hide HasText, HasChains, Told, Rolled, OnChain, Same, Placed, Rolling, Inserted;
      var hashHead := InsertNext();
      IsInserted();
      if hashHead != 0 && strstart - hashHead <= MaxDist() {
        matchLength, matchStart := Search(hashHead);
      }
      var bflush := FastTally();
      full := FlushFull(bflush);
    }

    /** A match or a literal, and on to the place after it. */
    method FastTally() returns (bflush: bool)
      requires Shape() && HasText() && HasChains() && Told() && Inserted() && done == Pos() && lastLit < litBufsize - 1
      requires strstart + MIN_LOOKAHEAD <= 2 * wSize && 0 < lookahead
      requires MIN_MATCH <= matchLength ==> matchLength <= MAX_MATCH && matchLength <= lookahead && Matches(Pos(), base + matchStart, matchLength)
      modifies `tokens, `done, `lastLit, `strstart, `lookahead, `matchLength, `insH, `ins, `top, head, prev
      ensures HasText() && HasChains() && Told() && Placed() && Rolling() && done == Pos() && old(tokens) <= tokens
      ensures matchLength < MIN_MATCH && lookahead < old(lookahead)
      ensures lastLit == old(lastLit) + 1 && bflush == (lastLit == litBufsize - 1)
    {
      hide HasText, HasChains, Told, Rolled, Same, Placed, Rolling, Inserted, Matches;
      IsInserted();
      if matchLength >= MIN_MATCH {
        bflush := FastMatch();
      } else {
        bflush := StepLiteral();
      }
    }

    lemma IsInserted()
      requires Inserted()
      ensures |stream| == Pos() + lookahead
    {}

    /** Make sure that there is enough lookahead, except at the end of the input. */
    method FastFill()
      requires FastReady() && !matchAvailable
      modifies `strstart, `lookahead, `matchStart, `insH, `ins, `top, head, prev, window, `base, `stream, `input, `insert, `highWater
      ensures FastReady() && strstart + MIN_LOOKAHEAD <= 2 * wSize
      ensures stream + input == old(stream + input) && old(stream) <= stream && |input| + lookahead == old(|input| + lookahead)
      ensures lookahead >= MIN_LOOKAHEAD || input == []
    {
      hide HasText, HasChains, Told, Placed, Rolling, Carry;
      if lookahead < MIN_LOOKAHEAD {
        Refill();
      } else {
        EnoughRoom();
      }
    }

    /** deflate_fast: no lazy matching. */
    method DeflateFast(flush: Flush) returns (state: BlockState)
      requires FastReady() && !matchAvailable
      modifies `tokens, `done, `lastLit, `strstart, `lookahead, `matchLength, `matchStart, `insH, `ins, `top, head, prev,
               window, `base, `stream, `input, `insert, `highWater
      ensures FastReady() && old(tokens) <= tokens
      ensures stream + input == old(stream + input) && old(stream) <= stream
      ensures state != NeedMore ==> input == [] && lookahead == 0
      ensures state == FinishDone || state == FinishStarted ==> flush == FINISH
      ensures state == BlockDone ==> flush != FINISH
      ensures state == NeedMore && flush == FINISH ==> |input| + lookahead < old(|input| + lookahead)
    {
      hide FastReady;
      while true
        invariant FastReady() && !matchAvailable && old(tokens) <= tokens
        invariant stream + input == old(stream + input) && old(stream) <= stream
        invariant |input| + lookahead <= old(|input| + lookahead)
        decreases |input| + lookahead
      {
        FastFill();
        if lookahead < MIN_LOOKAHEAD && flush == NO_FLUSH {
          return NeedMore;
        }
        if lookahead == 0 {
          break;
        }
        var full := FastStep();
        if full {
          return NeedMore;
        }
      }
      state := FastEnd(flush);
    }

    method FastEnd(flush: Flush) returns (state: BlockState)
      requires FastReady() && lookahead == 0
      modifies `insert, `lastLit
      ensures FastReady()
      ensures state == FinishDone || state == FinishStarted <==> flush == FINISH
    {
      hide HasText, HasChains, Told, Placed, Rolling, Carry;
      Carried();
      state := EndBlock(flush);
    }

    /** s->insert: at the end of the input the last two strings could not be inserted. */
    method Carried()
      requires Shape() && HasChains() && Placed() && Rolling() && lookahead == 0
      modifies `insert
      ensures Placed() && Rolling() && insert == Min(strstart, MIN_MATCH - 1)
    {
      hide Linked;
      TopLimit(hashBits, stream, base, head[..], prev[..], ins, top);
      insert := if strstart < MIN_MATCH - 1 then strstart else MIN_MATCH - 1;
    }

    lemma EnoughRoom()
      requires Shape() && HasText() && Placed()
      ensures strstart + lookahead <= 2 * wSize
    {
      hide Text;
      TextFits(window[..], stream, base);
    }

    // ---- deflate_slow

    /** The match at the previous string, kept while the next one is looked at. */
    ghost predicate Previous()
      reads `stream, `base, `strstart, `lookahead, `prevLength, `prevMatch, `matchAvailable
    {
      && prevLength <= MAX_MATCH && (matchAvailable ==> 1 <= strstart)
      && (prevLength >= MIN_MATCH ==>
            matchAvailable && prevLength - 1 <= lookahead && Matches(Pos() - 1, base + prevMatch, prevLength))
    }

    /** prev_length = match_length, prev_match = match_start; match_length = MIN_MATCH-1 */
    method KeepPrevious()
      requires Carry() && MIN_MATCH - 1 <= matchLength
      modifies `matchLength, `prevLength, `prevMatch
      ensures Previous() && MIN_MATCH - 1 <= prevLength && matchLength == MIN_MATCH - 1
    {
      hide Matches;
      prevLength, prevMatch := matchLength, matchStart;
      matchLength := MIN_MATCH - 1;
    }

    /** Find the longest match for the next string, if it may be better than the previous match. */
    method SlowFind()
      requires Shape() && HasText() && HasChains() && Placed() && Rolling() && Carry()
      requires 0 < lookahead && strstart + MIN_LOOKAHEAD <= 2 * wSize && MIN_MATCH - 1 <= matchLength
      modifies `matchLength, `matchStart, `prevLength, `prevMatch, `insH, `ins, `top, head, prev
      ensures HasChains() && Inserted() && Previous() && MIN_MATCH - 1 <= prevLength
      ensures MIN_MATCH - 1 <= matchLength <= MAX_MATCH
      ensures matchLength > prevLength ==> matchLength <= lookahead && Matches(Pos(), base + matchStart, matchLength)
    {
      hide HasText, HasChains, Rolled, OnChain, Same, Placed, Rolling, Inserted, Previous, Carry, Matches;
      KeepPrevious();
      PreviousShort();
      var hashHead := InsertNext();
      if hashHead != 0 && prevLength < maxLazy && strstart - hashHead <= MaxDist() {
        matchLength, matchStart := SearchLazily(hashHead);
      }
    }

    lemma PreviousShort()
      requires Previous()
      ensures prevLength <= MAX_MATCH && (matchAvailable ==> 1 <= strstart) && (prevLength >= MIN_MATCH ==> matchAvailable)
    {}

    /** longest_match, but short matches that are not worth it are discarded. */
    method SearchLazily(hashHead: nat) returns (len: nat, start: int)
      requires Shape() && HasText() && HasChains() && Inserted() && lookahead >= MIN_MATCH
      requires OnChain(hashBits, stream, base, ins, strstart, hashHead) && strstart - hashHead <= MaxDist()
      requires strstart + MIN_LOOKAHEAD <= 2 * wSize && MIN_MATCH - 1 <= prevLength <= MAX_MATCH
      ensures MIN_MATCH - 1 <= len <= MAX_MATCH
      ensures prevLength < len ==> len <= lookahead && Matches(Pos(), base + start, len)
    {
      hide HasText, HasChains, Inserted, OnChain, Matches;
      len, start := Search(hashHead);
      if len <= 5 && (filtered || (len == MIN_MATCH && strstart - start > TOO_FAR)) {
        len := MIN_MATCH - 1;
      }
    }

    /** Insert the strings of the previous match as far as all their bytes are there. */
    method InsertAlong(maxInsert: int)
      requires Shape() && HasText() && HasChains() && 1 <= prevLength && base + maxInsert + MIN_MATCH == |stream|
      requires top + insert <= Pos() + 1 && (strstart <= maxInsert ==> insert == 0 && KeyReady(strstart + 1))
      modifies `strstart, `prevLength, `insH, `ins, `top, head, prev
      ensures HasChains() && strstart == old(strstart) + old(prevLength) && prevLength == 0
      ensures top + insert <= Pos() + 1 && (strstart <= maxInsert ==> insert == 0 && KeyReady(strstart + 1))
    {
      hide HasText, HasChains, Rolled;
      while prevLength != 0
        invariant HasChains() && strstart + prevLength == old(strstart) + old(prevLength)
        invariant top + insert <= Pos() + 1 && (strstart <= maxInsert ==> insert == 0 && KeyReady(strstart + 1))
        decreases prevLength
      {
        strstart := strstart + 1;
        if strstart <= maxInsert {
          var _ := InsertString(strstart);
        }
        prevLength := prevLength - 1;
      }
    }

    /** Go to the end of the previous match; strstart - 1 and strstart are already inserted. */
    method PassPrevious()
      requires Shape() && HasText() && HasChains() && Inserted() && 1 <= strstart
      requires MIN_MATCH <= prevLength <= MAX_MATCH && prevLength - 1 <= lookahead
      modifies `strstart, `lookahead, `prevLength, `matchAvailable, `matchLength, `insH, `ins, `top, head, prev
      ensures HasChains() && Placed() && Rolling() && !matchAvailable && matchLength == MIN_MATCH - 1
      ensures Pos() == old(Pos() + prevLength - 1) && lookahead == old(lookahead - (prevLength - 1))
    {
      hide HasText, HasChains, Rolled;
      var maxInsert := strstart + lookahead - MIN_MATCH;
      lookahead := lookahead - (prevLength - 1);
      prevLength := prevLength - 2;
      InsertAlong(maxInsert);
      matchAvailable, matchLength := false, MIN_MATCH - 1;
      strstart := strstart + 1;
    }

    /** The previous match is taken. */
    method TakePrevious() returns (bflush: bool)
      requires Shape() && HasText() && HasChains() && Told() && Inserted() && Previous() && prevLength >= MIN_MATCH
      requires done + 1 == Pos() && lastLit < litBufsize - 1
      modifies `tokens, `done, `lastLit, `strstart, `lookahead, `prevLength, `matchAvailable, `matchLength, `insH, `ins, `top, head, prev
      ensures HasChains() && Told() && Placed() && Rolling() && !matchAvailable && matchLength == MIN_MATCH - 1
      ensures done == Pos() && old(tokens) <= tokens && lookahead < old(lookahead)
      ensures lastLit == old(lastLit) + 1 && bflush == (lastLit == litBufsize - 1)
    {
      hide HasText, HasChains, Rolled, Expand, WellFormed, Same, Inserted;
      bflush := TallyDist(strstart - 1 - prevMatch, prevLength);
      PassPrevious();
    }

    /** The pending byte is a literal after all. */
    method TallyPending() returns (bflush: bool)
      requires HasText() && Told() && done + 1 == Pos() <= |stream| && 1 <= strstart && lastLit < litBufsize - 1
      modifies `tokens, `done, `lastLit
      ensures Told() && done == Pos() && old(tokens) <= tokens
      ensures lastLit == old(lastLit) + 1 && bflush == (lastLit == litBufsize - 1)
    {
      hide Text, Expand, WellFormed;
      TextAt(window[..], stream, base, strstart - 1);
      bflush := TallyLit(window[strstart - 1]);
    }

    /** One string on. */
    method StepOn()
      requires Inserted() && 0 < lookahead
      requires matchLength >= MIN_MATCH ==> matchLength <= lookahead && Matches(Pos(), base + matchStart, matchLength)
      requires matchLength <= MAX_MATCH && matchAvailable
      modifies `strstart, `lookahead
      ensures Placed() && Rolling() && Carry() && Pos() == old(Pos()) + 1 && lookahead == old(lookahead) - 1
    {
      hide Rolled, Same;
      strstart, lookahead := strstart + 1, lookahead - 1;
    }

    /** Between turns: all is tallied but the pending byte, if there is one. */
    ghost predicate SlowPlace()
      reads `stream, `base, window, `ins, `top, head, prev, `tokens, `done, `strstart, `lookahead, `insert, `highWater,
            `insH, `matchLength, `matchStart, `matchAvailable
    {
      && Shape() && HasText() && HasChains() && Told() && Placed() && Rolling() && Carry()
      && done + (if matchAvailable then 1 else 0) == Pos() && MIN_MATCH - 1 <= matchLength
    }

    /** ... and the tally buffer has room. */
    ghost predicate SlowReady()
      reads `stream, `base, window, `ins, `top, head, prev, `tokens, `done, `lastLit, `strstart, `lookahead, `insert, `highWater,
            `insH, `matchLength, `matchStart, `matchAvailable
    {
      SlowPlace() && lastLit < litBufsize - 1
    }

    /** One turn of the loop of deflate_slow, with enough to look ahead at; true when the output is full. */
    method SlowStep() returns (full: bool)
      requires SlowReady() && 0 < lookahead && strstart + MIN_LOOKAHEAD <= 2 * wSize
      modifies `tokens, `done, `lastLit, `strstart, `lookahead, `matchLength, `matchStart, `prevLength, `prevMatch, `matchAvailable,
               `insH, `ins, `top, head, prev
      ensures SlowReady() && old(tokens) <= tokens && lookahead < old(lookahead)
    {
      hide HasText, HasChains, Told, Rolled, Same, Placed, Rolling, Inserted, Previous, Matches;
      SlowFind();
      PreviousShort();
      if prevLength >= MIN_MATCH && matchLength <= prevLength {
        full := TakeTurn();
      } else {
        full := WaitTurn();
      }
    }

    /** The turn in which the previous match is taken. */
    method TakeTurn() returns (full: bool)
      requires Shape() && HasText() && HasChains() && Told() && Inserted() && Previous() && prevLength >= MIN_MATCH
      requires done + 1 == Pos() && lastLit < litBufsize - 1
      modifies `tokens, `done, `lastLit, `strstart, `lookahead, `prevLength, `matchAvailable, `matchLength, `insH, `ins, `top, head, prev
      ensures SlowReady() && old(tokens) <= tokens && lookahead < old(lookahead)
    {
      hide HasText, HasChains, Told, Rolled, Same, Placed, Rolling, Inserted, Previous;
      var bflush := TakePrevious();
      full := FlushFull(bflush);
    }

    /** The turn in which the next string's match may still be better: the byte before it, if it is pending, is a literal. */
    method WaitTurn() returns (full: bool)
      requires Shape() && HasText() && HasChains() && Told() && Inserted() && lastLit < litBufsize - 1 && 0 < lookahead
      requires done + (if matchAvailable then 1 else 0) == Pos() && (matchAvailable ==> 1 <= strstart)
      requires MIN_MATCH - 1 <= matchLength <= MAX_MATCH
      requires matchLength >= MIN_MATCH ==> matchLength <= lookahead && Matches(Pos(), base + matchStart, matchLength)
      modifies `tokens, `done, `lastLit, `strstart, `lookahead, `matchAvailable
      ensures SlowReady() && old(tokens) <= tokens && lookahead < old(lookahead)
    {
      hide HasText, HasChains, Told, Rolled, Same, Placed, Rolling, Inserted, Matches;
      full := false;
      IsInserted();
      if matchAvailable {
        var bflush := TallyPending();
        if bflush {
          var _ := FlushBlock();
        }
        full := *;
      } else {
        matchAvailable := true;
      }
      StepOn();
    }

    /** Make sure that there is enough lookahead, except at the end of the input. */
    method SlowFill()
      requires SlowReady()
      modifies `strstart, `lookahead, `matchStart, `insH, `ins, `top, head, prev, window, `base, `stream, `input, `insert, `highWater
      ensures SlowReady() && strstart + MIN_LOOKAHEAD <= 2 * wSize
      ensures stream + input == old(stream + input) && old(stream) <= stream && |input| + lookahead == old(|input| + lookahead)
      ensures lookahead >= MIN_LOOKAHEAD || input == []
    {
      hide HasText, HasChains, Told, Placed, Rolling, Carry;
      if lookahead < MIN_LOOKAHEAD {
        Refill();
      } else {
        EnoughRoom();
      }
    }

    /** deflate_slow: a match is taken only if the next string has no better one. */
    method DeflateSlow(flush: Flush) returns (state: BlockState)
      requires SlowReady()
      modifies `tokens, `done, `lastLit, `strstart, `lookahead, `matchLength, `matchStart, `prevLength, `prevMatch, `matchAvailable,
               `insH, `ins, `top, head, prev, window, `base, `stream, `input, `insert, `highWater
      ensures SlowReady() && old(tokens) <= tokens
      ensures stream + input == old(stream + input) && old(stream) <= stream
      ensures state != NeedMore ==> input == [] && lookahead == 0 && !matchAvailable
      ensures state == FinishDone || state == FinishStarted ==> flush == FINISH
      ensures state == BlockDone ==> flush != FINISH
      ensures state == NeedMore && flush == FINISH ==> |input| + lookahead < old(|input| + lookahead)
    {
      hide SlowReady;
      while true
        invariant SlowReady() && old(tokens) <= tokens
        invariant stream + input == old(stream + input) && old(stream) <= stream
        invariant |input| + lookahead <= old(|input| + lookahead)
        decreases |input| + lookahead
      {
        SlowFill();
        if lookahead < MIN_LOOKAHEAD && flush == NO_FLUSH {
          return NeedMore;
        }
        if lookahead == 0 {
          break;
        }
        var full := SlowStep();
        if full {
          return NeedMore;
        }
      }
      LastLiteral();
      state := SlowEnd(flush);
    }

    method SlowEnd(flush: Flush) returns (state: BlockState)
      requires SlowPlace() && lookahead == 0
      modifies `insert, `lastLit
      ensures SlowReady()
      ensures state == FinishDone || state == FinishStarted <==> flush == FINISH
    {
      hide HasText, HasChains, Told, Placed, Rolling, Carry;
      Carried();
      state := EndBlock(flush);
    }

    /** At the end of the input a pending byte is a literal. */
    method LastLiteral()
      requires SlowReady() && lookahead == 0
      modifies `tokens, `done, `lastLit, `matchAvailable
      ensures SlowPlace() && !matchAvailable && old(tokens) <= tokens && lastLit < litBufsize
    {
      hide HasText, HasChains, Told, Rolling;
      if matchAvailable {
        var bflush := TallyPending();
        matchAvailable := false;
      }
    }

    // ---- deflate_rle and deflate_huff

    /** No strings are inserted and nothing is pending. */
    ghost predicate PlainReady()
      reads `stream, `base, window, `ins, `top, head, prev, `tokens, `done, `lastLit, `strstart, `lookahead, `insert, `highWater,
            `matchLength, `matchStart, `matchAvailable
    {
      && Shape() && HasText() && HasChains() && Told() && Placed() && Carry()
      && done == Pos() && lastLit < litBufsize - 1 && matchLength < MIN_MATCH && !matchAvailable
    }

    /** How often the previous byte repeats, as far as the text goes. */
    method FindRun() returns (len: nat)
      requires Shape() && HasText() && Placed() && strstart + MAX_MATCH < 2 * wSize
      ensures len == 0 || (MIN_MATCH <= len <= MAX_MATCH && len <= lookahead && 0 < strstart && Matches(Pos(), Pos() - 1, len))
      ensures forall n: nat :: MIN_MATCH <= n <= MAX_MATCH && 0 < strstart && RunAt(stream, Pos(), n) ==> n <= len
    {
      hide Text, Same, RunAt;
      RunWithin(stream, Pos());
      if lookahead >= MIN_MATCH && strstart > 0 {
        var prev := window[strstart - 1];
        if prev == window[strstart] && prev == window[strstart + 1] && prev == window[strstart + 2] {
          var n := RunOfByte(window, strstart);
          len := if n > lookahead then lookahead else n;
          TextSame(window[..], stream, base, strstart, strstart - 1, len, n);
          if n < MAX_MATCH {
            RunEnds(window[..], stream, base, strstart, Pos(), n);
          }
          return len;
        }
        NoRun(window[..], stream, base, strstart, Pos());
      }
      return 0;
    }

    /** Take a run as a match of distance one. */
    method TakeRun(len: nat) returns (bflush: bool)
      requires Shape() && HasText() && HasChains() && Told() && Placed() && !matchAvailable && done == Pos() && lastLit < litBufsize - 1
      requires MIN_MATCH <= len <= MAX_MATCH && len <= lookahead && 0 < strstart && Matches(Pos(), Pos() - 1, len)
      modifies `tokens, `done, `lastLit, `strstart, `lookahead, `matchLength
      ensures Told() && Placed() && Carry() && done == Pos() && matchLength == 0
      ensures lookahead < old(lookahead) && tokens == old(tokens) + [Pair(1, len)]
      ensures lastLit == old(lastLit) + 1 && bflush == (lastLit == litBufsize - 1)
    {
      hide HasText, HasChains, Told, Same;
      bflush := TallyDist(1, len);
      lookahead := lookahead - len;
      strstart := strstart + len;
      matchLength := 0;
    }

    /** One turn of the loop of deflate_rle: the longest run of the byte before, or a literal if it is too short; true
        when the output is full. */
    method RleStep() returns (full: bool)
      requires PlainReady() && 0 < lookahead && strstart + MAX_MATCH < 2 * wSize
      modifies `tokens, `done, `lastLit, `strstart, `lookahead, `matchLength
      ensures PlainReady()
      ensures |tokens| == |old(tokens)| + 1 && old(tokens) <= tokens && OneBack(tokens[|old(tokens)|])
      ensures var t := tokens[|old(tokens)|];
              forall n: nat :: MIN_MATCH <= n <= MAX_MATCH && 0 < old(strstart) && RunAt(stream, old(Pos()), n) ==>
                t.Pair? && n <= t.length
      ensures lookahead < old(lookahead)
    {
      hide HasText, HasChains, Told, Same, Placed, RunAt;
      var bflush;
      matchLength := FindRun();
      if matchLength >= MIN_MATCH {
        bflush := TakeRun(matchLength);
      } else {
        bflush := StepLiteral();
      }
      full := FlushFull(bflush);
    }

    /** deflate_rle: only matches of distance one. */
    method DeflateRle(flush: Flush) returns (state: BlockState)
      requires PlainReady()
      modifies `tokens, `done, `lastLit, `strstart, `lookahead, `matchLength, `matchStart, `insH, `ins, `top, head, prev,
               window, `base, `stream, `input, `insert, `highWater
      ensures PlainReady() && OneBackOnly(old(tokens), tokens)
      ensures stream + input == old(stream + input) && old(stream) <= stream
      ensures state != NeedMore ==> input == [] && lookahead == 0
      ensures state == FinishDone || state == FinishStarted ==> flush == FINISH
      ensures state == BlockDone ==> flush != FINISH
      ensures state == NeedMore && flush == FINISH ==> |input| + lookahead < old(|input| + lookahead)
    {
      hide HasText, HasChains, Told, Placed, Rolling, Carry, OneBackOnly;
      OnlyNone(tokens);
      var full;
      while true
        invariant PlainReady() && OneBackOnly(old(tokens), tokens)
        invariant stream + input == old(stream + input) && old(stream) <= stream
        invariant |input| + lookahead <= old(|input| + lookahead)
        decreases |input| + lookahead
      {
        if lookahead <= MAX_MATCH {
          Refill();
          if lookahead <= MAX_MATCH && flush == NO_FLUSH {
            return NeedMore;
          }
          if lookahead == 0 {
            break;
          }
        }
        EnoughRoom();
        ghost var was := tokens;
        full := RleStep();
        OnlyOneMore(old(tokens), was, tokens);
        if full {
          return NeedMore;
        }
      }
      NoneCarried();
      state := EndBlock(flush);
    }

    /** s->insert = 0 */
    method NoneCarried()
      requires Placed()
      modifies `insert
      ensures Placed() && insert == 0
    {
      insert := 0;
    }

    /** One turn of the loop of deflate_huff; true when the output is full. */
    method HuffStep() returns (full: bool)
      requires PlainReady() && 0 < lookahead
      modifies `tokens, `done, `lastLit, `strstart, `lookahead, `matchLength
      ensures PlainReady()
      ensures |tokens| == |old(tokens)| + 1 && old(tokens) <= tokens && tokens[|old(tokens)|].Literal?
      ensures lookahead < old(lookahead)
    {
      var bflush;
      hide HasText, HasChains, Told, Same, Placed, Inserted;
      matchLength := 0;
      bflush := StepLiteral();
      full := FlushFull(bflush);
    }

    /** deflate_huff: literals only. */
    method DeflateHuff(flush: Flush) returns (state: BlockState)
      requires PlainReady()
      modifies `tokens, `done, `lastLit, `strstart, `lookahead, `matchLength, `matchStart, `insH, `ins, `top, head, prev,
               window, `base, `stream, `input, `insert, `highWater
      ensures PlainReady() && LiteralsOnly(old(tokens), tokens)
      ensures stream + input == old(stream + input) && old(stream) <= stream
      ensures state != NeedMore ==> input == [] && lookahead == 0
      ensures state == FinishDone || state == FinishStarted ==> flush == FINISH
      ensures state == BlockDone ==> flush != FINISH
      ensures state == NeedMore && flush == FINISH ==> |input| + lookahead < old(|input| + lookahead)
    {
      hide HasText, HasChains, Told, Placed, Rolling, Carry, LiteralsOnly;
      OnlyNone(tokens);
      var full;
      while true
        invariant PlainReady() && LiteralsOnly(old(tokens), tokens)
        invariant stream + input == old(stream + input) && old(stream) <= stream
        invariant |input| + lookahead <= old(|input| + lookahead)
        decreases |input| + lookahead
      {
        if lookahead == 0 {
          Refill();
          if lookahead == 0 {
            if flush == NO_FLUSH {
              return NeedMore;
            }
            break;
          }
        }
        ghost var was := tokens;
        full := HuffStep();
        OnlyOneMore(old(tokens), was, tokens);
        if full {
          return NeedMore;
        }
      }
      NoneCarried();
      state := EndBlock(flush);
    }

    // ---- deflate()

    /** Between calls. */
    ghost predicate Valid()
      reads `stream, `base, window, `ins, `top, head, prev, `tokens, `done, `lastLit, `strstart, `lookahead, `insert, `highWater,
            `insH, `matchLength, `matchStart, `matchAvailable, `prevLength
    {
      match strategy
      case Fast => FastReady() && !matchAvailable
      case Slow => SlowReady()
      case _ => PlainReady()
    }

    /** All input offered so far, read or not. */
    ghost function Offered(): seq<byte>
      reads `stream, `input
    {
      stream + input
    }

    /** deflateInit2, with a window of 2^windowBits bytes. */
    constructor (windowBits: nat, memLevel: nat, level: nat, choice: Choice)
      requires 9 <= windowBits <= 15 && 1 <= memLevel <= 9 && 1 <= level <= 9
      ensures Valid() && Offered() == [] && tokens == [] && wSize == Pow2(windowBits)
      ensures fresh(window) && fresh(head) && fresh(prev)
    {
      wSize, hashBits, litBufsize := Pow2(windowBits), memLevel + 7, Pow2(memLevel + 6);
      window := new byte[2 * Pow2(windowBits)];
      prev := new nat[Pow2(windowBits)];
      var h := new nat[Pow2(memLevel + 7)];
      head := h;
      strategy := if choice == HUFFMAN_ONLY then Huffman else if choice == RLE then Rle else if level <= 3 then Fast else Slow;
      filtered := choice == FILTERED;
      goodMatch, maxLazy, niceMatch, maxChain := GOOD[level], LAZY[level], NICE[level], CHAIN[level];
      insH, strstart, lookahead, insert, highWater, lastLit := 0, 0, 0, 0, 0, 0;
      matchLength, prevLength, matchStart, prevMatch, matchAvailable := MIN_MATCH - 1, MIN_MATCH - 1, 0, 0, false;
      input, stream, base, ins, top, tokens, done := [], [], 0, {}, 0, [], 0;
      new;
      ClearTable(head);
      InitLimits(windowBits, memLevel);
      Cleared(hashBits, stream, base, head[..], prev[..]);
    }

    /** After a full flush no string before this point is found any more. */
    method ClearHash()
      requires Shape() && HasText() && Placed() && lookahead == 0
      modifies head, `strstart, `insert, `base, `ins, `top
      ensures HasText() && HasChains() && Placed() && Rolling() && Pos() == old(Pos())
    {
      hide Linked;
      ClearTable(head);
      ins, top := {}, 0;
      base := base + strstart;
      strstart, insert := 0, 0;
      Cleared(hashBits, stream, base, head[..], prev[..]);
    }

    /** The matcher for the strategy. */
    method Dispatch(flush: Flush) returns (state: BlockState)
      requires Valid()
      modifies this, window, head, prev
      ensures Valid() && Offered() == old(Offered()) && old(tokens) <= tokens
      ensures state != NeedMore ==> input == [] && lookahead == 0 && !matchAvailable
      ensures state == FinishDone || state == FinishStarted ==> flush == FINISH
      ensures state == BlockDone ==> flush != FINISH
      ensures state == NeedMore && flush == FINISH ==> |input| + lookahead < old(|input| + lookahead)
    {
      hide FastReady, SlowReady, PlainReady;
      match strategy {
        case Fast => state := DeflateFast(flush);
        case Slow => state := DeflateSlow(flush);
        case Rle =>
          state := DeflateRle(flush);
          PlainIs();
        case Huffman =>
          state := DeflateHuff(flush);
          PlainIs();
      }
    }

    lemma PlainIs()
      requires PlainReady()
      ensures !matchAvailable
    {}

    method AddInput(more: seq<byte>)
      requires Valid()
      modifies `input
      ensures Valid() && Offered() == old(Offered()) + more && |input| == |old(input)| + |more|
    {
      hide Valid;
      assert stream + (input + more) == stream + input + more;
      input := input + more;
    }

    method FullFlush()
      requires Valid() && lookahead == 0 && !matchAvailable
      modifies head, `strstart, `insert, `base, `ins, `top
      ensures Valid()
    {
      hide HasText, HasChains, Told, Rolling, Placed;
      ClearHash();
    }

    lemma Distances()
      requires Valid()
      ensures MaxDist() <= 32768
    {}

    /** What the tokens mean between calls. */
    lemma Meaning()
      requires Valid()
      ensures Expand(tokens) <= Offered() && WellFormed(tokens, MaxDist())
      ensures |Offered()| == |Expand(tokens)| + |input| + lookahead + (if matchAvailable then 1 else 0)
    {
      hide HasText, HasChains, Rolling, Expand, WellFormed;
    }

    /** deflate(), for one call: more input is offered, and what was not read before with it. */
    method Deflate(more: seq<byte>, flush: Flush) returns (state: BlockState)
      requires Valid()
      modifies this, window, head, prev
      ensures Valid() && Offered() == old(Offered()) + more && old(tokens) <= tokens
      ensures Expand(tokens) <= Offered() && WellFormed(tokens, MaxDist())
      ensures |Offered()| == |Expand(tokens)| + |input| + lookahead + (if matchAvailable then 1 else 0)
      ensures state == BlockDone || state == FinishStarted || state == FinishDone ==> Expand(tokens) == Offered()
      ensures flush == FINISH ==> state != BlockDone
      ensures state == NeedMore && flush == FINISH ==> |input| + lookahead < old(|input| + lookahead) + |more|
    {
      hide Valid, Expand, WellFormed;
      AddInput(more);
      state := NeedMore;
      if input != [] || lookahead != 0 || flush != NO_FLUSH {
        state := Dispatch(flush);
        if state == BlockDone && flush == FULL_FLUSH {
          FullFlush();
        }
      }
      Meaning();
    }
  }

  lemma SameLonger(s: seq<byte>, t: seq<byte>, a: nat, b: nat, n: nat)
    requires Same(s, a, b, n) && s <= t
    ensures Same(t, a, b, n)
  {
    assert t[a..a + n] == s[a..a + n] && t[b..b + n] == s[b..b + n];
  }

  predicate OneBack(t: Token)
  {
    t.Pair? ==> t.distance == 1
  }

  /** More tokens, none of them with a distance other than one. */
  predicate OneBackOnly(before: seq<Token>, after: seq<Token>)
  {
    before <= after && forall k :: |before| <= k < |after| ==> OneBack(after[k])
  }

  predicate LiteralsOnly(before: seq<Token>, after: seq<Token>)
  {
    before <= after && forall k :: |before| <= k < |after| ==> after[k].Literal?
  }

  lemma OnlyOneMore(before: seq<Token>, mid: seq<Token>, after: seq<Token>)
    requires mid <= after && |after| == |mid| + 1
    ensures OneBackOnly(before, mid) && OneBack(after[|mid|]) ==> OneBackOnly(before, after)
    ensures LiteralsOnly(before, mid) && after[|mid|].Literal? ==> LiteralsOnly(before, after)
  {}

  lemma OnlyNone(tokens: seq<Token>)
    ensures OneBackOnly(tokens, tokens) && LiteralsOnly(tokens, tokens)
  {}

  /** The byte before p repeats n times from p on. */
  ghost predicate RunAt(s: seq<byte>, p: nat, n: nat)
  {
    0 < p && Same(s, p, p - 1, n)
  }

  lemma RunEnds(w: seq<byte>, s: seq<byte>, base: nat, start: nat, p: nat, n: nat)
    requires p == base + start && Text(w, s, base) && 0 < start && start + n < |w| && w[start + n] != w[start - 1]
    requires w[start..start + n] == w[start - 1..start - 1 + n]
    ensures forall m: nat :: n < m ==> !RunAt(s, p, m)
  {
    hide Text, RunAt;
    forall m: nat | n < m
      ensures !RunAt(s, p, m)
    {
      Ended(w, s, base, start, n, m);
    }
  }

  lemma Ended(w: seq<byte>, s: seq<byte>, base: nat, start: nat, n: nat, m: nat)
    requires Text(w, s, base) && 0 < start && start + n < |w| && w[start + n] != w[start - 1]
    requires w[start..start + n] == w[start - 1..start - 1 + n]
    requires n < m
    ensures !RunAt(s, base + start, m)
  {
    hide Text;
    var a, b := base + start, base + start - 1;
    if a + m <= |s| {
      TextAt(w, s, base, start + n);
      TextAt(w, s, base, start - 1 + n);
      assert w[start - 1 + n] == w[start - 1] by { RunIsConstant(w, start, n); }
      assert s[a..a + m][n] == s[a + n] && s[b..b + m][n] == s[b + n];
    }
  }

  lemma {:induction false} RunIsConstant(w: seq<byte>, start: nat, n: nat)
    requires 0 < start && start + n <= |w| && w[start..start + n] == w[start - 1..start - 1 + n]
    ensures w[start - 1 + n] == w[start - 1]
    decreases n
  {
    if n > 0 {
      assert w[start..start + n][n - 1] == w[start - 1..start - 1 + n][n - 1];
      assert w[start..start + n][..n - 1] == w[start..start + (n - 1)];
      assert w[start - 1..start - 1 + n][..n - 1] == w[start - 1..start - 1 + (n - 1)];
      RunIsConstant(w, start, n - 1);
    }
  }

  /** No run is longer than the text. */
  lemma RunWithin(s: seq<byte>, p: nat)
    ensures forall m: nat :: RunAt(s, p, m) ==> p + m <= |s|
  {}

  lemma NoRun(w: seq<byte>, s: seq<byte>, base: nat, start: nat, p: nat)
    requires p == base + start && Text(w, s, base) && 0 < start && base + start + 3 <= |s| && start + 3 <= |w|
    requires w[start] == w[start + 1] == w[start + 2] ==> w[start] != w[start - 1]
    ensures forall m: nat :: 3 <= m ==> !RunAt(s, p, m)
  {
    hide Text;
    TextAt(w, s, base, start - 1);
    TextAt(w, s, base, start);
    TextAt(w, s, base, start + 1);
    TextAt(w, s, base, start + 2);
    var a, b := base + start, base + start - 1;
    forall m: nat | 3 <= m && a + m <= |s|
      ensures !RunAt(s, a, m)
    {
      assert s[a..a + m][0] == s[a] && s[b..b + m][0] == s[b];
      assert s[a..a + m][1] == s[a + 1] && s[b..b + m][1] == s[b + 1];
      assert s[a..a + m][2] == s[a + 2] && s[b..b + m][2] == s[b + 2];
    }
  }

  lemma SameWithin(s: seq<byte>, a: nat, b: nat, n: nat)
    requires Same(s, a, b, n)
    ensures a + n <= |s| && b + n <= |s|
  {}

  lemma InitLimits(windowBits: nat, memLevel: nat)
    requires 9 <= windowBits <= 15 && 1 <= memLevel <= 9
    ensures 512 <= Pow2(windowBits) <= 32768 && 2 <= Pow2(memLevel + 6)
  {
    Pow2Mono(9, windowBits);
    Pow2Mono(windowBits, 15);
    Pow2Mono(1, memLevel + 6);
    assert Pow2(9) == 512 && Pow2(15) == 32768;
  }

  lemma TextFits(w: seq<byte>, s: seq<byte>, base: nat)
    requires Text(w, s, base)
    ensures base <= |s| <= base + |w|
  {}

  lemma Rejoin(s: seq<byte>, rest: seq<byte>, n: nat)
    requires n <= |rest|
    ensures s + rest[..n] + rest[n..] == s + rest && s <= s + rest[..n]
  {
    assert rest == rest[..n] + rest[n..];
  }
}
