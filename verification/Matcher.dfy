/** longest_match: the longest earlier occurrence on a hash chain. */
module Matcher {
  import opened Bits
  import opened BitStream
  import opened HashKey
  import opened Chains
  import opened Lz77

  const MIN_MATCH: nat := 3
  const MAX_MATCH: nat := 258
  const MIN_LOOKAHEAD: nat := MAX_MATCH + MIN_MATCH + 1

  /** The window holds the stream from base on; what it has beyond the end of the stream is garbage. */
  ghost predicate Text(w: seq<byte>, s: seq<byte>, base: nat)
  {
    base <= |s| <= base + |w| && w[..|s| - base] == s[base..]
  }

  lemma TextAt(w: seq<byte>, s: seq<byte>, base: nat, i: nat)
    requires Text(w, s, base) && base + i < |s|
    ensures i < |w| && w[i] == s[base + i]
  {
    assert w[..|s| - base][i] == s[base..][i];
  }

  /** Equal bytes in the window, as far as they are text, are equal bytes of the stream. */
  lemma TextSame(w: seq<byte>, s: seq<byte>, base: nat, i: nat, j: nat, n: nat, m: nat)
    requires Text(w, s, base) && j < i && base + i + n <= |s| && n <= m && i + m <= |w|
    requires w[i..i + m] == w[j..j + m]
    ensures Same(s, base + i, base + j, n)
  {
    TextSlice(w, s, base, i, n);
    TextSlice(w, s, base, j, n);
    Shorter(w, i, m, n);
    Shorter(w, j, m, n);
  }

  lemma Shorter(w: seq<byte>, i: nat, m: nat, n: nat)
    requires n <= m && i + m <= |w|
    ensures w[i..i + m][..n] == w[i..i + n]
  {}

  lemma TextSlice(w: seq<byte>, s: seq<byte>, base: nat, i: nat, n: nat)
    requires Text(w, s, base) && base + i + n <= |s|
    ensures i + n <= |w| && w[i..i + n] == s[base + i..base + i + n]
  {
    var l := |s| - base;
    assert w[..l][i..i + n] == w[i..i + n];
    assert s[base..][i..i + n] == s[base + i..base + i + n];
  }

  /** Strings on one chain with equal first and second bytes have equal third bytes. */
  lemma ThirdSame(bits: nat, w: seq<byte>, s: seq<byte>, base: nat, i: nat, j: nat)
    requires KeyBits(bits) && Text(w, s, base) && j < i && base + i + 3 <= |s| && i + 3 <= |w|
    requires KeyAt(bits, s, base + i) == KeyAt(bits, s, base + j)
    requires w[i] == w[j] && w[i + 1] == w[j + 1]
    ensures w[i + 2] == w[j + 2]
  {
    hide Key;
    TextAt(w, s, base, i);
    TextAt(w, s, base, i + 1);
    TextAt(w, s, base, i + 2);
    TextAt(w, s, base, j);
    TextAt(w, s, base, j + 1);
    TextAt(w, s, base, j + 2);
    ThirdByte(bits, s[base + i], s[base + i + 1], s[base + i + 2], s[base + j + 2]);
  }

  /** The unrolled comparison: eight bytes at a time from the fourth on, up to MAX_MATCH. */
  method RunLength(window: array<byte>, start: nat, cur: nat) returns (len: nat)
    requires cur < start && start + MAX_MATCH < window.Length
    requires window[start] == window[cur] && window[start + 1] == window[cur + 1] && window[start + 2] == window[cur + 2]
    ensures 3 <= len <= MAX_MATCH && window[..][start..start + len] == window[..][cur..cur + len]
    ensures len < MAX_MATCH ==> window[start + len] != window[cur + len]
  {
    hide Agree;
    var scan, match', strend := start + 2, cur + 2, start + MAX_MATCH;
    ghost var rounds, w := 0, window[..];
    ThreeAgree(w, start, cur);
    while true
      invariant scan == start + 2 + 8 * rounds < strend && match' == cur + (scan - start)
      invariant Agree(w, start, cur, scan - start + 1)
      decreases strend - scan
    {
      var k := 0;
      while k < 8
        invariant 0 <= k <= 8 && scan == start + 2 + 8 * rounds + k && match' == cur + (scan - start)
        invariant Agree(w, start, cur, scan - start + 1)
      {
        scan, match' := scan + 1, match' + 1;
        if window[scan] != window[match'] {
          RunIs(w, start, cur, scan - start);
          return scan - start;
        }
        AgreeMore(w, start, cur, scan - start);
        k := k + 1;
      }
      rounds := rounds + 1;
      if scan >= strend {
        RunIs(w, start, cur, MAX_MATCH);
        return MAX_MATCH;
      }
    }
  }

  /** The first n bytes from start and from cur are the same. */
  ghost predicate Agree(w: seq<byte>, start: nat, cur: nat, n: nat)
  {
    start + n <= |w| && cur + n <= |w| && forall k :: 0 <= k < n ==> w[start..][k] == w[cur..][k]
  }

  lemma ThreeAgree(w: seq<byte>, start: nat, cur: nat)
    requires start + 3 <= |w| && cur + 3 <= |w|
    requires w[start] == w[cur] && w[start + 1] == w[cur + 1] && w[start + 2] == w[cur + 2]
    ensures Agree(w, start, cur, 3)
  {}

  lemma AgreeMore(w: seq<byte>, start: nat, cur: nat, n: nat)
    requires Agree(w, start, cur, n) && start + n < |w| && cur + n < |w| && w[start + n] == w[cur + n]
    ensures Agree(w, start, cur, n + 1)
  {}

  lemma RunIs(w: seq<byte>, start: nat, cur: nat, len: nat)
    requires Agree(w, start, cur, len) || (Agree(w, start, cur, len + 1) && cur < start)
    ensures start + len <= |w| && cur + len <= |w| && w[start..start + len] == w[cur..cur + len]
  {
    assert w[start..][..len] == w[start..start + len];
    assert w[cur..][..len] == w[cur..cur + len];
  }

  /** The unrolled loop of deflate_rle: how far the byte before start repeats from start on. */
  method RunOfByte(window: array<byte>, start: nat) returns (len: nat)
    requires 0 < start && start + MAX_MATCH < window.Length
    requires forall i :: start <= i < start + 3 ==> window[i] == window[start - 1]
    ensures 3 <= len <= MAX_MATCH && window[start..start + len] == window[start - 1..start - 1 + len]
    ensures len < MAX_MATCH ==> window[start + len] != window[start - 1]
  {
    var prev, scan, strend := window[start - 1], start + 2, start + MAX_MATCH;
    ghost var rounds := 0;
    while true
      invariant scan == start + 2 + 8 * rounds < strend
      invariant forall i :: start <= i <= scan ==> window[i] == prev
      decreases strend - scan
    {
      var k := 0;
      while k < 8
        invariant 0 <= k <= 8 && scan == start + 2 + 8 * rounds + k
        invariant forall i :: start <= i <= scan ==> window[i] == prev
      {
        scan := scan + 1;
        if prev != window[scan] {
          return scan - start;
        }
        k := k + 1;
      }
      rounds := rounds + 1;
      if scan >= strend {
        return MAX_MATCH;
      }
    }
  }

  /** The string at cur is on the chain of the string at strstart. */
  ghost predicate OnChain(bits: nat, s: seq<byte>, base: nat, ins: set<nat>, strstart: nat, cur: nat)
  {
    && 0 < cur < strstart && base + cur in ins && base + strstart + 3 <= |s|
    && KeyAt(bits, s, base + cur) == KeyAt(bits, s, base + strstart)
  }

  lemma HeadOnChain(bits: nat, s: seq<byte>, base: nat, ins: set<nat>, i: nat, m: nat)
    requires base + i + 3 <= |s| && m != 0 && Behind(bits, s, base, m, base + i, ins)
    ensures OnChain(bits, s, base, ins + {base + i}, i, m)
  {}

  lemma ChainStart(bits: nat, s: seq<byte>, base: nat, ins: set<nat>, strstart: nat, cur: nat)
    requires OnChain(bits, s, base, ins, strstart, cur)
    ensures 0 < cur < strstart
  {}

  lemma ChainNext(bits: nat, s: seq<byte>, base: nat, head: seq<nat>, prev: seq<nat>, ins: set<nat>, strstart: nat, cur: nat)
    requires Linked(bits, s, base, head, prev, ins, base + strstart + 1) && OnChain(bits, s, base, ins, strstart, cur)
    requires strstart < cur + |prev|
    ensures var m := prev[Slot(cur, |prev|)];
            m != 0 ==> m < cur && OnChain(bits, s, base, ins, strstart, m)
  {
    hide Linked, KeyAt, Slot;
    Next(bits, s, base, head, prev, ins, base + strstart + 1, cur);
  }

  /** A match of best bytes in the window. */
  ghost predicate Found(w: seq<byte>, strstart: nat, maxDist: int, start: int, best: nat)
  {
    && 0 < start < strstart && strstart - start <= maxDist && strstart + best <= |w|
    && w[strstart..strstart + best] == w[start..start + best]
  }

  ghost predicate SameRun(w: seq<byte>, i: nat, j: nat, n: nat)
  {
    i + n <= |w| && j + n <= |w| && w[i..i + n] == w[j..j + n]
  }

  /** The string at cur does not match the one at strstart for more than best bytes. */
  ghost predicate NoLonger(w: seq<byte>, strstart: nat, cur: nat, best: nat)
  {
    forall n: nat :: n <= MAX_MATCH && SameRun(w, strstart, cur, n) ==> n <= best
  }

  lemma DiffersAt(w: seq<byte>, strstart: nat, cur: nat, k: nat)
    requires strstart + k < |w| && cur + k < |w| && w[strstart + k] != w[cur + k]
    ensures NoLonger(w, strstart, cur, k)
  {
    forall n: nat | n <= MAX_MATCH && SameRun(w, strstart, cur, n)
      ensures n <= k
    {
      if k < n {
        SameAt(w, strstart, cur, n, k);
      }
    }
  }

  lemma SameAt(w: seq<byte>, i: nat, j: nat, n: nat, k: nat)
    requires SameRun(w, i, j, n) && k < n
    ensures w[i + k] == w[j + k]
  {
    assert w[i..i + n][k] == w[j..j + n][k];
  }

  lemma NoLongerThanMore(w: seq<byte>, strstart: nat, cur: nat, k: nat, best: nat)
    requires NoLonger(w, strstart, cur, k) && k <= best
    ensures NoLonger(w, strstart, cur, best)
  {
    hide SameRun;
  }

  /** The candidates longest_match looks at: from cur along the links, down to limit, at most chain of them. */
  ghost function Visited(prev: seq<nat>, cur: nat, limit: nat, chain: int): seq<nat>
    requires prev != []
    decreases cur
  {
    var next := prev[Slot(cur, |prev|)];
    [cur] + if next <= limit || chain == 1 || cur <= next then [] else Visited(prev, next, limit, chain - 1)
  }

  /** The quick checks on the ends of the match so far, then the whole comparison; 0 when the checks fail. */
  method Candidate(window: array<byte>, strstart: nat, cur: nat, bestLen: nat, scanEnd1: byte, scanEnd: byte,
                   ghost bits: nat, ghost s: seq<byte>, ghost base: nat, ghost ins: set<nat>)
    returns (len: nat)
    requires KeyBits(bits) && Text(window[..], s, base) && strstart + MIN_LOOKAHEAD <= window.Length
    requires OnChain(bits, s, base, ins, strstart, cur) && 1 <= bestLen <= MAX_MATCH
    ensures len != 0 ==> 3 <= len <= MAX_MATCH && window[..][strstart..strstart + len] == window[..][cur..cur + len]
    requires scanEnd1 == window[strstart + bestLen - 1] && scanEnd == window[strstart + bestLen]
    ensures NoLonger(window[..], strstart, cur, if bestLen < len then len else bestLen)
  {
    hide Text, KeyAt, NoLonger;
    if window[cur + bestLen] != scanEnd || window[cur + bestLen - 1] != scanEnd1
       || window[cur] != window[strstart] || window[cur + 1] != window[strstart + 1] {
      var k := if window[cur] != window[strstart] then 0 else if window[cur + 1] != window[strstart + 1] then 1
               else if window[cur + bestLen] != scanEnd then bestLen else bestLen - 1;
      DiffersAt(window[..], strstart, cur, k);
      NoLongerThanMore(window[..], strstart, cur, k, bestLen);
      return 0;
    }
    ThirdSame(bits, window[..], s, base, strstart, cur);
    len := RunLength(window, strstart, cur);
    if len < MAX_MATCH {
      DiffersAt(window[..], strstart, cur, len);
    } else {
      AtMostMax(window[..], strstart, cur);
    }
    NoLongerThanMore(window[..], strstart, cur, len, if bestLen < len then len else bestLen);
  }

  lemma AtMostMax(w: seq<byte>, strstart: nat, cur: nat)
    ensures NoLonger(w, strstart, cur, MAX_MATCH)
  {}

  /** None of these matches for more than best bytes. */
  ghost predicate NoneLonger(w: seq<byte>, strstart: nat, seen: seq<nat>, best: nat)
  {
    forall c :: c in seen ==> NoLonger(w, strstart, c, best)
  }

  lemma OneMoreSeen(w: seq<byte>, strstart: nat, seen: seq<nat>, best: nat, cur: nat, more: nat)
    requires NoneLonger(w, strstart, seen, best) && best <= more && NoLonger(w, strstart, cur, more)
    ensures NoneLonger(w, strstart, seen + [cur], more)
  {
    hide NoLonger;
    forall c | c in seen + [cur]
      ensures NoLonger(w, strstart, c, more)
    {
      if c in seen {
        NoLongerThanMore(w, strstart, c, best, more);
      }
    }
  }

  lemma VisitedOn(prev: seq<nat>, seen: seq<nat>, all: seq<nat>, cur: nat, limit: nat, chain: int)
    requires prev != [] && seen + Visited(prev, cur, limit, chain) == all
    ensures var next := prev[Slot(cur, |prev|)];
            if next <= limit || chain == 1 || cur <= next then seen + [cur] == all
            else (seen + [cur]) + Visited(prev, next, limit, chain - 1) == all
  {
    hide Slot;
  }

  /** The text at cur matches the one at strstart for n bytes. */
  ghost predicate SameText(s: seq<byte>, base: nat, strstart: nat, cur: nat, n: nat)
  {
    Same(s, base + strstart, base + cur, n)
  }

  /** No candidate matches the text for longer than len, unless len is good enough. */
  ghost predicate Longest(s: seq<byte>, base: nat, strstart: nat, candidates: seq<nat>, len: nat, enough: nat)
  {
    forall c, n: nat :: c in candidates && n <= MAX_MATCH && SameText(s, base, strstart, c, n) ==> n <= len || enough <= len
  }

  lemma LongestOf(w: seq<byte>, s: seq<byte>, base: nat, strstart: nat, candidates: seq<nat>, best: nat, lookahead: nat, enough: nat)
    requires Text(w, s, base) && |s| == base + strstart + lookahead && enough <= lookahead
    requires enough <= best || NoneLonger(w, strstart, candidates, best)
    requires forall c :: c in candidates ==> c < strstart
    ensures Longest(s, base, strstart, candidates, if best <= lookahead then best else lookahead, enough)
  {
    hide Text, NoLonger;
    forall c, n: nat | c in candidates && n <= MAX_MATCH && SameText(s, base, strstart, c, n)
      ensures n <= (if best <= lookahead then best else lookahead) || enough <= (if best <= lookahead then best else lookahead)
    {
      if best < enough {
        SameInWindow(w, s, base, strstart, c, n);
        RunBound(w, strstart, c, best, n);
      }
    }
  }

  lemma RunBound(w: seq<byte>, strstart: nat, c: nat, best: nat, n: nat)
    requires NoLonger(w, strstart, c, best) && n <= MAX_MATCH && SameRun(w, strstart, c, n)
    ensures n <= best
  {
    hide SameRun;
  }

  lemma SameInWindow(w: seq<byte>, s: seq<byte>, base: nat, i: nat, j: nat, n: nat)
    requires Text(w, s, base) && j < i && Same(s, base + i, base + j, n)
    ensures SameRun(w, i, j, n) && base + i + n <= |s|
  {
    TextSlice(w, s, base, i, n);
    TextSlice(w, s, base, j, n);
  }

  /** How far down the links are followed, for a window of w bytes: MAX_DIST back. */
  function LimitFor(strstart: nat, w: nat): nat
  {
    var maxDist := w - MIN_LOOKAHEAD;
    if strstart > maxDist && 0 <= maxDist then strstart - maxDist else 0
  }

  lemma NoneSeen(w: seq<byte>, strstart: nat, best: nat)
    ensures NoneLonger(w, strstart, [], best)
  {}

  lemma {:induction false} AllBelow(prev: seq<nat>, cur: nat, limit: nat, chain: int)
    requires prev != []
    ensures forall c :: c in Visited(prev, cur, limit, chain) ==> c <= cur
    decreases cur
  {
    var next := prev[Slot(cur, |prev|)];
    if !(next <= limit || chain == 1 || cur <= next) {
      AllBelow(prev, next, limit, chain - 1);
    }
  }

  /** longest_match: a true match, longer than the one before if there is a longer one among the candidates. Neither
      the quick checks nor the third byte that is never compared nor the unrolled comparison lose one. */
  method LongestMatch(window: array<byte>, prev: array<nat>, strstart: nat, lookahead: nat, curMatch: nat, prevLength: nat,
                      matchStart: int, maxChain: int, goodMatch: nat, niceMatch: nat,
                      ghost bits: nat, ghost s: seq<byte>, ghost base: nat, ghost head: seq<nat>, ghost ins: set<nat>)
    returns (len: nat, start: int)
    requires KeyBits(bits) && Text(window[..], s, base) && |s| == base + strstart + lookahead
    requires MIN_LOOKAHEAD < prev.Length && strstart + MIN_LOOKAHEAD <= window.Length
    requires Linked(bits, s, base, head, prev[..], ins, base + strstart + 1)
    requires OnChain(bits, s, base, ins, strstart, curMatch) && strstart - curMatch <= prev.Length - MIN_LOOKAHEAD
    requires 1 <= prevLength <= MAX_MATCH
    ensures len <= lookahead && len <= MAX_MATCH && (prevLength <= len || len == lookahead)
    ensures prevLength < len ==>
              && 0 < start < strstart && strstart - start <= prev.Length - MIN_LOOKAHEAD
              && Same(s, base + strstart, base + start, len)
    ensures Longest(s, base, strstart,
                    Visited(prev[..], curMatch, LimitFor(strstart, prev.Length), if prevLength >= goodMatch then maxChain / 4 else maxChain),
                    len, if niceMatch > lookahead then lookahead else niceMatch)
  {
    hide Linked, KeyAt, Slot, Text, Found, OnChain, Same, Visited, NoLonger, NoneLonger, Longest;
    var chain, bestLen, nice := maxChain, prevLength, niceMatch;
    var maxDist: nat := prev.Length - MIN_LOOKAHEAD;
    var limit: nat := LimitFor(strstart, prev.Length);
    var cur := curMatch;
    var scanEnd1, scanEnd := window[strstart + bestLen - 1], window[strstart + bestLen];
    start := matchStart;
    ChainStart(bits, s, base, ins, strstart, cur);
    if prevLength >= goodMatch {
      chain := chain / 4;
    }
    if nice > lookahead {
      nice := lookahead;
    }
    ghost var all, seen: seq<nat> := Visited(prev[..], cur, limit, chain), [];
    NoneSeen(window[..], strstart, bestLen);
    while true
      invariant 0 < cur < strstart && limit <= cur && seen + Visited(prev[..], cur, limit, chain) == all
      invariant (forall c :: c in seen ==> c < strstart) && NoneLonger(window[..], strstart, seen, bestLen)
      invariant OnChain(bits, s, base, ins, strstart, cur)
      invariant prevLength <= bestLen <= MAX_MATCH
      invariant scanEnd1 == window[strstart + bestLen - 1] && scanEnd == window[strstart + bestLen]
      invariant prevLength < bestLen ==> Found(window[..], strstart, maxDist, start, bestLen)
      decreases cur
    {
      var n := Candidate(window, strstart, cur, bestLen, scanEnd1, scanEnd, bits, s, base, ins);
      OneMoreSeen(window[..], strstart, seen, bestLen, cur, if bestLen < n then n else bestLen);
      VisitedOn(prev[..], seen, all, cur, limit, chain);
      seen := seen + [cur];
      if n > bestLen {
        start, bestLen := cur, n;
        IsFound(window[..], strstart, maxDist, start, n);
        if n >= nice {
          AllBelow(prev[..], curMatch, limit, if prevLength >= goodMatch then maxChain / 4 else maxChain);
          break;
        }
        scanEnd1, scanEnd := window[strstart + bestLen - 1], window[strstart + bestLen];
      }
      ChainNext(bits, s, base, head, prev[..], ins, strstart, cur);
      cur := prev[Slot(cur, prev.Length)];
      chain := chain - 1;
      if cur <= limit || chain == 0 {
        break;
      }
    }
    len := if bestLen <= lookahead then bestLen else lookahead;
    LongestOf(window[..], s, base, strstart, all, bestLen, lookahead, nice);
    if prevLength < len {
      FoundSame(window[..], s, base, strstart, maxDist, start, len, bestLen);
    }
  }

  lemma IsFound(w: seq<byte>, strstart: nat, maxDist: int, start: int, best: nat)
    requires 0 < start < strstart && strstart - start <= maxDist && strstart + best <= |w|
    requires w[strstart..strstart + best] == w[start..start + best]
    ensures Found(w, strstart, maxDist, start, best)
  {}

  lemma FoundSame(w: seq<byte>, s: seq<byte>, base: nat, strstart: nat, maxDist: int, start: int, len: nat, best: nat)
    requires Text(w, s, base) && Found(w, strstart, maxDist, start, best) && len <= best && base + strstart + len <= |s|
    ensures 0 < start < strstart && strstart - start <= maxDist && Same(s, base + strstart, base + start, len)
  {
    hide Text;
    TextSame(w, s, base, strstart, start, len, best);
  }
}
