/** What literals and (distance, length) pairs stand for (section 3.2.3 of RFC 1951). */
module Lz77 {
  import opened BitStream
  import opened Window

  datatype Token = Literal(b: byte) | Pair(distance: nat, length: nat)

  /** Repeat, byte by byte, what is distance places back. */
  function Again(out: seq<byte>, distance: nat, length: nat): seq<byte>
    decreases length
  {
    if length == 0 || !(1 <= distance <= |out|) then out
    else Again(out + [out[|out| - distance]], distance, length - 1)
  }

  /** The bytes that a sequence of tokens expands to. */
  function Expand(tokens: seq<Token>): seq<byte>
  {
    if tokens == [] then []
    else
      var out := Expand(tokens[..|tokens| - 1]);
      match tokens[|tokens| - 1]
      case Literal(b) => out + [b]
      case Pair(distance, length) => Again(out, distance, length)
  }

  /** Every pair refers back to bytes already there, within the limits of the format. */
  predicate WellFormed(tokens: seq<Token>, maxDist: nat)
  {
    tokens == [] ||
    var init := tokens[..|tokens| - 1];
    && WellFormed(init, maxDist)
    && match tokens[|tokens| - 1]
       case Literal(_) => true
       case Pair(distance, length) => 1 <= distance <= Min(maxDist, |Expand(init)|) && 3 <= length <= 258
  }

  /** Again is what a decoder's match copy does. */
  lemma {:induction false} AgainRepeats(out: seq<byte>, distance: nat, length: nat)
    requires 1 <= distance <= |out|
    ensures Repeats(out, Again(out, distance, length), distance, length)
    decreases length
  {
    if length != 0 {
      AgainRepeats(out + [out[|out| - distance]], distance, length - 1);
    }
  }

  /** ... and nothing else is. */
  lemma {:induction false} RepeatsUnique(out: seq<byte>, a: seq<byte>, b: seq<byte>, distance: nat, length: nat)
    requires Repeats(out, a, distance, length) && Repeats(out, b, distance, length)
    ensures a == b
  {
    var n := |out|;
    while n < |a|
      invariant |out| <= n <= |a|
      invariant a[..n] == b[..n]
    {
      assert a[n] == a[..n][n - distance] && b[n] == b[..n][n - distance];
      assert a[..n + 1] == a[..n] + [a[n]] && b[..n + 1] == b[..n] + [b[n]];
      n := n + 1;
    }
    assert a == a[..n] && b == b[..n];
  }

  /** The length bytes at a are those at b. */
  ghost predicate Same(s: seq<byte>, a: nat, b: nat, length: nat)
  {
    a + length <= |s| && b + length <= |s| && s[a..a + length] == s[b..b + length]
  }

  /** A literal token for the next byte. */
  lemma ExpandLiteral(tokens: seq<Token>, s: seq<byte>, n: nat, maxDist: nat)
    requires n < |s| && Expand(tokens) == s[..n] && WellFormed(tokens, maxDist)
    ensures Expand(tokens + [Literal(s[n])]) == s[..n + 1] && WellFormed(tokens + [Literal(s[n])], maxDist)
  {
    var ts := tokens + [Literal(s[n])];
    assert ts[..|ts| - 1] == tokens;
  }

  /** A pair token for bytes that occur distance places back. */
  lemma ExpandPair(tokens: seq<Token>, s: seq<byte>, n: nat, distance: nat, length: nat, maxDist: nat)
    requires n <= |s| && Expand(tokens) == s[..n] && WellFormed(tokens, maxDist)
    requires 1 <= distance <= n && distance <= maxDist && 3 <= length <= 258 && Same(s, n, n - distance, length)
    ensures Expand(tokens + [Pair(distance, length)]) == s[..n + length]
    ensures WellFormed(tokens + [Pair(distance, length)], maxDist)
  {
    hide Again;
    var ts := tokens + [Pair(distance, length)];
    assert ts[..|ts| - 1] == tokens;
    AgainRepeats(s[..n], distance, length);
    RunOf(s, n, distance, length);
    RepeatsUnique(s[..n], Again(s[..n], distance, length), s[..n + length], distance, length);
  }

  lemma RunOf(s: seq<byte>, n: nat, distance: nat, length: nat)
    requires 1 <= distance <= n && Same(s, n, n - distance, length)
    ensures Repeats(s[..n], s[..n + length], distance, length)
  {
    forall j | n <= j < n + length
      ensures s[j] == s[j - distance]
    {
      assert s[n..n + length][j - n] == s[n - distance..n - distance + length][j - n];
    }
  }
}
