/** inflate.c: syncsearch, the search for the empty stored block that Z_FULL_FLUSH leaves, and inflateSync around it. */
module SyncSearch {
  import opened BitStream
  import opened Bits

  /** The length bytes of an empty stored block. */
  const MARK: seq<byte> := [0, 0, 0xff, 0xff]

  predicate EndsWith(s: seq<byte>, k: nat)
    requires k <= 4
  {
    k <= |s| && s[|s| - k..] == MARK[..k]
  }

  /** k is the length of the longest end of s that is a beginning of the mark. */
  predicate Longest(s: seq<byte>, k: nat)
  {
    k <= 4 && EndsWith(s, k) && forall j :: k < j <= 4 ==> !EndsWith(s, j)
  }

  /** The mark has not been seen whole before the end of s. */
  predicate Fresh(s: seq<byte>)
  {
    forall i :: 0 <= i < |s| ==> !EndsWith(s[..i], 4)
  }

  /** got after another byte. */
  function Next(got: nat, b: byte): nat
    requires got < 4
  {
    if b == (if got < 2 then 0 else 0xff) then got + 1
    else if b != 0 then 0
    else 4 - got
  }

  lemma EndsLonger(s: seq<byte>, b: byte, k: nat)
    requires k < 4
    ensures EndsWith(s + [b], k + 1) <==> EndsWith(s, k) && b == MARK[k]
  {
    if k < |s| + 1 {
      var t := s + [b];
      assert t[|t| - (k + 1)..] == s[|s| - k..] + [b];
      assert MARK[..k + 1] == MARK[..k] + [MARK[k]];
      assert (s[|s| - k..] + [b])[..k] == s[|s| - k..];
      assert (s[|s| - k..] + [b])[k] == b;
    }
  }

  lemma EndsMeans(s: seq<byte>)
    ensures EndsWith(s, 0)
    ensures EndsWith(s, 1) <==> 1 <= |s| && s[|s| - 1] == 0
    ensures EndsWith(s, 2) <==> 2 <= |s| && s[|s| - 2] == 0 && s[|s| - 1] == 0
    ensures EndsWith(s, 3) <==> 3 <= |s| && s[|s| - 3] == 0 && s[|s| - 2] == 0 && s[|s| - 1] == 0xff
  {
    assert MARK[..0] == [] && MARK[..1] == [0] && MARK[..2] == [0, 0] && MARK[..3] == [0, 0, 0xff];
    if 1 <= |s| {
      assert s[|s| - 1..] == [s[|s| - 1]];
    }
    if 2 <= |s| {
      assert s[|s| - 2..] == [s[|s| - 2], s[|s| - 1]];
    }
    if 3 <= |s| {
      assert s[|s| - 3..] == [s[|s| - 3], s[|s| - 2], s[|s| - 1]];
    }
  }

  /** Where a shorter end of s fits when the longest is known. */
  lemma ShorterEnds(s: seq<byte>, got: nat)
    requires Longest(s, got) && got < 4
    ensures EndsWith(s, 0)
    ensures EndsWith(s, 1) <==> got == 1 || got == 2
    ensures EndsWith(s, 2) <==> got == 2
    ensures EndsWith(s, 3) <==> got == 3
  {
    hide EndsWith;
    EndsMeans(s);
  }

  /** The automaton keeps got the longest end. */
  lemma NextIsLongest(s: seq<byte>, got: nat, b: byte)
    requires Longest(s, got) && got < 4
    ensures Longest(s + [b], Next(got, b))
  {
    hide EndsWith;
    ShorterEnds(s, got);
    EndsLonger(s, b, 0);
    EndsLonger(s, b, 1);
    EndsLonger(s, b, 2);
    EndsLonger(s, b, 3);
    EndsNone(s + [b]);
    assert MARK[0] == 0 && MARK[1] == 0 && MARK[2] == 0xff && MARK[3] == 0xff;
  }

  lemma EndsNone(s: seq<byte>)
    ensures EndsWith(s, 0)
  {}

  /** The longest end is one number only. */
  lemma LongestUnique(s: seq<byte>, a: nat, b: nat)
    requires Longest(s, a) && Longest(s, b)
    ensures a == b
  {
    hide EndsWith;
  }

  lemma FreshLonger(s: seq<byte>, b: byte)
    requires Fresh(s) && !EndsWith(s, 4)
    ensures Fresh(s + [b])
  {
    forall i | 0 <= i < |s + [b]|
      ensures !EndsWith((s + [b])[..i], 4)
    {
      if i < |s| {
        assert (s + [b])[..i] == s[..i];
      } else {
        assert (s + [b])[..i] == s;
      }
    }
  }

  /** syncsearch: carries on from have, which is the longest end of what was seen before; stops right after the
      first mark, or at the end of the bytes without one. */
  method SyncSearch(have: nat, buf: seq<byte>, ghost seen: seq<byte>) returns (got: nat, next: nat)
    requires Longest(seen, have) && Fresh(seen)
    ensures next <= |buf| && Longest(seen + buf[..next], got) && Fresh(seen + buf[..next])
    ensures got < 4 ==> next == |buf|
  {
    hide EndsWith, Longest, Fresh;
    got, next := have, 0;
    assert seen + buf[..0] == seen;
    LongestIsShort(seen, have);
    while next < |buf| && got < 4
      invariant 0 <= next <= |buf| && got <= 4
      invariant Longest(seen + buf[..next], got) && Fresh(seen + buf[..next])
    {
      ghost var s := seen + buf[..next];
      NextIsLongest(s, got, buf[next]);
      NotYet(s, got);
      FreshLonger(s, buf[next]);
      assert seen + buf[..next + 1] == s + [buf[next]];
      if buf[next] == (if got < 2 then 0 else 0xff) {
        got := got + 1;
      } else if buf[next] != 0 {
        got := 0;
      } else {
        got := 4 - got;
      }
      next := next + 1;
    }
  }

  lemma LongestIsShort(s: seq<byte>, got: nat)
    requires Longest(s, got)
    ensures got <= 4
  {}

  lemma NotYet(s: seq<byte>, got: nat)
    requires Longest(s, got) && got < 4
    ensures !EndsWith(s, 4)
  {
    hide EndsWith;
  }

  /** The first place where the mark ends; there is at most one. */
  predicate FirstMark(s: seq<byte>, end: nat)
  {
    end <= |s| && EndsWith(s[..end], 4) && Fresh(s[..end])
  }

  lemma NoneBefore(s: seq<byte>, a: nat, b: nat)
    requires FirstMark(s, a) && b < a
    ensures !EndsWith(s[..b], 4)
  {
    hide EndsWith;
    assert s[..a][..b] == s[..b];
  }

  lemma FirstMarkUnique(s: seq<byte>, a: nat, b: nat)
    requires FirstMark(s, a) && FirstMark(s, b)
    ensures a == b
  {
    hide EndsWith, Fresh;
    if a < b {
      NoneBefore(s, b, a);
    } else if b < a {
      NoneBefore(s, a, b);
    }
  }

  lemma NoMark(s: seq<byte>, got: nat, end: nat)
    requires Longest(s, got) && got < 4 && Fresh(s)
    ensures !FirstMark(s, end)
  {
    hide EndsWith;
    if end < |s| {
      assert !EndsWith(s[..end], 4);
    } else if end == |s| {
      assert s[..end] == s;
    }
  }

  /** What a search through s finds: the place right after the first mark, or the end of s without one and how much
      of a mark there is. */
  ghost predicate Found(s: seq<byte>, got: nat, next: nat)
  {
    && next <= |s| && Longest(s[..next], got)
    && (got == 4 ==> FirstMark(s, next))
    && (got < 4 ==> next == |s| && forall end :: !FirstMark(s, end))
  }

  /** It finds one thing only. */
  lemma FoundUnique(s: seq<byte>, got: nat, next: nat, got': nat, next': nat)
    requires Found(s, got, next) && Found(s, got', next')
    ensures got == got' && next == next'
  {
    hide EndsWith, Longest, FirstMark;
    LongestIsShort(s[..next], got);
    LongestIsShort(s[..next'], got');
    if got == 4 && got' == 4 {
      FirstMarkUnique(s, next, next');
    } else {
      assert next == next';
      LongestUnique(s[..next], got, got');
    }
  }

  /** Search the pieces in turn until the mark is complete. However the bytes are cut up, the search ends right
      after the first mark in all of them together, and goes through all of them exactly when there is none. */
  method Search(pieces: seq<seq<byte>>) returns (got: nat, next: nat)
    ensures Found(Concat(pieces), got, next)
  {
    hide EndsWith, Longest, Fresh, FirstMark, Concat;
    NothingSeen();
    got, next := 0, 0;
    var k := 0;
    ConcatNone(pieces);
    while k < |pieces| && got < 4
      invariant 0 <= k <= |pieces| && next <= |Concat(pieces[..k])| && got <= 4
      invariant got < 4 ==> next == |Concat(pieces[..k])|
      invariant Longest(Concat(pieces[..k])[..next], got) && Fresh(Concat(pieces[..k])[..next])
    {
      ghost var s := Concat(pieces[..k]);
      assert s[..next] == s;
      ConcatMore(pieces, k);
      var n;
      got, n := SyncSearch(got, pieces[k], s);
      assert (s + pieces[k])[..next + n] == s + pieces[k][..n];
      LongestIsShort(s + pieces[k][..n], got);
      next := next + n;
      k := k + 1;
    }
    ConcatPrefix(pieces, k);
    ghost var t := Concat(pieces[..k]);
    assert Concat(pieces)[..next] == t[..next] by { assert Concat(pieces)[..|t|][..next] == Concat(pieces)[..next]; }
    assert got < 4 ==> pieces[..k] == pieces;
    Verdict(Concat(pieces), got, next);
  }

  lemma {:induction false} ConcatPrefix(pieces: seq<seq<byte>>, k: nat)
    requires k <= |pieces|
    ensures |Concat(pieces[..k])| <= |Concat(pieces)| && Concat(pieces)[..|Concat(pieces[..k])|] == Concat(pieces[..k])
    decreases |pieces| - k
  {
    hide Concat;
    if k == |pieces| {
      assert pieces[..k] == pieces;
    } else {
      ConcatMore(pieces, k);
      ConcatPrefix(pieces, k + 1);
      var a, b := Concat(pieces[..k]), Concat(pieces[..k + 1]);
      assert Concat(pieces)[..|b|][..|a|] == Concat(pieces)[..|a|];
    }
  }

  lemma NothingSeen()
    ensures Longest([], 0) && Fresh([])
  {}

  lemma Verdict(s: seq<byte>, got: nat, next: nat)
    requires next <= |s| && Longest(s[..next], got) && Fresh(s[..next]) && (got < 4 ==> next == |s|)
    ensures got == 4 ==> FirstMark(s, next)
    ensures got < 4 ==> forall end :: !FirstMark(s, end)
  {
    hide EndsWith, Fresh;
    if got < 4 {
      assert s[..next] == s;
      forall end
        ensures !FirstMark(s, end)
      {
        NoMark(s, got, end);
      }
    }
  }

  // ---- inflateSync

  /** The bytes held, from bit r on. */
  function HeldFrom(hold: nat, n: nat, r: nat): (s: seq<byte>)
    ensures |s| == n
  {
    seq(n, k requires 0 <= k < n => Shr(hold, 8 * k + r) % 256)
  }

  /** The bytes inflateSync takes from the bit buffer, lowest first. */
  method TakeHeld(hold: nat, bits: nat) returns (buf: seq<byte>)
    requires bits <= 32
    ensures buf == HeldFrom(Shl(hold, bits % 8), bits / 8, 0)
  {
    hide Shl, Shr;
    buf := [];
    var h := Shl(hold, bits % 8);
    var b := bits - bits % 8;
    ghost var start := h;
    ShrZero(h);
    while b >= 8
      invariant 0 <= b <= bits && b + 8 * |buf| == bits - bits % 8 && |buf| <= 4
      invariant h == Shr(start, 8 * |buf|)
      invariant forall k :: 0 <= k < |buf| ==> buf[k] == Shr(start, 8 * k) % 256
    {
      ShrShr(start, 8 * |buf|, 8);
      buf := buf + [h % 256];
      h := Shr(h, 8);
      b := b - 8;
    }
  }

  lemma ShrZero(x: nat)
    ensures Shr(x, 0) == x
  {}

  /** The buffer is shifted up where it would have to be shifted down past the bits of the current byte: the bytes
      searched are the whole bytes held exactly when there are none, or the bits held are whole bytes. */
  lemma HeldIsAligned(bits: nat)
    requires bits <= 32
    ensures (forall hold: nat :: hold < Pow2(bits) ==>
               HeldFrom(Shl(hold, bits % 8), bits / 8, 0) == HeldFrom(hold, bits / 8, bits % 8)) <==>
            bits < 8 || bits % 8 == 0
  {
    hide Shl, Shr, Pow2;
    if bits < 8 {
    } else if bits % 8 == 0 {
      forall hold: nat | hold < Pow2(bits)
        ensures HeldFrom(Shl(hold, bits % 8), bits / 8, 0) == HeldFrom(hold, bits / 8, bits % 8)
      {
        ShlZeroIs(hold);
      }
    } else {
      Misread(bits);
    }
  }

  lemma ShlZeroIs(x: nat)
    ensures Shl(x, 0) == x
  {}

  /** A lone bit right after the current byte is read somewhere else, or not at all. */
  lemma Misread(bits: nat)
    requires 8 < bits <= 32 && bits % 8 != 0
    ensures var hold := Pow2(bits % 8);
            && hold < Pow2(bits)
            && HeldFrom(Shl(hold, bits % 8), bits / 8, 0) != HeldFrom(hold, bits / 8, bits % 8)
  {
    hide Shl, Shr, Pow2;
    var r := bits % 8;
    Pow2Mono(r + 1, bits);
    Pow2Step(r);
    LoneBit(r);
    assert HeldFrom(Shl(Pow2(r), r), bits / 8, 0)[0] == Shr(Shl(Pow2(r), r), 0) % 256;
    assert HeldFrom(Pow2(r), bits / 8, r)[0] == Shr(Pow2(r), r) % 256;
  }

  lemma LoneBit(r: nat)
    requires 0 < r < 8
    ensures Shr(Pow2(r), r) % 256 == 1 && Shr(Shl(Pow2(r), r), 0) % 256 != 1
  {
    hide Shl, Shr;
    ShlZeroOne(r);
    Decompose(0, 1, r);
    ShlPow2(r, r);
    ShrZero(Pow2(2 * r));
    assert Pow2(2) == 4 && Pow2(4) == 16 && Pow2(6) == 64 && Pow2(8) == 256;
    assert Pow2(10) == 1024 && Pow2(12) == 4096 && Pow2(14) == 16384;
  }
}
