/** The circular history window of inflate. */
module Window {
  import opened BitStream

  const WSIZE: nat := 32768

  function Min(a: nat, b: nat): nat
  {
    if a <= b then a else b
  }

  /** The window index of the byte that was written k bytes ago. */
  function Behind(wnext: nat, k: nat): nat
    requires wnext < WSIZE && 1 <= k <= WSIZE
  {
    if k <= wnext then wnext - k else WSIZE + wnext - k
  }

  /** The window holds exactly the last min(|hist|, WSIZE) bytes of the output so far. */
  ghost predicate Holds(w: seq<byte>, wsize: nat, whave: nat, wnext: nat, hist: seq<byte>)
  {
    && |w| == WSIZE
    && if wsize == 0 then whave == wnext == 0 && |hist| == 0
       else
         && wsize == WSIZE && wnext < WSIZE
         && whave == Min(|hist|, WSIZE)
         && (whave < WSIZE ==> wnext == whave)
         && forall k :: 1 <= k <= whave ==> w[Behind(wnext, k)] == hist[|hist| - k]
  }

  /** zmemcpy(window + at, bytes, |bytes|) */
  method CopyIn(window: array<byte>, at: nat, bytes: seq<byte>)
    requires at + |bytes| <= window.Length
    modifies window
    ensures window[..] == old(window[..at]) + bytes + old(window[at + |bytes|..])
  {
    ghost var w := window[..];
    forall i | 0 <= i < |bytes| {
      window[at + i] := bytes[i];
    }
    assert window[..] == w[..at] + bytes + w[at + |bytes|..];
  }

  /** A piece written where the window goes on, not past its end. */
  lemma Extend(w: seq<byte>, whave: nat, wnext: nat, hist: seq<byte>, piece: seq<byte>)
    requires Holds(w, WSIZE, whave, wnext, hist) && wnext + |piece| <= WSIZE
    ensures var next := if wnext + |piece| == WSIZE then 0 else wnext + |piece|;
            Holds(w[..wnext] + piece + w[wnext + |piece|..], WSIZE, Min(|hist| + |piece|, WSIZE), next, hist + piece)
  {
    var w' := w[..wnext] + piece + w[wnext + |piece|..];
    var next := if wnext + |piece| == WSIZE then 0 else wnext + |piece|;
    var hist' := hist + piece;
    forall k | 1 <= k <= Min(|hist'|, WSIZE)
      ensures w'[Behind(next, k)] == hist'[|hist'| - k]
    {
      if k > |piece| {
        var j := k - |piece|;
        assert w[Behind(wnext, j)] == hist[|hist| - j];
        assert Behind(next, k) == Behind(wnext, j);
      }
    }
  }

  /** *put++ = *from++, n times, out of the window. */
  method CopyOut(window: array<byte>, from: nat, output: array<byte>, put: nat, n: nat)
    requires window != output && from + n <= window.Length && put + n <= output.Length
    modifies output
    ensures output[..put] == old(output[..put])
    ensures output[put..put + n] == window[from..from + n]
  {
    var i := 0;
    while i < n
      invariant 0 <= i <= n
      invariant output[..put] == old(output[..put])
      invariant output[put..put + i] == window[from..from + i]
    {
      output[put + i] := window[from + i];
      i := i + 1;
    }
  }

  /** *put++ = *from++, n times, with from in the output itself; the two may overlap. */
  method CopyAgain(output: array<byte>, offset: nat, put: nat, n: nat)
    requires 1 <= offset <= put && put + n <= output.Length
    modifies output
    ensures output[..put] == old(output[..put])
    ensures forall j :: put <= j < put + n ==> output[j] == output[j - offset]
  {
    var i := 0;
    while i < n
      invariant 0 <= i <= n
      invariant output[..put] == old(output[..put])
      invariant forall j :: put <= j < put + i ==> output[j] == output[j - offset]
    {
      output[put + i] := output[put + i - offset];
      i := i + 1;
    }
  }

  /** Where the byte k places back is found: the window index and how many bytes follow it
      before the copy has to start over at the beginning of the window. */
  function Source(wnext: nat, k: nat): (r: (nat, nat))
    requires wnext < WSIZE && 1 <= k <= WSIZE
    ensures r.0 + r.1 <= WSIZE && 1 <= r.1 <= k
    ensures forall b :: k - r.1 < b <= k ==> Behind(wnext, b) == r.0 + (k - b)
  {
    if k > wnext then (WSIZE - (k - wnext), k - wnext) else (wnext - k, k)
  }

  lemma TailLength(w: seq<byte>, wsize: nat, whave: nat, wnext: nat, hist: seq<byte>)
    requires Holds(w, wsize, whave, wnext, hist)
    ensures whave == Min(|hist|, WSIZE) && wnext < WSIZE && (whave < WSIZE ==> wnext == whave)
    ensures 0 < whave ==> wsize == WSIZE
  {}

  /** A window not in use yet is as good as an empty one. */
  lemma WindowStarts(w: seq<byte>, wsize: nat, whave: nat, wnext: nat, hist: seq<byte>)
    requires Holds(w, wsize, whave, wnext, hist)
    ensures Holds(w, WSIZE, whave, wnext, hist)
    ensures wsize == 0 ==> whave == wnext == 0
  {}

  /** A full window of new bytes. */
  lemma WindowReplaced(w: seq<byte>, hist: seq<byte>, bytes: seq<byte>)
    requires |w| == WSIZE <= |bytes| && w == bytes[|bytes| - WSIZE..]
    ensures Holds(w, WSIZE, WSIZE, 0, hist + bytes)
  {}

  /** New bytes that go on at the beginning of the window. */
  lemma WindowWraps(w: seq<byte>, w1: seq<byte>, w2: seq<byte>, whave: nat, wnext: nat,
                    hist: seq<byte>, first: seq<byte>, rest: seq<byte>)
    requires Holds(w, WSIZE, whave, wnext, hist) && wnext + |first| == WSIZE && 0 < |rest| && |first| + |rest| < WSIZE
    requires w1 == w[..wnext] + first + w[wnext + |first|..]
    requires w2 == w1[..0] + rest + w1[|rest|..]
    ensures Holds(w2, WSIZE, WSIZE, |rest|, hist + (first + rest))
  {
    hide Holds;
    Extend(w, whave, wnext, hist, first);
    TailLength(w, WSIZE, whave, wnext, hist);
    Extend(w1, WSIZE, 0, hist + first, rest);
    assert hist + first + rest == hist + (first + rest);
  }

  /** Copy the bytes, or the last WSIZE of them, into the circular window. */
  method WriteWindow(window: array<byte>, whave: nat, wnext: nat, bytes: seq<byte>, ghost hist: seq<byte>, ghost known: bool)
    returns (whave': nat, wnext': nat)
    requires window.Length == WSIZE && whave <= WSIZE && wnext < WSIZE
    requires known ==> Holds(window[..], WSIZE, whave, wnext, hist)
    modifies window
    ensures whave' <= WSIZE && wnext' < WSIZE
    ensures known ==> Holds(window[..], WSIZE, whave', wnext', hist + bytes)
  {
    hide Holds;
    ghost var w := window[..];
    var copy := |bytes|;
    if copy >= WSIZE {
      CopyIn(window, 0, bytes[copy - WSIZE..]);
      WindowReplaced(window[..], hist, bytes);
      return WSIZE, 0;
    }
    var dist := Min(WSIZE - wnext, copy);
    CopyIn(window, wnext, bytes[..dist]);
    assert bytes == bytes[..dist] + bytes[dist..];
    if known {
      Extend(w, whave, wnext, hist, bytes[..dist]);
      TailLength(w, WSIZE, whave, wnext, hist);
    }
    if copy != dist {
      ghost var w1 := window[..];
      CopyIn(window, 0, bytes[dist..]);
      if known {
        WindowWraps(w, w1, window[..], whave, wnext, hist, bytes[..dist], bytes[dist..]);
      }
      return WSIZE, copy - dist;
    }
    assert bytes[..dist] == bytes;
    wnext' := if wnext + dist == WSIZE then 0 else wnext + dist;
    whave' := if whave < WSIZE then Min(whave + dist, WSIZE) else whave;
  }

  /** The window from wnext on, then its beginning: the last bytes written, in order. */
  method ReadWindow(window: array<byte>, whave: nat, wnext: nat, dictionary: array<byte>, ghost hist: seq<byte>)
    returns (length: nat)
    requires window.Length == WSIZE <= dictionary.Length && dictionary != window
    requires Holds(window[..], WSIZE, whave, wnext, hist)
    modifies dictionary
    ensures length == Min(|hist|, WSIZE)
    ensures dictionary[..length] == hist[|hist| - length..]
  {
    ghost var w := window[..];
    if whave != 0 {
      CopyIn(dictionary, 0, window[wnext..whave]);
      CopyIn(dictionary, whave - wnext, window[..wnext]);
      InOrder(w, whave, wnext, hist);
      assert dictionary[..whave] == w[wnext..whave] + w[..wnext];
    }
    length := whave;
  }

  lemma InOrder(w: seq<byte>, whave: nat, wnext: nat, hist: seq<byte>)
    requires Holds(w, WSIZE, whave, wnext, hist) && whave != 0
    ensures w[wnext..whave] + w[..wnext] == hist[|hist| - whave..]
  {
    var s := w[wnext..whave] + w[..wnext];
    forall i | 0 <= i < whave
      ensures s[i] == hist[|hist| - whave + i]
    {
      assert Behind(wnext, whave - i) == if i < whave - wnext then wnext + i else i - (whave - wnext);
    }
  }

  /** out' is out with n more bytes, each the one offset places before it. */
  ghost predicate Repeats(out: seq<byte>, out': seq<byte>, offset: nat, n: nat)
  {
    && 1 <= offset <= |out| && |out'| == |out| + n && out <= out'
    && forall j :: |out| <= j < |out'| ==> out'[j] == out'[j - offset]
  }

  lemma RepeatsOn(a: seq<byte>, b: seq<byte>, c: seq<byte>, offset: nat, m: nat, n: nat)
    requires Repeats(a, b, offset, m) && Repeats(b, c, offset, n)
    ensures Repeats(a, c, offset, m + n)
  {
    forall j | |a| <= j < |c|
      ensures c[j] == c[j - offset]
    {
      if j < |b| {
        assert c[j] == b[j] && c[j - offset] == b[j - offset];
      }
    }
  }

  /** Bytes out of the window are the output of earlier calls again. */
  lemma WindowRepeats(w: seq<byte>, wsize: nat, whave: nat, wnext: nat, hist: seq<byte>,
                      done: seq<byte>, piece: seq<byte>, offset: nat)
    requires Holds(w, wsize, whave, wnext, hist) && |done| < offset <= |done| + whave
    requires var k := Source(wnext, offset - |done|); |piece| <= k.1 && piece == w[k.0..k.0 + |piece|]
    ensures Repeats(hist + done, hist + done + piece, offset, |piece|)
  {
    var k := offset - |done|;
    var out' := hist + done + piece;
    assert k <= whave <= |hist|;
    forall j | |hist + done| <= j < |out'|
      ensures out'[j] == out'[j - offset]
    {
      var i := j - |hist + done|;
      assert Behind(wnext, k - i) == Source(wnext, k).0 + i;
      assert hist[|hist| - (k - i)] == w[Behind(wnext, k - i)];
    }
  }
}
