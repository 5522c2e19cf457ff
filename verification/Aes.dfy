/** QAESEncryption: key expansion, padding and the modes of operation. */
module Aes {
  import opened BitStream
  import opened AesCipher
  import opened AesState
  import opened Window

  datatype Level = AES_128 | AES_192 | AES_256
  datatype Mode = ECB | CBC | CFB | OFB
  datatype Padding = ZERO | PKCS7 | ISO
  datatype Option<T> = None | Some(value: T)

  const BLOCKLEN: nat := 16
  const RCON: seq<byte> := [0x8d, 0x01, 0x02, 0x04, 0x08, 0x10, 0x20, 0x40, 0x80, 0x1b, 0x36, 0x6c, 0xd8, 0xab]

  /** Words in the key, and rounds. */
  function Nk(level: Level): nat
  {
    match level
    case AES_128 => 4
    case AES_192 => 6
    case AES_256 => 8
  }

  function Nr(level: Level): nat
  {
    Nk(level) + 6
  }

  // ---- key expansion (section 5.2 of FIPS 197)

  type Word = w: seq<byte> | |w| == 4 witness [0, 0, 0, 0]

  function AddWords(a: Word, b: Word): Word
  {
    [Add(a[0], b[0]), Add(a[1], b[1]), Add(a[2], b[2]), Add(a[3], b[3])]
  }

  function SubWord(a: Word): Word
  {
    [SBoxValue(a[0]), SBoxValue(a[1]), SBoxValue(a[2]), SBoxValue(a[3])]
  }

  function RotWord(a: Word): Word
  {
    [a[1], a[2], a[3], a[0]]
  }

  /** What the word before is turned into before it is added to the word Nk before. */
  function Temp(level: Level, i: nat, w: Word): Word
    requires Nk(level) <= i < 4 * (Nr(level) + 1)
  {
    var t := if i % Nk(level) == 0 then AddWords(SubWord(RotWord(w)), [RCON[i / Nk(level)], 0, 0, 0]) else w;
    if level == AES_256 && i % Nk(level) == 4 then SubWord(t) else t
  }

  /** Word i of the key schedule. */
  function Schedule(level: Level, key: seq<byte>, i: nat): Word
    requires |key| == 4 * Nk(level) && i < 4 * (Nr(level) + 1)
  {
    if i < Nk(level) then key[4 * i..4 * i + 4]
    else AddWords(Schedule(level, key, i - Nk(level)), Temp(level, i, Schedule(level, key, i - 1)))
  }

  /** The first n words of the key schedule, end to end. */
  function KeyWords(level: Level, key: seq<byte>, n: nat): (r: seq<byte>)
    requires |key| == 4 * Nk(level) && n <= 4 * (Nr(level) + 1)
    ensures |r| == 4 * n
  {
    if n == 0 then [] else KeyWords(level, key, n - 1) + Schedule(level, key, n - 1)
  }

  function KeySchedule(level: Level, key: seq<byte>): (r: seq<byte>)
    requires |key| == 4 * Nk(level)
    ensures KeyFor(level, r)
  {
    KeyWords(level, key, 4 * (Nr(level) + 1))
  }

  lemma {:induction false} WordsAreSchedule(level: Level, key: seq<byte>, n: nat, r: seq<byte>)
    requires |key| == 4 * Nk(level) && n <= 4 * (Nr(level) + 1) && |r| == 4 * n
    requires forall i :: 0 <= i < n ==> r[4 * i..4 * i + 4] == Schedule(level, key, i)
    ensures r == KeyWords(level, key, n)
  {
    hide Schedule;
    if n > 0 {
      var h := r[..4 * (n - 1)];
      forall i | 0 <= i < n - 1
        ensures h[4 * i..4 * i + 4] == Schedule(level, key, i)
      {
        assert h[4 * i..4 * i + 4] == r[4 * i..4 * i + 4];
      }
      WordsAreSchedule(level, key, n - 1, h);
      assert r == h + r[4 * (n - 1)..4 * (n - 1) + 4];
    }
  }

  /** expandKey: each word is put at the end, byte by byte. */
  method ExpandKey(level: Level, key: seq<byte>) returns (roundKey: seq<byte>)
    requires |key| == 4 * Nk(level)
    ensures |roundKey| == 16 * (Nr(level) + 1) && key <= roundKey
    ensures forall i :: 0 <= i < 4 * (Nr(level) + 1) ==> roundKey[4 * i..4 * i + 4] == Schedule(level, key, i)
    ensures roundKey == KeySchedule(level, key)
  {
    hide AddWords, Temp, Add, KeyWords;
    roundKey := key;
    var i := Nk(level);
    while i < 4 * (Nr(level) + 1)
      invariant Nk(level) <= i <= 4 * (Nr(level) + 1)
      invariant |roundKey| == 4 * i && key <= roundKey
      invariant forall k :: 0 <= k < i ==> roundKey[4 * k..4 * k + 4] == Schedule(level, key, k)
    {
      var tempa: Word := roundKey[4 * (i - 1)..4 * i];
      assert tempa == roundKey[4 * (i - 1)..4 * (i - 1) + 4];
      tempa := Mangle(level, i, tempa);
      var from: Word := roundKey[4 * (i - Nk(level))..4 * (i - Nk(level)) + 4];
      ghost var was := roundKey;
      roundKey := roundKey + AddWords(from, tempa);
      assert roundKey[4 * i..4 * i + 4] == AddWords(from, tempa);
      assert from == Schedule(level, key, i - Nk(level));
      forall k | 0 <= k < i
        ensures roundKey[4 * k..4 * k + 4] == was[4 * k..4 * k + 4]
      {
        SliceKept(was, AddWords(from, tempa), 4 * k);
      }
      i := i + 1;
    }
    WordsAreSchedule(level, key, i, roundKey);
  }

  lemma SliceKept(a: seq<byte>, b: seq<byte>, k: nat)
    requires k + 4 <= |a|
    ensures (a + b)[k..k + 4] == a[k..k + 4]
  {}

  /** RotWord, SubWord and Rcon at the beginning of a key length; SubWord in the middle for AES-256. */
  method Mangle(level: Level, i: nat, w: Word) returns (t: Word)
    requires Nk(level) <= i < 4 * (Nr(level) + 1)
    ensures t == Temp(level, i, w)
  {
    hide Add, SBoxValue;
    t := w;
    if i % Nk(level) == 0 {
      t := SubWord(RotWord(t));
      ghost var x: Word := [RCON[i / Nk(level)], 0, 0, 0];
      NoAdd(t[1]);
      NoAdd(t[2]);
      NoAdd(t[3]);
      assert AddWords(t, x) == t[0 := Add(t[0], RCON[i / Nk(level)])];
      t := t[0 := Add(t[0], RCON[i / Nk(level)])];
    }
    if level == AES_256 && i % Nk(level) == 4 {
      t := SubWord(t);
    }
  }

  // ---- padding

  function Fill(n: nat, v: byte): (r: seq<byte>)
    ensures |r| == n && forall i :: 0 <= i < n ==> r[i] == v
  {
    seq(n, _ => v)
  }

  /** getPadding */
  function GetPadding(padding: Padding, currSize: nat): (r: seq<byte>)
    ensures (currSize + |r|) % 16 == 0 && |r| <= BLOCKLEN
  {
    var size := (BLOCKLEN - currSize % 16) % 16;
    match padding
    case ZERO => Fill(size, 0)
    case PKCS7 => Fill(if size == 0 then BLOCKLEN else size, if size == 0 then BLOCKLEN else size)
    case ISO => if size > 0 then [0x80] + Fill(size - 1, 0) else []
  }

  /** The bytes up to the last that is not zero. */
  function LastNonZero(s: seq<byte>): (r: nat)
    ensures r <= |s| && (0 < r ==> s[r - 1] != 0) && forall i :: r <= i < |s| ==> s[i] == 0
  {
    if s == [] then 0 else if s[|s| - 1] != 0 then |s| else LastNonZero(s[..|s| - 1])
  }

  /** What is left without the padding; None when there is only padding and no end to it. */
  function Removed(s: seq<byte>, padding: Padding): Option<seq<byte>>
  {
    if s == [] then Some([])
    else
      var n, v := LastNonZero(s), s[|s| - 1];
      match padding
      case ZERO => if n == 0 then None else Some(s[..n])
      case PKCS7 => Some(if v < 128 && v <= |s| then s[..|s| - v] else s) // the last byte is a signed char
      case ISO => if n == 0 then None else Some(if s[n - 1] == 0x80 then s[..n - 1] else s)
  }

  lemma LastStep(s: seq<byte>)
    requires s != []
    ensures LastNonZero(s) == if s[|s| - 1] != 0 then |s| else LastNonZero(s[..|s| - 1])
  {}

  lemma LastNone()
    ensures LastNonZero([]) == 0
  {}

  /** while (ret.at(ret.length()-1) == 0x00) ret.remove(ret.length()-1, 1); */
  method DropZeros(rawText: seq<byte>) returns (r: Option<seq<byte>>)
    requires rawText != []
    ensures r == if LastNonZero(rawText) == 0 then None else Some(rawText[..LastNonZero(rawText)])
  {
    hide LastNonZero;
    var ret := rawText;
    while ret[|ret| - 1] == 0
      invariant ret != [] && ret <= rawText && LastNonZero(rawText) == LastNonZero(ret)
      decreases |ret|
    {
      LastStep(ret);
      ret := ret[..|ret| - 1];
      if ret == [] {
        LastNone();
        return None;
      }
    }
    LastStep(ret);
    assert rawText[..|ret|] == ret;
    return Some(ret);
  }

  /** The last byte that is not zero. */
  method FindMarker(rawText: seq<byte>) returns (marker: int)
    requires rawText != []
    ensures marker + 1 == LastNonZero(rawText)
  {
    hide LastNonZero;
    marker := |rawText| - 1;
    assert rawText[..marker + 1] == rawText;
    while marker >= 0 && rawText[marker] == 0
      invariant -1 <= marker < |rawText| && LastNonZero(rawText) == LastNonZero(rawText[..marker + 1])
    {
      LastStep(rawText[..marker + 1]);
      assert rawText[..marker + 1][..marker] == rawText[..marker];
      marker := marker - 1;
    }
    if marker >= 0 {
      LastStep(rawText[..marker + 1]);
    } else {
      LastNone();
      assert rawText[..0] == [];
    }
  }

  /** RemovePadding; None when it looks before the first byte. */
  method RemovePadding(rawText: seq<byte>, padding: Padding) returns (r: Option<seq<byte>>)
    ensures r == Removed(rawText, padding)
  {
    hide LastNonZero;
    if rawText == [] {
      return Some([]);
    }
    match padding {
      case ZERO =>
        r := DropZeros(rawText);
      case PKCS7 =>
        var n := rawText[|rawText| - 1];
        return Some(if n < 128 && n <= |rawText| then rawText[..|rawText| - n] else rawText);
      case ISO =>
        var marker := FindMarker(rawText);
        if marker < 0 {
          return None;
        }
        return Some(if rawText[marker] == 0x80 then rawText[..marker] else rawText);
    }
  }

  lemma {:induction false} LastOfZeros(s: seq<byte>, n: nat)
    ensures LastNonZero(s + Fill(n, 0)) == LastNonZero(s)
  {
    if n == 0 {
      assert s + Fill(0, 0) == s;
    } else {
      var t := s + Fill(n, 0);
      assert t[..|t| - 1] == s + Fill(n - 1, 0);
      LastOfZeros(s, n - 1);
    }
  }

  /** PKCS7 padding can always be removed. */
  lemma Pkcs7Back(x: seq<byte>)
    ensures Removed(x + GetPadding(PKCS7, |x|), PKCS7) == Some(x)
  {
    hide LastNonZero;
    var t := x + GetPadding(PKCS7, |x|);
    assert t[..|x|] == x;
  }

  /** Zero padding can be removed exactly when the text does not end in a zero byte. */
  lemma ZeroBack(x: seq<byte>)
    ensures Removed(x + GetPadding(ZERO, |x|), ZERO) == Some(x) <==> x == [] || x[|x| - 1] != 0
  {
    hide LastNonZero;
    var p := GetPadding(ZERO, |x|);
    LastOfZeros(x, |p|);
    LastOfText(x);
    if x == [] {
      NoPaddingAtZero();
    } else {
      assert (x + p)[..LastNonZero(x)] == x[..LastNonZero(x)];
    }
  }

  /** Of a single zero byte there is nothing left to look at. */
  lemma ZeroLost()
    ensures Removed([0] + GetPadding(ZERO, 1), ZERO) == None
  {
    hide LastNonZero;
    LastOfZeros([0], 15);
    LastStep([0]);
    LastNone();
    assert [0][..0] == [];
  }

  lemma IsoPadding(n: nat)
    ensures GetPadding(ISO, n) == if n % 16 == 0 then [] else [0x80] + Fill(BLOCKLEN - n % 16 - 1, 0)
  {}

  lemma IsoMarked(x: seq<byte>, n: nat)
    ensures Removed(x + ([0x80] + Fill(n, 0)), ISO) == Some(x)
  {
    hide LastNonZero, Fill;
    var t := x + ([0x80] + Fill(n, 0));
    LastOfZeros(x + [0x80], n);
    assert t == x + [0x80] + Fill(n, 0);
    LastOfText(x + [0x80]);
    assert t[..|x|] == x;
  }

  lemma IsoBare(x: seq<byte>)
    requires x != []
    ensures Removed(x, ISO) == Some(x) <==> LastNonZero(x) != 0 && x[LastNonZero(x) - 1] != 0x80
  {
    hide LastNonZero;
  }

  /** ISO padding can be removed exactly when there is some, or the text is empty, or its last byte that
      is not zero is there and does not look like the marker. */
  lemma IsoBack(x: seq<byte>)
    ensures Removed(x + GetPadding(ISO, |x|), ISO) == Some(x) <==>
            x == [] || |x| % 16 != 0 || (LastNonZero(x) != 0 && x[LastNonZero(x) - 1] != 0x80)
  {
    hide LastNonZero, GetPadding, Removed, Fill;
    IsoPadding(|x|);
    if |x| % 16 != 0 {
      IsoMarked(x, BLOCKLEN - |x| % 16 - 1);
    } else {
      assert x + [] == x;
      if x == [] {
        NothingRemoved(ISO);
      } else {
        IsoBare(x);
      }
    }
  }

  /** A whole block that ends in the marker loses it. */
  lemma IsoLost()
    ensures var x := Fill(15, 1) + [0x80]; Removed(x + GetPadding(ISO, |x|), ISO) == Some(Fill(15, 1))
  {
    hide LastNonZero, Fill;
    var x := Fill(15, 1) + [0x80];
    IsoPadding(|x|);
    assert x + [] == x && x[..15] == Fill(15, 1);
    LastStep(x);
  }

  lemma NothingRemoved(padding: Padding)
    ensures Removed([], padding) == Some([])
  {}

  lemma NoPaddingAtZero()
    ensures GetPadding(ZERO, 0) == []
  {}

  lemma LastOfText(x: seq<byte>)
    ensures x != [] && x[|x| - 1] != 0 ==> LastNonZero(x) == |x|
    ensures x != [] && x[|x| - 1] == 0 ==> LastNonZero(x) < |x|
  {
    hide LastNonZero;
  }

  // ---- modes of operation

  /** byteXor: as long as the shorter one. */
  function ByteXor(a: seq<byte>, b: seq<byte>): (r: seq<byte>)
    ensures |r| == Min(|a|, |b|) && forall i :: 0 <= i < |r| ==> r[i] == Add(a[i], b[i])
  {
    seq(Min(|a|, |b|), i requires 0 <= i < Min(|a|, |b|) => Add(a[i], b[i]))
  }

  lemma XorBack(a: seq<byte>, b: seq<byte>)
    requires |a| <= |b|
    ensures ByteXor(ByteXor(a, b), b) == a
  {
    hide Add, ByteXor;
    forall i | 0 <= i < |a|
      ensures ByteXor(ByteXor(a, b), b)[i] == a[i]
    {
      AddTwice(a[i], b[i]);
    }
  }

  predicate KeyFor(level: Level, key: seq<byte>)
  {
    match level
    case AES_128 => |key| == 176
    case AES_192 => |key| == 208
    case AES_256 => |key| == 240
  }

  function Enc(level: Level, k: seq<byte>, s: seq<byte>): (t: seq<byte>)
    requires KeyFor(level, k) && Block(s)
    ensures Block(t)
  {
    Cipher(k, Nr(level), s)
  }

  function Dec(level: Level, k: seq<byte>, s: seq<byte>): (t: seq<byte>)
    requires KeyFor(level, k) && Block(s)
    ensures Block(t)
  {
    InvCipher(k, Nr(level), s)
  }

  lemma DecEnc(level: Level, k: seq<byte>, s: seq<byte>)
    requires KeyFor(level, k) && Block(s)
    ensures Dec(level, k, Enc(level, k, s)) == s
  {
    hide Cipher, InvCipher;
    CipherUndone(k, Nr(level), s);
  }

  /** The first block, or what there is of it. */
  function First(x: seq<byte>): (r: seq<byte>)
    ensures |r| == Min(|x|, BLOCKLEN)
  {
    x[..Min(|x|, BLOCKLEN)]
  }

  function Rest(x: seq<byte>): (r: seq<byte>)
    ensures x != [] ==> |r| < |x|
  {
    x[Min(|x|, BLOCKLEN)..]
  }

  /** A block, or where the mode can do without a whole one, part of one. */
  predicate Piece(mode: Mode, x: seq<byte>)
  {
    |x| <= BLOCKLEN && (mode == ECB || mode == CBC ==> Block(x))
  }

  /** Each mode as a chain of blocks (section 6 of NIST SP 800-38A): what a block becomes, given the chaining value. */
  function EncodeBlock(level: Level, k: seq<byte>, mode: Mode, chain: seq<byte>, x: seq<byte>): (y: seq<byte>)
    requires KeyFor(level, k) && Block(chain) && Piece(mode, x)
    ensures |y| == |x|
  {
    match mode
    case ECB => Enc(level, k, x)
    case CBC => Enc(level, k, ByteXor(x, chain))
    case _ => ByteXor(x, Enc(level, k, chain))
  }

  function DecodeBlock(level: Level, k: seq<byte>, mode: Mode, chain: seq<byte>, y: seq<byte>): (x: seq<byte>)
    requires KeyFor(level, k) && Block(chain) && Piece(mode, y)
    ensures |x| == |y|
  {
    match mode
    case ECB => Dec(level, k, y)
    case CBC => ByteXor(Dec(level, k, y), chain)
    case _ => ByteXor(y, Enc(level, k, chain))
  }

  /** The chaining value for the next block: the block of cipher text, or the next block of the key stream. */
  function NextChain(level: Level, k: seq<byte>, mode: Mode, chain: seq<byte>, y: seq<byte>): (c: seq<byte>)
    requires KeyFor(level, k) && Block(chain)
    ensures Block(c)
  {
    match mode
    case ECB => chain
    case OFB => Enc(level, k, chain)
    case _ => if Block(y) then y else chain // nothing follows a short block
  }

  /** Whole blocks where the mode needs them. */
  predicate Fits(mode: Mode, n: nat)
  {
    mode == ECB || mode == CBC ==> n % 16 == 0
  }

  lemma RestFits(mode: Mode, x: seq<byte>)
    requires Fits(mode, |x|) && x != []
    ensures Piece(mode, First(x)) && Fits(mode, |Rest(x)|)
  {}

  function EncodeAll(level: Level, k: seq<byte>, mode: Mode, chain: seq<byte>, x: seq<byte>): (y: seq<byte>)
    requires KeyFor(level, k) && Block(chain) && Fits(mode, |x|)
    ensures |y| == |x|
    decreases |x|
  {
    if x == [] then []
    else
      RestFits(mode, x);
      var y := EncodeBlock(level, k, mode, chain, First(x));
      y + EncodeAll(level, k, mode, NextChain(level, k, mode, chain, y), Rest(x))
  }

  function DecodeAll(level: Level, k: seq<byte>, mode: Mode, chain: seq<byte>, y: seq<byte>): (x: seq<byte>)
    requires KeyFor(level, k) && Block(chain) && Fits(mode, |y|)
    ensures |x| == |y|
    decreases |y|
  {
    if y == [] then []
    else
      RestFits(mode, y);
      var x := DecodeBlock(level, k, mode, chain, First(y));
      x + DecodeAll(level, k, mode, NextChain(level, k, mode, chain, First(y)), Rest(y))
  }

  lemma BlockBack(level: Level, k: seq<byte>, mode: Mode, chain: seq<byte>, x: seq<byte>)
    requires KeyFor(level, k) && Block(chain) && Piece(mode, x)
    ensures DecodeBlock(level, k, mode, chain, EncodeBlock(level, k, mode, chain, x)) == x
  {
    hide Enc, Dec, ByteXor, KeyFor;
    match mode
    case ECB => DecEnc(level, k, x);
    case CBC =>
      DecEnc(level, k, ByteXor(x, chain));
      XorBack(x, chain);
    case _ => XorBack(x, Enc(level, k, chain));
  }

  /** Decoding undoes encoding, in every mode, for every key schedule and chaining value. */
  lemma {:induction false} ModeBack(level: Level, k: seq<byte>, mode: Mode, chain: seq<byte>, x: seq<byte>)
    requires KeyFor(level, k) && Block(chain) && Fits(mode, |x|)
    ensures DecodeAll(level, k, mode, chain, EncodeAll(level, k, mode, chain, x)) == x
    decreases |x|
  {
    hide Enc, Dec, EncodeBlock, DecodeBlock, NextChain, KeyFor;
    if x != [] {
      RestFits(mode, x);
      var y := EncodeBlock(level, k, mode, chain, First(x));
      BlockBack(level, k, mode, chain, First(x));
      var c := NextChain(level, k, mode, chain, y);
      var z := EncodeAll(level, k, mode, c, Rest(x));
      ModeBack(level, k, mode, c, Rest(x));
      Split(x, y, z);
    }
  }

  /** Putting y before z leaves them as the first block and the rest. */
  lemma Split(x: seq<byte>, y: seq<byte>, z: seq<byte>)
    requires |y| == |First(x)| && |z| == |Rest(x)|
    ensures First(y + z) == y && Rest(y + z) == z && x == First(x) + Rest(x)
  {}
}
