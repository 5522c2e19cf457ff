/** encode and decode of QAESEncryption, mode by mode. */
module AesModes {
  import opened BitStream
  import opened Window
  import opened AesCipher
  import opened AesState
  import opened Aes

  /** What follows the first i bytes. */
  function From(s: seq<byte>, i: nat): (r: seq<byte>)
    ensures |r| == if i <= |s| then |s| - i else 0
  {
    if i <= |s| then s[i..] else []
  }

  /** mid: at most a block from place i on. */
  function Mid(s: seq<byte>, i: nat): (r: seq<byte>)
    ensures |r| == if i <= |s| then Min(|s| - i, BLOCKLEN) else 0
  {
    if i <= |s| then s[i..i + Min(|s| - i, BLOCKLEN)] else []
  }

  lemma MidIsFirst(s: seq<byte>, i: nat)
    ensures Mid(s, i) == First(From(s, i))
    ensures i < |s| ==> Rest(From(s, i)) == From(s, i + BLOCKLEN) && From(s, i) != []
    ensures |s| <= i ==> From(s, i) == []
  {}

  /** right: the last block. */
  function Right(s: seq<byte>): (r: seq<byte>)
    requires BLOCKLEN <= |s|
    ensures Block(r)
  {
    s[|s| - BLOCKLEN..]
  }

  lemma MidOfEnd(s: seq<byte>, b: seq<byte>)
    requires |b| <= BLOCKLEN
    ensures Mid(s + b, |s|) == b
  {}

  method CipherOf(level: Level, k: seq<byte>, s: seq<byte>) returns (t: seq<byte>)
    requires KeyFor(level, k) && Block(s)
    ensures t == Enc(level, k, s)
  {
    hide Cipher;
    t := Encipher(k, Nr(level), s);
  }

  method InvCipherOf(level: Level, k: seq<byte>, s: seq<byte>) returns (t: seq<byte>)
    requires KeyFor(level, k) && Block(s)
    ensures t == Dec(level, k, s)
  {
    hide InvCipher;
    t := Decipher(k, Nr(level), s);
  }

  // ---- where a loop stands

  /** ret holds the cipher text of the first i bytes of x, and chain is the chaining value there. */
  ghost predicate Encoded(level: Level, k: seq<byte>, mode: Mode, iv: seq<byte>, x: seq<byte>,
                          chain: seq<byte>, i: nat, ret: seq<byte>)
    requires KeyFor(level, k) && Block(iv) && Fits(mode, |x|)
  {
    && Block(chain) && Fits(mode, |From(x, i)|) && |ret| == Min(i, |x|)
    && ret + EncodeAll(level, k, mode, chain, From(x, i)) == EncodeAll(level, k, mode, iv, x)
  }

  ghost predicate Decoded(level: Level, k: seq<byte>, mode: Mode, iv: seq<byte>, y: seq<byte>,
                          chain: seq<byte>, i: nat, ret: seq<byte>)
    requires KeyFor(level, k) && Block(iv) && Fits(mode, |y|)
  {
    && Block(chain) && Fits(mode, |From(y, i)|) && |ret| == Min(i, |y|)
    && ret + DecodeAll(level, k, mode, chain, From(y, i)) == DecodeAll(level, k, mode, iv, y)
  }

  lemma NoneYet(level: Level, k: seq<byte>, mode: Mode, iv: seq<byte>, x: seq<byte>)
    requires KeyFor(level, k) && Block(iv) && Fits(mode, |x|)
    ensures Encoded(level, k, mode, iv, x, iv, 0, [])
    ensures Decoded(level, k, mode, iv, x, iv, 0, [])
  {
    hide KeyFor, Fits, EncodeAll, DecodeAll;
    assert From(x, 0) == x;
  }

  lemma AllDone(level: Level, k: seq<byte>, mode: Mode, iv: seq<byte>, x: seq<byte>, chain: seq<byte>, i: nat, ret: seq<byte>)
    requires KeyFor(level, k) && Block(iv) && Fits(mode, |x|) && |x| <= i
    ensures Encoded(level, k, mode, iv, x, chain, i, ret) ==> ret == EncodeAll(level, k, mode, iv, x)
    ensures Decoded(level, k, mode, iv, x, chain, i, ret) ==> ret == DecodeAll(level, k, mode, iv, x)
    ensures Encoded(level, k, mode, iv, x, chain, i, ret) ==> Encoded(level, k, mode, iv, x, chain, i + BLOCKLEN, ret)
    ensures Decoded(level, k, mode, iv, x, chain, i, ret) ==> Decoded(level, k, mode, iv, x, chain, i + BLOCKLEN, ret)
  {
    hide KeyFor, Fits, EncodeAll, DecodeAll;
    assert From(x, i) == From(x, i + BLOCKLEN) == [];
  }

  /** The next block can be encoded. */
  lemma EncodeNext(level: Level, k: seq<byte>, mode: Mode, iv: seq<byte>, x: seq<byte>, chain: seq<byte>, i: nat, ret: seq<byte>)
    requires KeyFor(level, k) && Block(iv) && Fits(mode, |x|) && i < |x| && Encoded(level, k, mode, iv, x, chain, i, ret)
    ensures Block(chain) && |ret| == i && Piece(mode, Mid(x, i))
    ensures var y := EncodeBlock(level, k, mode, chain, Mid(x, i));
            Encoded(level, k, mode, iv, x, NextChain(level, k, mode, chain, y), i + BLOCKLEN, ret + y)
  {
    hide KeyFor, Fits, EncodeBlock, NextChain;
    MidIsFirst(x, i);
    RestFits(mode, From(x, i));
    var y := EncodeBlock(level, k, mode, chain, Mid(x, i));
    var z := EncodeAll(level, k, mode, NextChain(level, k, mode, chain, y), From(x, i + BLOCKLEN));
    Rejoin(ret, y, z);
  }

  lemma DecodeNext(level: Level, k: seq<byte>, mode: Mode, iv: seq<byte>, y: seq<byte>, chain: seq<byte>, i: nat, ret: seq<byte>)
    requires KeyFor(level, k) && Block(iv) && Fits(mode, |y|) && i < |y| && Decoded(level, k, mode, iv, y, chain, i, ret)
    ensures Block(chain) && |ret| == i && Piece(mode, Mid(y, i))
    ensures var x := DecodeBlock(level, k, mode, chain, Mid(y, i));
            Decoded(level, k, mode, iv, y, NextChain(level, k, mode, chain, Mid(y, i)), i + BLOCKLEN, ret + x)
  {
    hide KeyFor, Fits, DecodeBlock, NextChain;
    MidIsFirst(y, i);
    RestFits(mode, From(y, i));
    var x := DecodeBlock(level, k, mode, chain, Mid(y, i));
    var z := DecodeAll(level, k, mode, NextChain(level, k, mode, chain, Mid(y, i)), From(y, i + BLOCKLEN));
    Rejoin(ret, x, z);
  }

  lemma Rejoin(a: seq<byte>, b: seq<byte>, c: seq<byte>)
    ensures (a + b) + c == a + (b + c)
  {}

  // ---- encode

  method EcbEncode(level: Level, k: seq<byte>, x: seq<byte>, ghost iv: seq<byte>) returns (ret: seq<byte>)
    requires KeyFor(level, k) && Block(iv) && Fits(ECB, |x|)
    ensures ret == EncodeAll(level, k, ECB, iv, x)
  {
    hide Nr, Nk, Enc, KeyFor, EncodeAll, Fits, Encoded, Mid;
    ret := [];
    var i := 0;
    NoneYet(level, k, ECB, iv, x);
    while i < |x|
      invariant 0 <= i && Encoded(level, k, ECB, iv, x, iv, i, ret)
    {
      EncodeNext(level, k, ECB, iv, x, iv, i, ret);
      var y := CipherOf(level, k, Mid(x, i));
      ret := ret + y;
      i := i + BLOCKLEN;
    }
    AllDone(level, k, ECB, iv, x, iv, i, ret);
  }

  lemma WholeBlock(s: seq<byte>, i: nat)
    requires Piece(CBC, Mid(s, i))
    ensures i + BLOCKLEN <= |s| && Block(Mid(s, i))
  {}

  /** The text with block b in place of the one at i: the block is b and what follows is as before. */
  lemma Replaced(s: seq<byte>, i: nat, b: seq<byte>)
    requires i + BLOCKLEN <= |s| && Block(b)
    ensures var t := s[..i] + b + s[i + BLOCKLEN..];
            |t| == |s| && Mid(t, i) == b && From(t, i + BLOCKLEN) == From(s, i + BLOCKLEN)
  {}

  /** The text is combined with the last block of cipher text in place. */
  method CbcEncode(level: Level, k: seq<byte>, x: seq<byte>, iv: seq<byte>) returns (ret: seq<byte>)
    requires KeyFor(level, k) && Block(iv) && Fits(CBC, |x|)
    ensures ret == EncodeAll(level, k, CBC, iv, x)
  {
    hide Nr, Nk, Enc, KeyFor, EncodeAll, Fits, Encoded, ByteXor, Mid, From, First, Rest;
    ret := [];
    var ivTemp, alignedText := iv, x;
    var i := 0;
    NoneYet(level, k, CBC, iv, x);
    while i < |x|
      invariant 0 <= i && Block(ivTemp) && Encoded(level, k, CBC, iv, x, ivTemp, i, ret)
      invariant |alignedText| == |x| && From(alignedText, i) == From(x, i)
    {
      EncodeNext(level, k, CBC, iv, x, ivTemp, i, ret);
      MidIsFirst(x, i);
      MidIsFirst(alignedText, i);
      WholeBlock(alignedText, i);
      var b := ByteXor(Mid(alignedText, i), ivTemp);
      Replaced(alignedText, i, b);
      alignedText := alignedText[..i] + b + alignedText[i + BLOCKLEN..];
      var y := CipherOf(level, k, Mid(alignedText, i));
      MidOfEnd(ret, y);
      ret := ret + y;
      ivTemp := Mid(ret, i);
      i := i + BLOCKLEN;
    }
    AllDone(level, k, CBC, iv, x, ivTemp, i, ret);
  }

  /** The first block is combined with the encrypted initial vector, each later one with the encrypted block before it. */
  method CfbEncode(level: Level, k: seq<byte>, x: seq<byte>, iv: seq<byte>) returns (ret: seq<byte>)
    requires KeyFor(level, k) && Block(iv)
    ensures ret == EncodeAll(level, k, CFB, iv, x)
  {
    hide Nr, Nk, Enc, KeyFor, EncodeAll, Encoded, ByteXor, Mid;
    NoneYet(level, k, CFB, iv, x);
    var s := CipherOf(level, k, iv);
    ghost var chain := iv;
    ret := ByteXor(Mid(x, 0), s);
    if x != [] {
      EncodeNext(level, k, CFB, iv, x, iv, 0, []);
      assert [] + ret == ret;
      chain := NextChain(level, k, CFB, iv, ret);
      MidOfEnd([], ret);
    } else {
      AllDone(level, k, CFB, iv, x, iv, 0, []);
      assert ret == [];
    }
    var i := 0;
    while i < |x|
      invariant 0 <= i && Block(chain) && Encoded(level, k, CFB, iv, x, chain, i + BLOCKLEN, ret)
      invariant i + BLOCKLEN < |x| ==> chain == Mid(ret, i)
    {
      if i + BLOCKLEN < |x| {
        EncodeNext(level, k, CFB, iv, x, chain, i + BLOCKLEN, ret);
        s := CipherOf(level, k, Mid(ret, i));
        var y := ByteXor(Mid(x, i + BLOCKLEN), s);
        MidOfEnd(ret, y);
        ret := ret + y;
        chain := NextChain(level, k, CFB, chain, y);
      } else {
        AllDone(level, k, CFB, iv, x, chain, i + BLOCKLEN, ret);
      }
      i := i + BLOCKLEN;
    }
    AllDone(level, k, CFB, iv, x, chain, i + BLOCKLEN, ret);
  }

  /** n blocks of key stream: the chaining value encrypted over and over. */
  function KeyStream(level: Level, k: seq<byte>, chain: seq<byte>, n: nat): (r: seq<byte>)
    requires KeyFor(level, k) && Block(chain)
    ensures |r| == 16 * n
    decreases n
  {
    if n == 0 then [] else var c := Enc(level, k, chain); c + KeyStream(level, k, c, n - 1)
  }

  lemma {:induction false} KeyStreamGrows(level: Level, k: seq<byte>, chain: seq<byte>, n: nat)
    requires KeyFor(level, k) && Block(chain) && 0 < n
    ensures KeyStream(level, k, chain, n + 1) ==
            KeyStream(level, k, chain, n) + Enc(level, k, Right(KeyStream(level, k, chain, n)))
    decreases n
  {
    hide Enc, KeyFor;
    var c := Enc(level, k, chain);
    if n == 1 {
      assert c + [] == c;
      assert KeyStream(level, k, c, 0) == [];
      assert KeyStream(level, k, Enc(level, k, c), 0) == [];
      assert KeyStream(level, k, c, 1) == Enc(level, k, c) + [];
    } else {
      KeyStreamGrows(level, k, c, n - 1);
      var t := KeyStream(level, k, c, n - 1);
      assert Right(c + t) == Right(t);
      Rejoin(c, t, Enc(level, k, Right(t)));
    }
  }

  lemma XorSplit(x: seq<byte>, a: seq<byte>, b: seq<byte>)
    requires |a| == BLOCKLEN && |x| <= |a| + |b|
    ensures ByteXor(x, a + b) == ByteXor(First(x), a) + ByteXor(Rest(x), b)
  {
    hide Add;
  }

  /** OFB is the text combined with the key stream, either way. */
  lemma {:induction false} StreamIsChain(level: Level, k: seq<byte>, chain: seq<byte>, x: seq<byte>, n: nat)
    requires KeyFor(level, k) && Block(chain) && |x| <= 16 * n
    ensures ByteXor(x, KeyStream(level, k, chain, n)) == EncodeAll(level, k, OFB, chain, x) == DecodeAll(level, k, OFB, chain, x)
    decreases n
  {
    hide Nr, Nk, Enc, KeyFor, ByteXor, First, Rest;
    if x == [] {
      NoXor(KeyStream(level, k, chain, n));
    } else {
      RestLength(x, n);
      var c := Enc(level, k, chain);
      XorSplit(x, c, KeyStream(level, k, c, n - 1));
      StreamIsChain(level, k, c, Rest(x), n - 1);
    }
  }

  lemma RestLength(x: seq<byte>, n: nat)
    requires x != [] && |x| <= 16 * n
    ensures 0 < n && |Rest(x)| <= 16 * (n - 1)
  {}

  lemma NoXor(s: seq<byte>)
    ensures ByteXor([], s) == []
  {}

  /** The key stream, then the whole text at once; decode does the same. */
  method OfbCode(level: Level, k: seq<byte>, x: seq<byte>, iv: seq<byte>) returns (ret: seq<byte>)
    requires KeyFor(level, k) && Block(iv)
    ensures ret == EncodeAll(level, k, OFB, iv, x) == DecodeAll(level, k, OFB, iv, x)
  {
    hide Nr, Nk, Enc, KeyFor, EncodeAll, DecodeAll, ByteXor, Right;
    var ofbTemp := CipherOf(level, k, iv);
    ghost var n := 1;
    OneBlock(level, k, iv);
    var i := BLOCKLEN;
    while i < |x|
      invariant 1 <= n && 0 <= i && i == 16 * n && ofbTemp == KeyStream(level, k, iv, n)
    {
      KeyStreamGrows(level, k, iv, n);
      var c := CipherOf(level, k, Right(ofbTemp));
      ofbTemp := ofbTemp + c;
      n := n + 1;
      i := i + BLOCKLEN;
    }
    StreamIsChain(level, k, iv, x, n);
    ret := ByteXor(x, ofbTemp);
  }

  lemma OneBlock(level: Level, k: seq<byte>, chain: seq<byte>)
    requires KeyFor(level, k) && Block(chain)
    ensures KeyStream(level, k, chain, 1) == Enc(level, k, chain)
  {
    hide Enc, KeyFor;
    assert KeyStream(level, k, Enc(level, k, chain), 0) == [];
  }

  // ---- decode

  /** A block of y, if it is a whole one. */
  lemma WholeMid(mode: Mode, y: seq<byte>, i: nat)
    requires (mode == ECB || mode == CBC) && i % 16 == 0 && i < |y|
    ensures |Mid(y, i)| < BLOCKLEN ==> !Fits(mode, |y|)
    ensures |Mid(y, i)| >= BLOCKLEN ==> Block(Mid(y, i)) && i + 16 <= |y| && (i + 16) % 16 == 0
  {}

  /** invCipher of each block; None when it looks past the end of a partial one. */
  method EcbDecode(level: Level, k: seq<byte>, y: seq<byte>, ghost iv: seq<byte>) returns (r: Option<seq<byte>>)
    requires KeyFor(level, k) && Block(iv)
    ensures r.Some? <==> Fits(ECB, |y|)
    ensures r.Some? ==> r.value == DecodeAll(level, k, ECB, iv, y)
  {
    hide Nr, Nk, Dec, KeyFor, DecodeAll, Fits, Decoded, Mid, Block;
    var ret := [];
    var i := 0;
    if Fits(ECB, |y|) {
      NoneYet(level, k, ECB, iv, y);
    }
    while i < |y|
      invariant 0 <= i <= |y| && i % 16 == 0 && (Fits(ECB, |y|) ==> Decoded(level, k, ECB, iv, y, iv, i, ret))
    {
      WholeMid(ECB, y, i);
      if |Mid(y, i)| < BLOCKLEN {
        return None;
      }
      if Fits(ECB, |y|) {
        DecodeNext(level, k, ECB, iv, y, iv, i, ret);
      }
      var x := InvCipherOf(level, k, Mid(y, i));
      ret := ret + x;
      i := i + BLOCKLEN;
    }
    WholeFits(ECB, |y|);
    AllDone(level, k, ECB, iv, y, iv, i, ret);
    return Some(ret);
  }

  lemma WholeFits(mode: Mode, n: nat)
    requires n % 16 == 0
    ensures Fits(mode, n)
  {}

  /** The decrypted block is put at the end and combined there. */
  method CbcDecode(level: Level, k: seq<byte>, y: seq<byte>, iv: seq<byte>) returns (r: Option<seq<byte>>)
    requires KeyFor(level, k) && Block(iv)
    ensures r.Some? <==> Fits(CBC, |y|)
    ensures r.Some? ==> r.value == DecodeAll(level, k, CBC, iv, y)
  {
    hide Nr, Nk, Dec, KeyFor, DecodeAll, Fits, Decoded, ByteXor, Mid, Block;
    var ret := [];
    var ivTemp := iv;
    var i := 0;
    if Fits(CBC, |y|) {
      NoneYet(level, k, CBC, iv, y);
    }
    while i < |y|
      invariant 0 <= i <= |y| && i % 16 == 0 && Block(ivTemp) && |ret| == i
      invariant Fits(CBC, |y|) ==> Decoded(level, k, CBC, iv, y, ivTemp, i, ret)
    {
      WholeMid(CBC, y, i);
      if |Mid(y, i)| < BLOCKLEN {
        return None;
      }
      if Fits(CBC, |y|) {
        DecodeNext(level, k, CBC, iv, y, ivTemp, i, ret);
      }
      ivTemp, ret := CbcBlock(level, k, y, ivTemp, i, ret);
      i := i + BLOCKLEN;
    }
    WholeFits(CBC, |y|);
    AllDone(level, k, CBC, iv, y, ivTemp, i, ret);
    return Some(ret);
  }

  /** One turn of the loop. */
  method CbcBlock(level: Level, k: seq<byte>, y: seq<byte>, ivTemp: seq<byte>, i: nat, ret: seq<byte>)
    returns (ivTemp': seq<byte>, ret': seq<byte>)
    requires KeyFor(level, k) && Block(ivTemp) && Block(Mid(y, i)) && |ret| == i
    ensures ivTemp' == Mid(y, i) && ret' == ret + ByteXor(Dec(level, k, Mid(y, i)), ivTemp) && |ret'| == i + BLOCKLEN
  {
    hide Nr, Nk, Dec, KeyFor, Mid;
    var x := InvCipherOf(level, k, Mid(y, i));
    MidOfEnd(ret, x);
    ret' := ret + x;
    assert ret'[..i] == ret;
    ret' := ret'[..i] + ByteXor(Mid(ret', i), ivTemp);
    ivTemp' := Mid(y, i);
  }

  method CfbDecode(level: Level, k: seq<byte>, y: seq<byte>, iv: seq<byte>) returns (ret: seq<byte>)
    requires KeyFor(level, k) && Block(iv)
    ensures ret == DecodeAll(level, k, CFB, iv, y)
  {
    hide Nr, Nk, Enc, KeyFor, DecodeAll, Decoded, ByteXor, Mid;
    NoneYet(level, k, CFB, iv, y);
    var s := CipherOf(level, k, iv);
    ghost var chain := iv;
    ret := ByteXor(Mid(y, 0), s);
    if y != [] {
      DecodeNext(level, k, CFB, iv, y, iv, 0, []);
      assert [] + ret == ret;
      chain := NextChain(level, k, CFB, iv, Mid(y, 0));
    } else {
      AllDone(level, k, CFB, iv, y, iv, 0, []);
      assert ret == [];
    }
    var i := 0;
    while i < |y|
      invariant 0 <= i && Block(chain) && Decoded(level, k, CFB, iv, y, chain, i + BLOCKLEN, ret)
      invariant i + BLOCKLEN < |y| ==> chain == Mid(y, i)
    {
      if i + BLOCKLEN < |y| {
        DecodeNext(level, k, CFB, iv, y, chain, i + BLOCKLEN, ret);
        s := CipherOf(level, k, Mid(y, i));
        ret := ret + ByteXor(Mid(y, i + BLOCKLEN), s);
        chain := NextChain(level, k, CFB, chain, Mid(y, i + BLOCKLEN));
      } else {
        AllDone(level, k, CFB, iv, y, chain, i + BLOCKLEN, ret);
      }
      i := i + BLOCKLEN;
    }
    AllDone(level, k, CFB, iv, y, chain, i + BLOCKLEN, ret);
  }

  // ---- the whole

  /** A mode that needs an initial vector gets one block of it. */
  predicate Started(mode: Mode, iv: seq<byte>)
  {
    mode == ECB || Block(iv)
  }

  /** ECB takes no notice of the initial vector. */
  function Start(mode: Mode, iv: seq<byte>): (c: seq<byte>)
    requires Started(mode, iv)
    ensures Block(c)
  {
    if mode == ECB then Fill(BLOCKLEN, 0) else iv
  }

  lemma PaddedFits(mode: Mode, padding: Padding, x: seq<byte>)
    ensures Fits(mode, |x + GetPadding(padding, |x|)|)
  {}

  /** encode: nothing at all without the initial vector. */
  method Encode(level: Level, mode: Mode, padding: Padding, rawText: seq<byte>, key: seq<byte>, iv: seq<byte>)
    returns (ret: seq<byte>)
    requires |key| == 4 * Nk(level)
    ensures !Started(mode, iv) ==> ret == []
    ensures Started(mode, iv) ==>
              var x := rawText + GetPadding(padding, |rawText|);
              && Fits(mode, |x|)
              && ret == EncodeAll(level, KeySchedule(level, key), mode, Start(mode, iv), x)
  {
    hide EncodeAll, KeySchedule, GetPadding, KeyFor, Fits;
    if mode != ECB && (iv == [] || |iv| != BLOCKLEN) {
      return [];
    }
    var expandedKey := ExpandKey(level, key);
    var alignedText := rawText + GetPadding(padding, |rawText|);
    PaddedFits(mode, padding, rawText);
    match mode {
      case ECB => ret := EcbEncode(level, expandedKey, alignedText, Start(mode, iv));
      case CBC => ret := CbcEncode(level, expandedKey, alignedText, iv);
      case CFB => ret := CfbEncode(level, expandedKey, alignedText, iv);
      case OFB => ret := OfbCode(level, expandedKey, alignedText, iv);
    }
  }

  /** decode, of whole blocks where the mode needs them. */
  method Decode(level: Level, mode: Mode, rawText: seq<byte>, key: seq<byte>, iv: seq<byte>) returns (r: Option<seq<byte>>)
    requires |key| == 4 * Nk(level)
    ensures !Started(mode, iv) ==> r == Some([])
    ensures Started(mode, iv) ==> (r.Some? <==> Fits(mode, |rawText|))
    ensures Started(mode, iv) && r.Some? ==> r.value == DecodeAll(level, KeySchedule(level, key), mode, Start(mode, iv), rawText)
  {
    hide DecodeAll, KeySchedule, KeyFor;
    if mode != ECB && (iv == [] || |iv| != BLOCKLEN) {
      return Some([]);
    }
    var expandedKey := ExpandKey(level, key);
    match mode {
      case ECB => r := EcbDecode(level, expandedKey, rawText, Start(mode, iv));
      case CBC => r := CbcDecode(level, expandedKey, rawText, iv);
      case CFB =>
        var ret := CfbDecode(level, expandedKey, rawText, iv);
        r := Some(ret);
      case OFB =>
        var ret := OfbCode(level, expandedKey, rawText, iv);
        r := Some(ret);
    }
  }

  /** What was encoded and is then decoded with the same key and initial vector is the text with its padding. */
  method EncodeDecode(level: Level, mode: Mode, padding: Padding, rawText: seq<byte>, key: seq<byte>, iv: seq<byte>)
    returns (sealed: seq<byte>, back: Option<seq<byte>>)
    requires |key| == 4 * Nk(level)
    ensures Started(mode, iv) ==> back == Some(rawText + GetPadding(padding, |rawText|)) && |sealed| == |back.value|
    ensures Started(mode, iv) && padding == PKCS7 ==> Removed(back.value, padding) == Some(rawText)
    ensures !Started(mode, iv) ==> sealed == [] && back == Some([])
  {
    hide EncodeAll, DecodeAll, KeySchedule, GetPadding, Fits, KeyFor, Removed;
    Pkcs7Back(rawText);
    sealed := Encode(level, mode, padding, rawText, key, iv);
    back := Decode(level, mode, sealed, key, iv);
    if Started(mode, iv) {
      ModeBack(level, KeySchedule(level, key), mode, Start(mode, iv), rawText + GetPadding(padding, |rawText|));
    }
  }
}
