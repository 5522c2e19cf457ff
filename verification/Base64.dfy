/** Base64 (section 4 of RFC 4648), and the two codecs: base64j.java and base64.cpp. */
module Base64 {
  import opened BitStream
  import opened JavaArithmetic

  datatype Result<T> = Ok(value: T) | Err

  // ---- the alphabet

  /** map1, base64en */
  function Digit(v: nat): char
    requires v < 64
  {
    if v < 26 then 'A' + v as char
    else if v < 52 then 'a' + (v - 26) as char
    else if v < 62 then '0' + (v - 52) as char
    else if v == 62 then '+' else '/'
  }

  predicate IsDigit(c: char)
  {
    'A' <= c <= 'Z' || 'a' <= c <= 'z' || '0' <= c <= '9' || c == '+' || c == '/'
  }

  function Value(c: char): (v: nat)
    requires IsDigit(c)
    ensures v < 64
  {
    if 'A' <= c <= 'Z' then (c - 'A') as nat
    else if 'a' <= c <= 'z' then 26 + (c - 'a') as nat
    else if '0' <= c <= '9' then 52 + (c - '0') as nat
    else if c == '+' then 62 else 63
  }

  /** map2, base64de: a value that is no digit's for every other character. */
  function ValueOr(c: char, none: int): int
  {
    if IsDigit(c) then Value(c) else none
  }

  lemma DigitValue(v: nat)
    requires v < 64
    ensures IsDigit(Digit(v)) && Value(Digit(v)) == v && Digit(v) != '='
  {}

  // ---- three bytes and four groups of six bits

  function Sextet0(a: byte): (v: nat)
    ensures v < 64
  {
    a / 4
  }

  function Sextet1(a: byte, b: byte): (v: nat)
    ensures v < 64
  {
    a % 4 * 16 + b / 16
  }

  function Sextet2(b: byte, c: byte): (v: nat)
    ensures v < 64
  {
    b % 16 * 4 + c / 64
  }

  function Sextet3(c: byte): (v: nat)
    ensures v < 64
  {
    c % 64
  }

  function Octet0(u: nat, v: nat): byte
    requires u < 64 && v < 64
  {
    u * 4 + v / 16
  }

  function Octet1(v: nat, w: nat): byte
    requires v < 64 && w < 64
  {
    v % 16 * 16 + w / 4
  }

  function Octet2(w: nat, x: nat): byte
    requires w < 64 && x < 64
  {
    w % 4 * 64 + x
  }

  lemma Octets(a: byte, b: byte, c: byte)
    ensures Octet0(Sextet0(a), Sextet1(a, b)) == a
    ensures Octet1(Sextet1(a, b), Sextet2(b, c)) == b
    ensures Octet2(Sextet2(b, c), Sextet3(c)) == c
  {}

  // ---- what is encoded

  function Encode(s: seq<byte>): (r: seq<char>)
    ensures |r| == (|s| + 2) / 3 * 4
  {
    if |s| == 0 then []
    else if |s| == 1 then [Digit(Sextet0(s[0])), Digit(Sextet1(s[0], 0)), '=', '=']
    else if |s| == 2 then [Digit(Sextet0(s[0])), Digit(Sextet1(s[0], s[1])), Digit(Sextet2(s[1], 0)), '=']
    else Four(s[0], s[1], s[2]) + Encode(s[3..])
  }

  function Four(a: byte, b: byte, c: byte): seq<char>
  {
    [Digit(Sextet0(a)), Digit(Sextet1(a, b)), Digit(Sextet2(b, c)), Digit(Sextet3(c))]
  }

  predicate AllDigits(cs: seq<char>)
  {
    forall i :: 0 <= i < |cs| ==> IsDigit(cs[i])
  }

  /** What digits stand for; a single digit left over stands for nothing. */
  function Decode(cs: seq<char>): (r: seq<byte>)
    requires AllDigits(cs)
    ensures |r| == |cs| * 3 / 4
  {
    if |cs| < 2 then []
    else
      var b0, b1 := Value(cs[0]), Value(cs[1]);
      if |cs| == 2 then [Octet0(b0, b1)]
      else
        var b2 := Value(cs[2]);
        if |cs| == 3 then [Octet0(b0, b1), Octet1(b1, b2)]
        else [Octet0(b0, b1), Octet1(b1, b2), Octet2(b2, Value(cs[3]))] + Decode(cs[4..])
  }

  /** Without the padding at the end. */
  function Strip(cs: seq<char>): (r: seq<char>)
    ensures r <= cs && (r == [] || r[|r| - 1] != '=')
  {
    if cs == [] || cs[|cs| - 1] != '=' then cs else Strip(cs[..|cs| - 1])
  }

  /** Up to the first padding character. */
  function UpToPad(cs: seq<char>): (r: seq<char>)
    ensures r <= cs && '=' !in r
  {
    if cs == [] || cs[0] == '=' then [] else [cs[0]] + UpToPad(cs[1..])
  }

  // ---- round trip

  lemma {:induction false} StripAfter(a: seq<char>, b: seq<char>)
    requires a == [] || a[|a| - 1] != '='
    ensures Strip(a + b) == a + Strip(b)
  {
    if b == [] {
      assert a + b == a;
    } else {
      assert (a + b)[..|a + b| - 1] == a + b[..|b| - 1];
      StripAfter(a, b[..|b| - 1]);
    }
  }

  /** The digits of an encoding, without its padding. */
  function Digits(s: seq<byte>): (r: seq<char>)
  {
    if |s| == 0 then []
    else if |s| == 1 then [Digit(Sextet0(s[0])), Digit(Sextet1(s[0], 0))]
    else if |s| == 2 then [Digit(Sextet0(s[0])), Digit(Sextet1(s[0], s[1])), Digit(Sextet2(s[1], 0))]
    else Four(s[0], s[1], s[2]) + Digits(s[3..])
  }

  lemma {:induction false} DecodeDigits(s: seq<byte>)
    ensures AllDigits(Digits(s)) && Decode(Digits(s)) == s
  {
    hide Digit, Value, IsDigit, Sextet0, Sextet1, Sextet2, Sextet3, Octet0, Octet1, Octet2;
    if |s| <= 2 {
      DecodeFew(s);
    } else {
      DigitValue(Sextet0(s[0]));
      DigitValue(Sextet1(s[0], s[1]));
      DigitValue(Sextet2(s[1], s[2]));
      DigitValue(Sextet3(s[2]));
      DecodeDigits(s[3..]);
      Octets(s[0], s[1], s[2]);
      assert Digits(s)[4..] == Digits(s[3..]);
      assert s == [s[0], s[1], s[2]] + s[3..];
    }
  }

  lemma DecodeFew(s: seq<byte>)
    requires |s| <= 2
    ensures AllDigits(Digits(s)) && Decode(Digits(s)) == s
  {
    hide Digit, Value, IsDigit, Sextet0, Sextet1, Sextet2, Sextet3, Octet0, Octet1, Octet2;
    if |s| == 1 {
      Octets(s[0], 0, 0);
      DigitValue(Sextet0(s[0]));
      DigitValue(Sextet1(s[0], 0));
    } else if |s| == 2 {
      Octets(s[0], s[1], 0);
      DigitValue(Sextet0(s[0]));
      DigitValue(Sextet1(s[0], s[1]));
      DigitValue(Sextet2(s[1], 0));
    }
  }

  function Padding(n: nat): seq<char>
  {
    if n % 3 == 1 then ['=', '='] else if n % 3 == 2 then ['='] else []
  }

  lemma {:induction false} EncodeIs(s: seq<byte>)
    ensures Encode(s) == Digits(s) + Padding(|s|)
  {
    hide Digit, Four, Sextet0, Sextet1, Sextet2, Sextet3;
    if |s| > 2 {
      EncodeIs(s[3..]);
    }
  }

  lemma StripPadding(n: nat)
    ensures Strip(Padding(n)) == []
  {
    assert Strip([]) == [];
    assert ['='][..0] == [] && ['=', '='][..1] == ['='];
  }

  lemma NoPad(c: char)
    requires IsDigit(c)
    ensures c != '='
  {}

  lemma {:induction false} UpToPadAfter(a: seq<char>, b: seq<char>)
    requires AllDigits(a)
    ensures UpToPad(a + b) == a + UpToPad(b)
  {
    hide IsDigit;
    if a == [] {
      assert a + b == b;
    } else {
      NoPad(a[0]);
      assert (a + b)[1..] == a[1..] + b;
      UpToPadAfter(a[1..], b);
    }
  }

  /** Both ways of leaving out the padding give the digits, and these decode to what was encoded. */
  lemma RoundTrip(s: seq<byte>)
    ensures |Encode(s)| % 4 == 0
    ensures Strip(Encode(s)) == Digits(s) && UpToPad(Encode(s)) == Digits(s)
    ensures AllDigits(Digits(s)) && Decode(Digits(s)) == s && |Digits(s)| % 4 != 1
  {
    hide Digits, IsDigit, Decode, Encode, Strip;
    DecodeDigits(s);
    EncodeIs(s);
    var d := Digits(s);
    if d != [] {
      NoPad(d[|d| - 1]);
    }
    StripAfter(d, Padding(|s|));
    StripPadding(|s|);
    UpToPadAfter(d, Padding(|s|));
    assert UpToPad(Padding(|s|)) == [];
    PaddedLength(|d|, |s|);
  }

  lemma PaddedLength(d: nat, n: nat)
    requires d * 3 / 4 == n && (d + |Padding(n)|) == (n + 2) / 3 * 4
    ensures d % 4 != 1
  {}

  lemma {:induction false} DigitsLength(s: seq<byte>)
    ensures |Digits(s)| == (|s| * 4 + 2) / 3
    decreases |s|
  {
    hide Digit, Sextet0, Sextet1, Sextet2, Sextet3;
    if |s| >= 3 {
      DigitsLength(s[3..]);
    }
  }

  // ---- base64j.java

  lemma EncodeRest(s: seq<byte>, i: nat)
    requires i + 3 <= |s|
    ensures Encode(s[i..]) == Four(s[i], s[i + 1], s[i + 2]) + Encode(s[i + 3..])
  {
    hide Four, Sextet0, Sextet1, Sextet2, Sextet3;
    assert s[i..][3..] == s[i + 3..];
  }

  /** Four characters; the last two may be padding. */
  function Group(i0: byte, i1: byte, i2: byte, third: bool, fourth: bool): (r: seq<char>)
    ensures |r| == 4
  {
    [Digit(Sextet0(i0)), Digit(Sextet1(i0, i1)), if third then Digit(Sextet2(i1, i2)) else '=', if fourth then Digit(Sextet3(i2)) else '=']
  }

  method PutGroup(out: array<char>, op: nat, i0: byte, i1: byte, i2: byte, third: bool, fourth: bool)
    requires op + 4 <= out.Length
    modifies out
    ensures out[..op + 4] == old(out[..op]) + Group(i0, i1, i2, third, fourth)
  {
    hide Digit, Sextet0, Sextet1, Sextet2, Sextet3;
    out[op] := Digit(Sextet0(i0));
    out[op + 1] := Digit(Sextet1(i0, i1));
    out[op + 2] := if third then Digit(Sextet2(i1, i2)) else '=';
    out[op + 3] := if fourth then Digit(Sextet3(i2)) else '=';
  }

  /** (iLen * 4 + 2) / 3, the length without padding as an int. */
  function DataLen(iLen: nat): int
  {
    Quotient(Int(Int(iLen * 4) + 2), 3)
  }

  /** ((iLen + 2) / 3) * 4, the length with padding as an int. */
  function TextLen(iLen: nat): int
  {
    Int(Quotient(Int(iLen + 2), 3) * 4)
  }

  /** The most bytes whose encoding has a length that is an int. */
  const MOST_BYTES: nat := 0x5fff_fffd

  lemma TextLenIs(n: nat)
    requires n <= 0x7fff_ffff
    ensures n <= MOST_BYTES ==> TextLen(n) == (n + 2) / 3 * 4
    ensures MOST_BYTES < n ==> TextLen(n) < (n + 2) / 3 * 4
  {
    if n <= 0x7fff_fffd {
      Wrapped((n + 2) / 3 * 4);
    }
  }

  lemma DataLenIs(n: nat)
    requires n <= MOST_BYTES
    ensures n < 0x2000_0000 ==> DataLen(n) == (n * 4 + 2) / 3
    ensures 0x2000_0000 <= n ==> DataLen(n) + 12 <= (n * 4 + 2) / 3
  {
    Wrapped(n * 4);
    assert Int(Int(n * 4) + 2) == Int(n * 4 + 2);
    Wrapped(n * 4 + 2);
  }

  /** A text with padding for every third and fourth character of a group from place d on. */
  function Masked(cs: seq<char>, d: int): (r: seq<char>)
    ensures |r| == |cs| && forall i :: 0 <= i < |r| ==> r[i] == if d <= i && i % 4 >= 2 then '=' else cs[i]
  {
    seq(|cs|, i requires 0 <= i < |cs| => if d <= i && i % 4 >= 2 then '=' else cs[i])
  }

  lemma MaskedGroup(e: seq<char>, op: nat, i0: byte, i1: byte, i2: byte, third: bool, fourth: bool, d: int)
    requires op % 4 == 0 && op + 4 <= |e| && e[op..op + 4] == Group(i0, i1, i2, third, fourth)
    requires (op + 2 < d ==> third) && (op + 3 < d ==> fourth)
    ensures Masked(e[..op + 4], d) == Masked(e[..op], d) + Group(i0, i1, i2, op + 2 < d, op + 3 < d)
  {
    hide Digit, Sextet0, Sextet1, Sextet2, Sextet3;
    var g := e[op..op + 4];
    assert e[op] == g[0] && e[op + 1] == g[1] && e[op + 2] == g[2] && e[op + 3] == g[3];
  }

  /** encode: three bytes make four characters; missing bytes are zeros, and what only they make is padding. Err for
      an exception: an array of negative length, or one that is too short. */
  method JavaEncode(input: seq<byte>) returns (r: Result<array<char>>)
    requires |input| <= MAX_INT
    ensures r.Ok? <==> |input| <= MOST_BYTES
    ensures r.Ok? ==> fresh(r.value) && r.value[..] == Masked(Encode(input), DataLen(|input|))
    ensures r.Ok? && r.value[..] == Encode(input) <==> |input| < 0x2000_0000
  {
    hide Digit, Encode, Group, Masked, Sextet0, Sextet1, Sextet2, Sextet3, TextLen, DataLen;
    TextLenIs(|input|);
    var oDataLen := DataLen(|input|);
    var oLen := TextLen(|input|);
    if oLen < 0 {
      return Err;
    }
    var out := new char[oLen];
    var ip, op := 0, 0;
    ghost var groups, e := 0, Encode(input);
    while ip < |input|
      invariant 0 <= ip <= |input| && op <= oLen && op == 4 * groups && ip == (if 3 * groups < |input| then 3 * groups else |input|)
      invariant groups > 0 ==> 3 * groups < |input| + 3
      invariant |input| <= MOST_BYTES ==> op <= |e| && e == e[..op] + Encode(input[ip..]) && out[..op] == Masked(e[..op], oDataLen)
      decreases |input| - ip
    {
      var i0 := input[ip];
      var i1 := if ip + 1 < |input| then input[ip + 1] else 0;
      var i2 := if ip + 2 < |input| then input[ip + 2] else 0;
      if op + 4 > oLen {
        return Err;
      }
      PutGroup(out, op, i0, i1, i2, op + 2 < oDataLen, op + 3 < oDataLen);
      if |input| <= MOST_BYTES {
        NextGroup(input, e, ip, op, i0, i1, i2, oDataLen);
      }
      ip := if ip + 3 < |input| then ip + 3 else |input|;
      op, groups := op + 4, groups + 1;
    }
    assert op == (|input| + 2) / 3 * 4;
    NothingLeft(input);
    assert out[..] == out[..op];
    assert e[..op] == e;
    WhenRight(input);
    return Ok(out);
  }

  /** One more group of the encoding, and of the text. */
  lemma NextGroup(input: seq<byte>, e: seq<char>, ip: nat, op: nat, i0: byte, i1: byte, i2: byte, d: int)
    requires ip < |input| <= MOST_BYTES && d == DataLen(|input|) && op <= |e| && e == Encode(input) && op == ip / 3 * 4 && ip % 3 == 0
    requires i0 == input[ip] && i1 == (if ip + 1 < |input| then input[ip + 1] else 0) && i2 == (if ip + 2 < |input| then input[ip + 2] else 0)
    requires e == e[..op] + Encode(input[ip..])
    ensures op + 4 <= |e|
    ensures e == e[..op + 4] + Encode(input[if ip + 3 < |input| then ip + 3 else |input|..])
    ensures Masked(e[..op + 4], d) == Masked(e[..op], d) + Group(i0, i1, i2, op + 2 < d, op + 3 < d)
  {
    hide Digit, Encode, Group, Masked, Sextet0, Sextet1, Sextet2, Sextet3, DataLen;
    var left := |input| - ip;
    NextEncoded(input, e, ip, op, Group(i0, i1, i2, 2 <= left, 3 <= left));
    NotMasked(|input|, ip, op);
    MaskedGroup(e, op, i0, i1, i2, 2 <= left, 3 <= left, d);
  }

  lemma NextEncoded(input: seq<byte>, e: seq<char>, ip: nat, op: nat, g: seq<char>)
    requires ip < |input| && op <= |e| && e == e[..op] + Encode(input[ip..])
    requires var r := |input| - ip;
             g == Group(input[ip], if r < 2 then 0 else input[ip + 1], if r < 3 then 0 else input[ip + 2], 2 <= r, 3 <= r)
    ensures op + 4 <= |e| && e[op..op + 4] == g
    ensures e == e[..op + 4] + Encode(input[if ip + 3 < |input| then ip + 3 else |input|..])
  {
    hide Encode, Group;
    GroupOf(input, ip, g);
    var rest := Encode(input[if ip + 3 < |input| then ip + 3 else |input|..]);
    assert e == e[..op] + (g + rest);
    assert e[op..op + 4] == g && e[..op + 4] == e[..op] + g;
  }

  /** What is not masked is there. */
  lemma NotMasked(n: nat, ip: nat, op: nat)
    requires ip < n <= MOST_BYTES && ip % 3 == 0 && op == ip / 3 * 4
    ensures op % 4 == 0
    ensures op + 2 < DataLen(n) ==> ip + 2 <= n
    ensures op + 3 < DataLen(n) ==> ip + 3 <= n
  {
    hide DataLen;
    DataLenIs(n);
  }

  /** The padding of an encoding is what comes after its digits. */
  lemma PaddingIs(s: seq<byte>)
    ensures var e, n := Encode(s), (|s| * 4 + 2) / 3;
            |e| % 4 == 0 && n <= |e| <= n + 2 && forall i :: 0 <= i < |e| ==> (e[i] == '=' <==> n <= i)
  {
    hide Encode, Digits, IsDigit, Decode;
    EncodeIs(s);
    RoundTrip(s);
    DigitsLength(s);
    var e, d := Encode(s), Digits(s);
    forall i | 0 <= i < |e|
      ensures e[i] == '=' <==> |d| <= i
    {
      if i < |d| {
        assert e[i] == d[i];
        NoPad(d[i]);
      } else {
        assert e[i] == Padding(|s|)[i - |d|];
      }
    }
  }

  /** A third character of a group, before the last group. */
  function Third(n: nat): (i: nat)
    requires 8 <= n
    ensures i % 4 == 2 && n - 7 < i && i + 2 < n
  {
    (n - 1) / 4 * 4 - 2
  }

  /** The text is the encoding exactly when there is nothing to mask. */
  lemma WhenRight(input: seq<byte>)
    requires |input| <= MOST_BYTES
    ensures Masked(Encode(input), DataLen(|input|)) == Encode(input) <==> |input| < 0x2000_0000
  {
    hide Encode, DataLen, Masked, Third;
    DataLenIs(|input|);
    PaddingIs(input);
    var e, m, n := Encode(input), Masked(Encode(input), DataLen(|input|)), (|input| * 4 + 2) / 3;
    if |input| < 0x2000_0000 {
      assert m == e;
    } else {
      assert m[Third(n)] == '=' && e[Third(n)] != '=';
    }
  }

  /** At 2^29 bytes the length without padding wraps, and the third character is already padding. */
  lemma FirstWrong(s: seq<byte>)
    requires |s| == 0x2000_0000
    ensures DataLen(|s|) == -715827882 && TextLen(|s|) == |Encode(s)|
    ensures Masked(Encode(s), DataLen(|s|))[2] == '=' && Encode(s)[2] == Digit(Sextet2(s[1], s[2])) != '='
  {
    hide Masked, Digit, Sextet0, Sextet1, Sextet2, Sextet3;
    TextLenIs(|s|);
    DigitValue(Sextet2(s[1], s[2]));
    assert Encode(s) == Four(s[0], s[1], s[2]) + Encode(s[3..]);
  }

  lemma {:induction false} StripStops(cs: seq<char>, i: nat)
    requires i < |cs| && cs[i] != '='
    ensures i < |Strip(cs)|
  {
    if cs[|cs| - 1] == '=' {
      StripStops(cs[..|cs| - 1], i);
    }
  }

  /** A text with padding inside is no text that decode accepts. */
  lemma MaskedRefused(s: seq<byte>)
    requires 0x2000_0000 <= |s| <= MOST_BYTES
    ensures !Decodable(Masked(Encode(s), DataLen(|s|)))
  {
    hide Encode, DataLen, Masked, IsDigit, Strip, Third;
    DataLenIs(|s|);
    PaddingIs(s);
    var m, i := Masked(Encode(s), DataLen(|s|)), Third((|s| * 4 + 2) / 3);
    assert m[i] == '=' && m[i + 2] != '=';
    StripStops(m, i + 2);
    PadIsNone();
    assert Strip(m)[i] == '=';
  }

  /** What encode makes right, decode accepts. */
  lemma RightDecodable(s: seq<byte>)
    ensures Decodable(Encode(s)) && AllDigits(Strip(Encode(s))) && Decode(Strip(Encode(s))) == s
    ensures JavaDecodable(Encode(s)) <==> |s| < 0x2000_0000
  {
    hide Encode, Strip, AllDigits, Digits, Decode;
    RoundTrip(s);
    DigitsLength(s);
  }

  /** decode(encode(in)) is in for fewer than 2^29 bytes; for all others it is an exception. */
  method JavaRoundTrip(input: seq<byte>) returns (back: Result<seq<byte>>)
    requires |input| <= MAX_INT
    ensures back == if |input| < 0x2000_0000 then Ok(input) else Err
  {
    hide Encode, Masked, Decodable, JavaDecodable, AllDigits, Decode, DataLen;
    var text := JavaEncode(input);
    if text.Err? {
      return Err;
    }
    TextFits(|input|);
    back := JavaDecode(text.value[..]);
    RightDecodable(input);
    if 0x2000_0000 <= |input| {
      MaskedRefused(input);
      NotDecodable(text.value[..]);
    }
  }

  lemma TextFits(n: nat)
    requires n <= MOST_BYTES
    ensures (n + 2) / 3 * 4 <= MAX_INT
  {}

  lemma NotDecodable(cs: seq<char>)
    requires !Decodable(cs)
    ensures !JavaDecodable(cs)
  {}

  lemma NothingLeft(input: seq<byte>)
    ensures Encode(input[|input|..]) == []
  {}

  /** The characters of the next group. */
  lemma GroupOf(input: seq<byte>, ip: nat, cs: seq<char>)
    requires ip < |input|
    requires var r := |input| - ip;
             cs == Group(input[ip], if r < 2 then 0 else input[ip + 1], if r < 3 then 0 else input[ip + 2], 2 <= r, 3 <= r)
    ensures Encode(input[ip..]) == cs + Encode(input[if ip + 3 < |input| then ip + 3 else |input|..])
  {
    hide Digit, Sextet0, Sextet1, Sextet2, Sextet3;
    if ip + 3 <= |input| {
      EncodeRest(input, ip);
    }
  }

  /** What makes base64j.decode refuse its input. */
  predicate Decodable(cs: seq<char>)
  {
    |cs| % 4 == 0 && AllDigits(Strip(cs)) && |Strip(cs)| % 4 != 1
  }

  /** while (iLen > 0 && in[iOff + iLen - 1] == '=') iLen--; */
  method DropPadding(input: seq<char>) returns (iLen: nat)
    ensures iLen <= |input| && Strip(input) == input[..iLen] && (iLen < |input| ==> input[iLen] == '=')
  {
    iLen := |input|;
    assert input[..iLen] == input;
    while iLen > 0 && input[iLen - 1] == '='
      invariant 0 <= iLen <= |input| && Strip(input) == Strip(input[..iLen])
      invariant iLen < |input| ==> input[iLen] == '='
    {
      assert input[..iLen][..iLen - 1] == input[..iLen - 1];
      iLen := iLen - 1;
    }
  }

  /** (iLen * 3) / 4, the number of bytes as an int. */
  function ByteLen(iLen: nat): int
  {
    Quotient(Int(iLen * 3), 4)
  }

  /** The most digits whose triple is an int. */
  const MOST_DIGITS: nat := 0x2aaa_aaaa

  lemma ByteLenIs(n: nat)
    requires n <= 0x7fff_ffff
    ensures n <= MOST_DIGITS ==> ByteLen(n) == n * 3 / 4
    ensures MOST_DIGITS < n ==> ByteLen(n) <= (n - 1) / 4 * 3
  {
    Wrapped(n * 3);
  }

  /** What decode accepts; with too many digits the array for the bytes is too short. */
  predicate JavaDecodable(cs: seq<char>)
  {
    Decodable(cs) && |Strip(cs)| <= MOST_DIGITS
  }

  /** decode: trailing padding is dropped, however much there is. */
  method JavaDecode(input: seq<char>) returns (r: Result<seq<byte>>)
    requires |input| <= MAX_INT
    ensures r.Ok? <==> JavaDecodable(input)
    ensures r.Ok? ==> r.value == Decode(Strip(input))
  {
    hide AllDigits, Decode, Strip, ByteLen;
    if |input| % 4 != 0 {
      return Err;
    }
    var iLen := DropPadding(input);
    OneShort(|input|, iLen);
    var oLen := ByteLen(iLen);
    ByteLenIs(iLen);
    if oLen < 0 {
      return Err;
    }
    var ok, out := JavaGroups(input, iLen, oLen);
    if ok {
      return Ok(out);
    }
    return Err;
  }

  lemma OneShort(n: nat, i: nat)
    requires n % 4 == 0 && i <= n
    ensures i % 4 == 1 ==> i + 3 <= n
  {}

  /** Between groups: all before ip are digits, and out holds what they stand for. */
  ghost predicate Between(cs: seq<char>, ip: nat, done: seq<byte>)
  {
    && ip <= |cs| && (ip % 4 == 0 || (ip == |cs| && |cs| % 4 != 1)) && AllDigits(cs[..ip])
    && |done| == ip * 3 / 4 && (AllDigits(cs) ==> Decode(cs) == done + Decode(cs[ip..]))
  }

  lemma BetweenNext(cs: seq<char>, ip: nat, done: seq<byte>, o: seq<byte>)
    requires Between(cs, ip, done) && ip + 2 <= |cs| && ip % 4 == 0
    requires forall k :: ip <= k < ip + 4 && k < |cs| ==> IsDigit(cs[k])
    requires |o| == 3 && o[0] == Octet0(Value(cs[ip]), Value(cs[ip + 1]))
    requires ip + 3 <= |cs| ==> o[1] == Octet1(Value(cs[ip + 1]), Value(cs[ip + 2]))
    requires ip + 4 <= |cs| ==> o[2] == Octet2(Value(cs[ip + 2]), Value(cs[ip + 3]))
    ensures var n := |cs| * 3 / 4 - ip * 3 / 4;
            0 < n && Between(cs, if ip + 4 < |cs| then ip + 4 else |cs|, done + o[..if 3 <= n then 3 else n])
  {
    hide IsDigit, Value, Decode, AllDigits, Octet0, Octet1, Octet2;
    var next, n := if ip + 4 < |cs| then ip + 4 else |cs|, |cs| * 3 / 4 - ip * 3 / 4;
    GroupLength(ip, |cs|);
    MoreDigits(cs, ip, next);
    if AllDigits(cs) {
      DecodeGroup(cs, ip, o[..if 3 <= n then 3 else n]);
    }
  }

  lemma BetweenEnds(cs: seq<char>, done: seq<byte>)
    ensures Between(cs, 0, [])
    ensures Between(cs, |cs|, done) ==> |cs| % 4 != 1 && AllDigits(cs) && done == Decode(cs) && |done| == |cs| * 3 / 4
  {
    hide IsDigit, Value;
    assert cs[0..] == cs && cs[..|cs|] == cs && cs[|cs|..] == [];
  }

  lemma BetweenAt(cs: seq<char>, ip: nat, done: seq<byte>)
    requires Between(cs, ip, done) && ip < |cs|
    ensures ip % 4 == 0 && |done| == ip * 3 / 4
    ensures ip + 1 == |cs| ==> |cs| % 4 == 1
  {
    hide AllDigits, Decode;
    GroupLength(ip, |cs|);
  }

  /** The loop over the groups of four; it fails when out is full and there is more to put. */
  method JavaGroups(input: seq<char>, iLen: nat, oLen: nat) returns (ok: bool, bytes: seq<byte>)
    requires iLen <= |input| && (iLen < |input| ==> input[iLen] == '=') && (iLen % 4 == 1 ==> iLen < |input|)
    requires oLen == iLen * 3 / 4 || oLen <= (iLen - 1) / 4 * 3
    ensures ok <==> AllDigits(input[..iLen]) && iLen % 4 != 1 && oLen == iLen * 3 / 4
    ensures ok ==> bytes == Decode(input[..iLen])
  {
    hide IsDigit, Value, Decode, Between, Octet0, Octet1, Octet2;
    ghost var cs := input[..iLen];
    var out := new byte[oLen];
    var ip, op := 0, 0;
    BetweenEnds(cs, []);
    while ip < iLen
      invariant 0 <= ip <= iLen && op <= oLen && (ip % 4 == 0 || ip == iLen)
      invariant if oLen == iLen * 3 / 4 then Between(cs, ip, out[..op]) else 0 < ip ==> (ip - 1) / 4 * 3 < oLen
      invariant oLen != iLen * 3 / 4 ==> op == if (ip + 3) / 4 * 3 <= oLen then (ip + 3) / 4 * 3 else oLen
    {
      GroupLength(ip, iLen);
      var good, o := JavaGroup(input, iLen, ip);
      if !good {
        if oLen == iLen * 3 / 4 {
          BetweenAt(cs, ip, out[..op]);
        }
        return false, [];
      }
      if oLen == iLen * 3 / 4 {
        BetweenAt(cs, ip, out[..op]);
        BetweenNext(cs, ip, out[..op], o);
      }
      if op >= oLen {
        return false, [];
      }
      var n := if 3 <= oLen - op then 3 else oLen - op;
      PutBytes(out, op, o[..n]);
      op := op + n;
      ip := if ip + 4 < iLen then ip + 4 else iLen;
    }
    if oLen == iLen * 3 / 4 {
      BetweenEnds(cs, out[..op]);
    }
    assert out[..op] == out[..];
    return true, out[..];
  }

  /** How many bytes a group makes. */
  lemma GroupLength(ip: nat, iLen: nat)
    requires ip % 4 == 0 && ip < iLen
    ensures ip + 1 == iLen ==> iLen % 4 == 1
    ensures var next := if ip + 4 < iLen then ip + 4 else iLen;
            var n := iLen * 3 / 4 - ip * 3 / 4;
            && (next % 4 == 0 || next == iLen)
            && (ip + 2 <= iLen ==> next * 3 / 4 == ip * 3 / 4 + if 3 <= n then 3 else n)
            && (ip + 2 == iLen ==> n == 1) && (ip + 3 == iLen ==> n == 2) && (ip + 4 <= iLen ==> 3 <= n)
            && (ip + 2 <= iLen && next == iLen ==> iLen % 4 != 1)
  {
    var g := ip / 4;
    assert ip == 4 * g;
  }

  /** out[op++] = o for each of up to three bytes */
  method PutBytes(out: array<byte>, op: nat, o: seq<byte>)
    requires op + |o| <= out.Length
    modifies out
    ensures out[..op + |o|] == old(out[..op]) + o
  {
    for k := 0 to |o|
      invariant out[..op + k] == old(out[..op]) + o[..k]
    {
      out[op + k] := o[k];
    }
  }

  /** Four characters; those that are not there count as 'A', but a second one must be. */
  method JavaGroup(input: seq<char>, iLen: nat, ip: nat) returns (ok: bool, o: seq<byte>)
    requires ip < iLen <= |input| && ip + 1 < |input| && (iLen < |input| ==> input[iLen] == '=')
    ensures ok <==> ip + 2 <= iLen && forall k :: ip <= k < ip + 4 && k < iLen ==> IsDigit(input[k])
    ensures ok ==> && |o| == 3 && o[0] == Octet0(Value(input[ip]), Value(input[ip + 1]))
                   && (ip + 3 <= iLen ==> o[1] == Octet1(Value(input[ip + 1]), Value(input[ip + 2])))
                   && (ip + 4 <= iLen ==> o[2] == Octet2(Value(input[ip + 2]), Value(input[ip + 3])))
  {
    hide IsDigit, Value, Octet0, Octet1, Octet2;
    var i0 := input[ip];
    var i1 := input[ip + 1];
    var i2 := if ip + 2 < iLen then input[ip + 2] else 'A';
    var i3 := if ip + 3 < iLen then input[ip + 3] else 'A';
    var b0, b1, b2, b3 := ValueOr(i0, -1), ValueOr(i1, -1), ValueOr(i2, -1), ValueOr(i3, -1);
    LetterA();
    PadIsNone();
    ok := b0 >= 0 && b1 >= 0 && b2 >= 0 && b3 >= 0;
    o := [];
    if ok {
      o := [Octet0(b0, b1), Octet1(b1, b2), Octet2(b2, b3)];
    }
  }

  lemma LetterA()
    ensures IsDigit('A') && Value('A') == 0
  {}

  lemma PadIsNone()
    ensures !IsDigit('=')
  {}

  lemma MoreDigits(cs: seq<char>, i: nat, j: nat)
    requires i <= j <= |cs| && j <= i + 4 && AllDigits(cs[..i])
    requires forall k :: i <= k < j ==> IsDigit(cs[k])
    ensures AllDigits(cs[..j])
  {
    hide IsDigit;
    forall k | 0 <= k < j
      ensures IsDigit(cs[k])
    {
      if k < i {
        assert cs[..i][k] == cs[k];
      }
    }
  }

  /** The bytes of the next group. */
  lemma DecodeGroup(cs: seq<char>, ip: nat, bytes: seq<byte>)
    requires AllDigits(cs) && ip + 2 <= |cs|
    requires var r := |cs| - ip;
             && |bytes| == (if r == 2 then 1 else if r == 3 then 2 else 3)
             && bytes[0] == Octet0(Value(cs[ip]), Value(cs[ip + 1]))
             && (3 <= r ==> bytes[1] == Octet1(Value(cs[ip + 1]), Value(cs[ip + 2])))
             && (4 <= r ==> bytes[2] == Octet2(Value(cs[ip + 2]), Value(cs[ip + 3])))
    ensures Decode(cs[ip..]) == bytes + Decode(cs[if ip + 4 < |cs| then ip + 4 else |cs|..])
  {
    hide Value, IsDigit, Octet0, Octet1, Octet2;
    if ip + 4 <= |cs| {
      assert cs[ip..][4..] == cs[ip + 4..];
    }
  }
}
