/** base64.cpp: encoding and decoding as machines that take one byte or character at a time. */
module Base64Machine {
  import opened BitStream
  import opened JavaArithmetic
  import opened Base64

  /** What is still to be written when the machine is at byte i, with i % 3 bytes of a group seen. */
  function Remaining(input: seq<byte>, i: nat): seq<char>
    requires i <= |input|
  {
    Encode(input[i - i % 3..])[i % 3..]
  }

  lemma RemainingStep(input: seq<byte>, i: nat)
    requires i < |input|
    ensures Remaining(input, i) == Written(i % 3, if i == 0 then 0 else input[i - 1], input[i]) + Remaining(input, i + 1)
  {
    hide Written, Remaining;
    NextStart(i);
    if i % 3 == 0 {
      FirstStep(input, i);
    } else if i % 3 == 1 {
      SecondStep(input, i);
    } else {
      ThirdStep(input, i);
    }
  }

  lemma FirstStep(input: seq<byte>, i: nat)
    requires i < |input| && i % 3 == 0 && (i + 1) % 3 == 1
    ensures Remaining(input, i) == Written(0, if i == 0 then 0 else input[i - 1], input[i]) + Remaining(input, i + 1)
  {
    hide Digit, Sextet0, Sextet1, Sextet2, Sextet3;
    if i + 3 <= |input| {
      EncodeRest(input, i);
    }
  }

  lemma SecondStep(input: seq<byte>, i: nat)
    requires i < |input| && i % 3 == 1 && (i + 1) % 3 == 2
    ensures Remaining(input, i) == Written(1, input[i - 1], input[i]) + Remaining(input, i + 1)
  {
    hide Digit, Sextet0, Sextet1, Sextet2, Sextet3;
    if i + 2 <= |input| {
      EncodeRest(input, i - 1);
    }
  }

  lemma ThirdStep(input: seq<byte>, i: nat)
    requires i < |input| && i % 3 == 2 && (i + 1) % 3 == 0
    ensures Remaining(input, i) == Written(2, input[i - 1], input[i]) + Remaining(input, i + 1)
  {
    hide Digit, Sextet0, Sextet1, Sextet2, Sextet3, Encode;
    EncodeRest(input, i - 2);
  }

  lemma NextStart(i: nat)
    ensures i % 3 != 2 ==> (i + 1) - (i + 1) % 3 == i - i % 3 && (i + 1) % 3 == i % 3 + 1
    ensures i % 3 == 2 ==> (i + 1) % 3 == 0
  {}

  lemma RemainingEnd(input: seq<byte>)
    ensures var n := |input|;
            && (n % 3 == 0 ==> Remaining(input, n) == [])
            && (n % 3 == 1 ==> Remaining(input, n) == [Digit(Sextet1(input[n - 1], 0)), '=', '='])
            && (n % 3 == 2 ==> Remaining(input, n) == [Digit(Sextet2(input[n - 1], 0)), '='])
  {
    hide Digit, Sextet0, Sextet1, Sextet2, Sextet3;
  }

  /** What the machine writes for a byte: the bits of l left over and the first bits of c, and the rest of c. */
  function Written(s: nat, l: byte, c: byte): seq<char>
  {
    match s
    case 0 => [Digit(Sextet0(c))]
    case 1 => [Digit(Sextet1(l, c))]
    case _ => [Digit(Sextet2(l, c)), Digit(Sextet3(c))]
  }

  /** A number of characters as an unsigned int. */
  function Low32(n: nat): (r: nat)
    ensures r < 0x1_0000_0000 && r <= n
  {
    n % 0x1_0000_0000
  }

  /** j++ */
  lemma Increment(n: nat)
    ensures Low32(n + 1) == if Low32(n) == 0xffff_ffff then 0 else Low32(n) + 1
  {}

  /** What out holds when t has been written: the last part of t, from the last time that j was zero. */
  predicate Tail(t: seq<char>, out: seq<char>)
  {
    |out| == Low32(|t|) && out == t[|t| - |out|..]
  }

  lemma TailNext(t: seq<char>, out: seq<char>, c: char)
    requires Tail(t, out)
    ensures Tail(t + [c], if |out| == 0xffff_ffff then [] else out + [c])
  {
    hide Low32;
    Increment(|t|);
    assert (t + [c])[|t| - |out|..] == t[|t| - |out|..] + [c];
  }

  /** The room that n characters and their end take: what j reaches. */
  predicate Room(n: nat, length: nat)
  {
    (if n < 0x1_0000_0000 then n else 0xffff_ffff) < length
  }

  lemma Less(m: nat, n: nat, length: nat)
    requires m <= n && Room(n, length)
    ensures Room(m, length) && Low32(m) < length
  {}

  /** out[j++] = c */
  method Put(out: array<char>, j: nat, c: char, ghost t: seq<char>) returns (j': nat)
    requires j == Low32(|t|) && Room(|t| + 1, out.Length) && Tail(t, out[..j])
    modifies out
    ensures j' == Low32(|t + [c]|) < out.Length && Tail(t + [c], out[..j'])
  {
    hide Tail, Room, Low32;
    Less(|t|, |t| + 1, out.Length);
    Less(|t| + 1, |t| + 1, out.Length);
    TailNext(t, out[..j], c);
    Increment(|t|);
    ghost var was := out[..j];
    out[j] := c;
    assert out[..j + 1] == was + [c];
    j' := if j == 0xffff_ffff then 0 else j + 1;
    assert j == 0xffff_ffff ==> out[..j'] == [];
  }

  /** Two characters. */
  method PutTwo(out: array<char>, j: nat, c: char, d: char, ghost t: seq<char>) returns (j': nat)
    requires j == Low32(|t|) && Room(|t| + 2, out.Length) && Tail(t, out[..j])
    modifies out
    ensures j' == Low32(|t + [c, d]|) < out.Length && Tail(t + [c, d], out[..j'])
  {
    hide Tail, Room, Low32;
    Less(|t| + 1, |t| + 2, out.Length);
    j' := Put(out, j, c, t);
    j' := Put(out, j', d, t + [c]);
    assert t + [c] + [d] == t + [c, d];
  }

  /** switch (s): one byte. */
  method EncodeStep(out: array<char>, s: nat, l: byte, c: byte, j: nat, ghost t: seq<char>) returns (s': nat, j': nat)
    requires s < 3 && j == Low32(|t|) && Room(|t| + |Written(s, l, c)|, out.Length) && Tail(t, out[..j])
    modifies out
    ensures s' == (s + 1) % 3 && j' == Low32(|t + Written(s, l, c)|) < out.Length && Tail(t + Written(s, l, c), out[..j'])
  {
    hide Digit, Sextet0, Sextet1, Sextet2, Sextet3, Tail, Room, Low32;
    match s {
      case 0 =>
        s' := 1;
        j' := Put(out, j, Digit(Sextet0(c)), t);
      case 1 =>
        s' := 2;
        j' := Put(out, j, Digit(Sextet1(l, c)), t);
      case _ =>
        s' := 0;
        j' := PutTwo(out, j, Digit(Sextet2(l, c)), Digit(Sextet3(c)), t);
    }
  }

  /** base64_encode: s counts the bytes of a group, l is the last byte. The caller gives the room; j is an unsigned
      int, so that out ends as the encoding exactly for fewer than 2^32 characters of it. */
  method MachineEncode(input: seq<byte>, out: array<char>) returns (j: nat)
    requires |input| < 0x1_0000_0000 && Room(|Encode(input)|, out.Length)
    modifies out
    ensures j == Low32(|Encode(input)|) < out.Length && out[j] == '\0'
    ensures out[..j] == Encode(input)[|Encode(input)| - j..]
    ensures out[..j] == Encode(input) <==> |input| <= 0xbfff_fffd
  {
    hide Encode, Digit, Remaining, Written, Tail, Room, Low32, Sextet0, Sextet1, Sextet2, Sextet3;
    var s := 0;
    var l: byte := 0;
    j := 0;
    ghost var e, t := Encode(input), [];
    Nothing(out[..0]);
    WholeIsRemaining(input);
    for i := 0 to |input|
      invariant s == i % 3 && j == Low32(|t|) <= out.Length
      invariant e == t + Remaining(input, i) && Tail(t, out[..j])
      invariant l == if i == 0 then 0 else input[i - 1]
    {
      var c := input[i];
      ghost var more := Written(i % 3, l, c);
      RemainingStep(input, i);
      NextStart(i);
      assert e == t + more + Remaining(input, i + 1);
      Less(|t + more|, |e|, out.Length);
      s, j := EncodeStep(out, s, l, c, j, t);
      t := t + more;
      l := c;
    }
    RemainingEnd(input);
    j := EncodeLast(out, s, l, j, t, Remaining(input, |input|));
    WhenWhole(input, out[..j]);
    Less(|e|, |e|, out.Length);
    out[j] := '\0';
  }

  lemma Nothing(out: seq<char>)
    requires out == []
    ensures Tail([], out)
  {}

  lemma WhenWhole(input: seq<byte>, out: seq<char>)
    requires |input| < 0x1_0000_0000 && Tail(Encode(input), out)
    ensures out == Encode(input)[|Encode(input)| - |out|..]
    ensures out == Encode(input) <==> |input| <= 0xbfff_fffd
  {
    hide Encode;
  }

  /** The bits left over at the end, and the padding. */
  method EncodeLast(out: array<char>, s: nat, l: byte, j: nat, ghost t: seq<char>, ghost more: seq<char>) returns (j': nat)
    requires s < 3 && j == Low32(|t|) <= out.Length && Tail(t, out[..j]) && Room(|t| + |more|, out.Length)
    requires more == if s == 0 then [] else if s == 1 then [Digit(Sextet1(l, 0)), '=', '='] else [Digit(Sextet2(l, 0)), '=']
    modifies out
    ensures j' == Low32(|t + more|) <= out.Length && Tail(t + more, out[..j'])
  {
    hide Digit, Sextet0, Sextet1, Sextet2, Sextet3, Tail, Room, Low32;
    match s {
      case 1 =>
        Less(|t| + 2, |t| + 3, out.Length);
        j' := PutTwo(out, j, Digit(Sextet1(l, 0)), '=', t);
        j' := Put(out, j', '=', t + [Digit(Sextet1(l, 0)), '=']);
        assert t + [Digit(Sextet1(l, 0)), '='] + ['='] == t + more;
      case 2 =>
        j' := PutTwo(out, j, Digit(Sextet2(l, 0)), '=', t);
      case _ =>
        j' := j;
        assert t + more == t;
    }
  }

  /** BASE64_ENCODE_OUT_SIZE, cast to an unsigned int */
  function OutSize(n: nat): nat
  {
    ((n + 2) / 3 * 4 + 1) % 0x1_0000_0000
  }

  /** The room that the macro asks for is enough exactly as long as j does not wrap. */
  lemma OutSizeFits(input: seq<byte>)
    requires |input| < 0x1_0000_0000
    ensures Room(|Encode(input)|, OutSize(|input|)) <==> |input| <= 0xbfff_fffd
  {
    hide Encode;
  }

  lemma WholeIsRemaining(input: seq<byte>)
    ensures Remaining(input, 0) == Encode(input)
  {
    assert input[0..] == input;
  }

  // ---- base64_decode

  /** The bytes that one more digit finishes. */
  function Finished(cs: seq<char>, c: char): seq<byte>
    requires AllDigits(cs) && IsDigit(c)
  {
    var n := |cs|;
    match n % 4
    case 0 => []
    case 1 => [Octet0(Value(cs[n - 1]), Value(c))]
    case 2 => [Octet1(Value(cs[n - 1]), Value(c))]
    case _ => [Octet2(Value(cs[n - 1]), Value(c))]
  }

  lemma FirstFour(cs: seq<char>)
    requires AllDigits(cs) && 4 <= |cs|
    ensures Decode(cs) == [Octet0(Value(cs[0]), Value(cs[1])), Octet1(Value(cs[1]), Value(cs[2])), Octet2(Value(cs[2]), Value(cs[3]))]
                          + Decode(cs[4..])
  {
    hide IsDigit, Value, Octet0, Octet1, Octet2;
  }

  lemma DecodeFour(cs: seq<char>)
    requires AllDigits(cs) && 4 <= |cs|
    ensures Decode(cs) == Decode(cs[..4]) + Decode(cs[4..])
  {
    hide IsDigit, Value, Octet0, Octet1, Octet2, Decode;
    FirstFour(cs);
    FewDigits(cs[..4]);
  }

  lemma DecodeOnFew(cs: seq<char>, c: char)
    requires AllDigits(cs) && IsDigit(c) && |cs| < 4
    ensures AllDigits(cs + [c]) && Decode(cs + [c]) == Decode(cs) + Finished(cs, c)
  {
    hide IsDigit, Value, Decode, Finished, AllDigits, Octet0, Octet1, Octet2;
    DigitsOn(cs, c);
    FewDigits(cs);
    FewDigits(cs + [c]);
    FewFinished(cs, c);
  }

  lemma DigitsOn(cs: seq<char>, c: char)
    requires AllDigits(cs) && IsDigit(c)
    ensures AllDigits(cs + [c])
  {
    hide IsDigit;
  }

  lemma FewFinished(cs: seq<char>, c: char)
    requires AllDigits(cs) && IsDigit(c) && |cs| < 4
    ensures |cs| == 0 ==> Finished(cs, c) == []
    ensures |cs| == 1 ==> Finished(cs, c) == [Octet0(Value(cs[0]), Value(c))]
    ensures |cs| == 2 ==> Finished(cs, c) == [Octet1(Value(cs[1]), Value(c))]
    ensures |cs| == 3 ==> Finished(cs, c) == [Octet2(Value(cs[2]), Value(c))]
  {
    hide IsDigit, Value, Octet0, Octet1, Octet2;
  }

  /** Up to four digits. */
  lemma FewDigits(cs: seq<char>)
    requires AllDigits(cs) && |cs| <= 4
    ensures |cs| < 2 ==> Decode(cs) == []
    ensures |cs| == 2 ==> Decode(cs) == [Octet0(Value(cs[0]), Value(cs[1]))]
    ensures |cs| == 3 ==> Decode(cs) == [Octet0(Value(cs[0]), Value(cs[1])), Octet1(Value(cs[1]), Value(cs[2]))]
    ensures |cs| == 4 ==> Decode(cs) == [Octet0(Value(cs[0]), Value(cs[1])), Octet1(Value(cs[1]), Value(cs[2])),
                                         Octet2(Value(cs[2]), Value(cs[3]))]
  {
    hide IsDigit, Value, Octet0, Octet1, Octet2;
  }

  /** One more digit. */
  lemma {:induction false} DecodeOn(cs: seq<char>, c: char)
    requires AllDigits(cs) && IsDigit(c)
    ensures AllDigits(cs + [c]) && Decode(cs + [c]) == Decode(cs) + Finished(cs, c)
    decreases |cs|
  {
    hide IsDigit, Value, Decode, Finished, Octet0, Octet1, Octet2;
    if |cs| < 4 {
      DecodeOnFew(cs, c);
    } else {
      DecodeOn(cs[4..], c);
      assert (cs + [c])[4..] == cs[4..] + [c] && (cs + [c])[..4] == cs[..4];
      DecodeFour(cs);
      DecodeFour(cs + [c]);
      FinishedSame(cs, c);
    }
  }

  lemma FinishedSame(cs: seq<char>, c: char)
    requires AllDigits(cs) && IsDigit(c) && 4 <= |cs|
    ensures Finished(cs[4..], c) == Finished(cs, c)
  {
    hide IsDigit, Value, Octet0, Octet1, Octet2;
    if |cs| == 4 {
    } else {
      assert cs[4..][|cs| - 5] == cs[|cs| - 1];
    }
  }

  /** The byte begun by the last digit, if it begins one. */
  ghost predicate Begun(cs: seq<char>, b: byte)
    requires AllDigits(cs)
  {
    var n := |cs|;
    && (n % 4 == 1 ==> b == Value(cs[n - 1]) * 4)
    && (n % 4 == 2 ==> b == Value(cs[n - 1]) % 16 * 16)
    && (n % 4 == 3 ==> b == Value(cs[n - 1]) % 4 * 64)
  }

  /** How many bytes i digits finish. */
  function Bytes(i: nat): nat
  {
    i * 3 / 4
  }

  /** Where the bytes of the digits go: four digits, three bytes. */
  lemma Places(i: nat, n: nat)
    requires i < n && n % 4 == 0
    ensures Bytes(i) < n / 4 * 3 && (i % 4 == 1 || i % 4 == 2 ==> Bytes(i) + 1 < n / 4 * 3)
    ensures Bytes(i + 1) == Bytes(i) + if i % 4 == 0 then 0 else 1
  {
    var g := i / 4;
    assert i == 4 * g + i % 4;
    assert g < n / 4;
  }

  /** The byte that a digit finishes is the one begun, and the first bits of the digit. */
  lemma FinishedIs(cs: seq<char>, c: char, b: byte)
    requires AllDigits(cs) && IsDigit(c) && Begun(cs, b)
    ensures var n, v := |cs|, Value(c);
            var more := if n % 4 == 1 then v / 16 else if n % 4 == 2 then v / 4 else v;
            (n % 4 != 0 ==> b + more < 256) && Finished(cs, c) == if n % 4 == 0 then [] else [b + more]
  {
    hide IsDigit, Value;
  }

  lemma BegunNext(cs: seq<char>, c: char, b: byte)
    requires AllDigits(cs) && IsDigit(c) && AllDigits(cs + [c])
    requires b == if |cs| % 4 == 0 then Value(c) * 4 else if |cs| % 4 == 1 then Value(c) % 16 * 16 else Value(c) % 4 * 64
    ensures Begun(cs + [c], b)
  {
    hide IsDigit, Value;
    assert (cs + [c])[|cs|] == c;
  }

  /** The bits of a digit: those that finish the byte begun, and those that begin the next. */
  method PutBits(out: array<byte>, k: nat, j: nat, c: nat) returns (j': nat)
    requires k < 4 && c < 64 && j < out.Length && (k == 1 || k == 2 ==> j + 1 < out.Length)
    requires k != 0 ==> out[j] + (if k == 1 then c / 16 else if k == 2 then c / 4 else c) < 256
    modifies out
    ensures j' == j + if k == 0 then 0 else 1
    ensures out[..j'] == old(out[..j]) + if k == 0 then [] else [old(out[j]) + if k == 1 then c / 16 else if k == 2 then c / 4 else c]
    ensures k != 3 ==> out[j'] == if k == 0 then c * 4 else if k == 1 then c % 16 * 16 else c % 4 * 64
  {
    j' := j;
    match k {
      case 0 =>
        out[j'] := c * 4;
      case 1 =>
        out[j'] := out[j'] + c / 16;
        j' := j' + 1;
        out[j'] := c % 16 * 16;
      case 2 =>
        out[j'] := out[j'] + c / 4;
        j' := j' + 1;
        out[j'] := c % 4 * 64;
      case _ =>
        out[j'] := out[j'] + c;
        j' := j' + 1;
    }
  }

  /** switch (i & 0x3): finish one byte and begin the next. */
  method PutDigit(out: array<byte>, i: nat, j: nat, c: nat, ghost cs: seq<char>, ghost ch: char) returns (j': nat)
    requires |cs| == i && AllDigits(cs) && IsDigit(ch) && c == Value(ch)
    requires j == Bytes(i) < out.Length && (i % 4 == 1 || i % 4 == 2 ==> j + 1 < out.Length)
    requires Bytes(i + 1) == j + if i % 4 == 0 then 0 else 1
    requires out[..j] == Decode(cs) && Begun(cs, out[j])
    modifies out
    ensures AllDigits(cs + [ch]) && j' == Bytes(i + 1) <= out.Length && out[..j'] == Decode(cs + [ch])
    ensures (i + 1) % 4 != 0 ==> j' < out.Length && Begun(cs + [ch], out[j'])
  {
    hide IsDigit, Value, Decode, Begun, Finished, AllDigits, Bytes;
    FinishedIs(cs, ch, out[j]);
    DecodeOn(cs, ch);
    j' := PutBits(out, i % 4, j, c);
    if (i + 1) % 4 != 0 {
      BegunNext(cs, ch, out[j']);
    }
  }

  lemma NoneYet(input: seq<char>)
    ensures AllDigits(input[..0]) && Decode(input[..0]) == [] && Bytes(0) == 0 && UpToPad(input) == input[..0] + UpToPad(input[0..])
  {
    assert input[0..] == input && input[..0] == [];
  }

  lemma PadSplit(input: seq<char>, i: nat)
    requires i < |input|
    ensures input[i] == '=' ==> UpToPad(input[i..]) == []
    ensures input[i] != '=' ==> UpToPad(input[i..]) == [input[i]] + UpToPad(input[i + 1..])
  {
    assert input[i..][1..] == input[i + 1..];
  }

  lemma NotAllDigits(cs: seq<char>, i: nat)
    requires i < |cs| && !IsDigit(cs[i])
    ensures !AllDigits(cs)
  {}

  lemma AtEnd(input: seq<char>)
    ensures input[..|input|] + UpToPad(input[|input|..]) == input
  {}

  /** base64_decode: stops at the first padding character; 0 for what is not base64. */
  method MachineDecode(input: seq<char>, out: array<byte>) returns (j: nat)
    requires |input| < 0x1_0000_0000 && |input| / 4 * 3 <= out.Length
    modifies out
    ensures j <= out.Length
    ensures if |input| % 4 == 0 && AllDigits(UpToPad(input)) then out[..j] == Decode(UpToPad(input)) else j == 0
  {
    hide IsDigit, Value, Decode, UpToPad, AllDigits, Begun, Bytes;
    j := 0;
    if |input| % 4 != 0 {
      return 0;
    }
    NoneYet(input);
    var i := 0;
    while i < |input|
      invariant 0 <= i <= |input| && AllDigits(input[..i]) && UpToPad(input) == input[..i] + UpToPad(input[i..])
      invariant j == Bytes(i) <= out.Length && out[..j] == Decode(input[..i])
      invariant i % 4 != 0 ==> j < out.Length && Begun(input[..i], out[j])
      decreases |input| - i
    {
      var more, bad, j' := DecodeStep(input, i, out, j);
      j := j';
      if bad {
        return 0;
      }
      if !more {
        return;
      }
      i := i + 1;
    }
    AtEnd(input);
    assert input[..i] == input;
  }

  /** One character: the end, an error, or a digit. */
  method DecodeStep(input: seq<char>, i: nat, out: array<byte>, j: nat) returns (more: bool, bad: bool, j': nat)
    requires |input| % 4 == 0 && |input| / 4 * 3 <= out.Length && i < |input| && AllDigits(input[..i])
    requires UpToPad(input) == input[..i] + UpToPad(input[i..])
    requires j == Bytes(i) <= out.Length && out[..j] == Decode(input[..i])
    requires i % 4 != 0 ==> j < out.Length && Begun(input[..i], out[j])
    modifies out
    ensures bad ==> !AllDigits(UpToPad(input))
    ensures !bad ==> j' <= out.Length
    ensures !bad && !more ==> UpToPad(input) == input[..i] && out[..j'] == Decode(input[..i])
    ensures !bad && more ==>
              && AllDigits(input[..i + 1]) && UpToPad(input) == input[..i + 1] + UpToPad(input[i + 1..])
              && j' == Bytes(i + 1) && out[..j'] == Decode(input[..i + 1])
              && ((i + 1) % 4 != 0 ==> j' < out.Length && Begun(input[..i + 1], out[j']))
  {
    hide IsDigit, Value, Decode, UpToPad, AllDigits, Begun, Bytes;
    Places(i, |input|);
    PadSplit(input, i);
    if input[i] == '=' {
      return false, false, j;
    }
    var c := ValueOr(input[i], 255);
    assert input[..i + 1] == input[..i] + [input[i]];
    if c == 255 {
      NotAllDigits(UpToPad(input), i);
      return false, true, j;
    }
    NotBegun(input[..i], out[j]);
    j' := PutDigit(out, i, j, c, input[..i], input[i]);
    return true, false, j';
  }

  lemma NotBegun(cs: seq<char>, b: byte)
    requires AllDigits(cs)
    ensures |cs| % 4 == 0 ==> Begun(cs, b)
  {}

  /** What the machine makes of the padding inside a text of the other codec: less than there was. */
  lemma MaskedLoses(s: seq<byte>)
    requires 0x2000_0000 <= |s| <= MOST_BYTES
    ensures var t := UpToPad(Masked(Encode(s), DataLen(|s|))); AllDigits(t) ==> |Decode(t)| < |s|
  {
    hide Encode, DataLen, Masked, UpToPad, AllDigits, Decode, Third;
    DataLenIs(|s|);
    PaddingIs(s);
    var m, i := Masked(Encode(s), DataLen(|s|)), Third((|s| * 4 + 2) / 3);
    assert m[i] == '=';
    PadStops(m, i);
  }

  lemma {:induction false} PadStops(cs: seq<char>, i: nat)
    requires i < |cs| && cs[i] == '='
    ensures |UpToPad(cs)| <= i
  {
    if cs[0] != '=' {
      PadStops(cs[1..], i - 1);
    }
  }

  /** decode in base64.h: base64_decode into a buffer of BASE64_DECODE_OUT_SIZE. */
  method DecodeText(text: seq<char>) returns (bytes: seq<byte>)
    requires |text| < 0x1_0000_0000
    ensures bytes == if |text| % 4 == 0 && AllDigits(UpToPad(text)) then Decode(UpToPad(text)) else []
  {
    hide Decode, UpToPad, AllDigits;
    var buffer := new byte[|text| / 4 * 3];
    var size := MachineDecode(text, buffer);
    bytes := buffer[..size];
  }

  /** Both codecs on the bytes of a Java array: their texts are the same, and either decoder undoes the other's
      encoder, exactly for fewer than 2^29 bytes. The codec of C undoes itself for all of them. */
  method CodecsAgree(input: seq<byte>) returns (same: bool, javaOfC: Result<seq<byte>>, cOfJava: Result<seq<byte>>, cOfC: seq<byte>)
    requires |input| <= MAX_INT
    ensures same <==> |input| < 0x2000_0000
    ensures javaOfC == if |input| < 0x2000_0000 then Ok(input) else Err
    ensures cOfJava == Ok(input) <==> |input| < 0x2000_0000
    ensures cOfC == input
  {
    hide Encode, Masked, DataLen, OutSize, Room, Decode, Digits, UpToPad, AllDigits, Strip, JavaDecodable, Decodable;
    OutSizeFits(input);
    var buffer := new char[OutSize(|input|)];
    var n := MachineEncode(input, buffer);
    var c := buffer[..n];
    RoundTrip(input);
    RightDecodable(input);
    CLength(|input|);
    cOfC := DecodeText(c);
    javaOfC := Err;
    if n <= MAX_INT {
      javaOfC := JavaDecode(c);
    }
    var java := JavaEncode(input);
    same, cOfJava := false, Err;
    if java.Ok? {
      var t := java.value[..];
      same := t == c;
      var bytes := DecodeText(t);
      cOfJava := Ok(bytes);
      if 0x2000_0000 <= |input| {
        MaskedLoses(input);
      }
    }
  }

  lemma CLength(n: nat)
    requires n <= MAX_INT
    ensures (n + 2) / 3 * 4 < 0x1_0000_0000
    ensures n < 0x2000_0000 ==> (n + 2) / 3 * 4 <= MAX_INT
  {}
}
