/** base64j's encodeLines and decodeLines. */
module Base64Lines {
  import opened BitStream
  import opened JavaArithmetic
  import opened Base64
  import Arith

  /** The lines of an encoding, blockLen bytes to a line. */
  function Lines(s: seq<byte>, blockLen: nat, separator: seq<char>): seq<char>
    requires 0 < blockLen
  {
    if s == [] then []
    else
      var l := if |s| <= blockLen then |s| else blockLen;
      Encode(s[..l]) + separator + Lines(s[l..], blockLen, separator)
  }

  lemma LinesStep(s: seq<byte>, i: nat, l: nat, blockLen: nat, separator: seq<char>)
    requires 0 < blockLen && i < |s| && l == if |s| - i <= blockLen then |s| - i else blockLen
    ensures Lines(s[i..], blockLen, separator) == Encode(s[i..i + l]) + separator + Lines(s[i + l..], blockLen, separator)
  {
    hide Encode;
    assert s[i..][..l] == s[i..i + l] && s[i..][l..] == s[i + l..];
  }

  /** (lineLen * 3) / 4 as an int */
  function BlockLen(lineLen: int): int
  {
    Quotient(Int(lineLen * 3), 4)
  }

  /** (iLen + blockLen - 1) / blockLen as an int */
  function LineCount(iLen: nat, blockLen: nat): int
    requires 0 < blockLen
  {
    Quotient(Int(Int(iLen + blockLen) - 1), blockLen)
  }

  /** ((iLen + 2) / 3) * 4 + lines * lineSeparator.length() as an int */
  function BufLen(iLen: nat, lines: int, separator: nat): int
  {
    Int(TextLen(iLen) + Int(lines * separator))
  }

  /** encodeLines: a line for every block of bytes. Err for an exception, or for more characters than an int counts. */
  method EncodeLines(input: seq<byte>, lineLen: int, separator: seq<char>) returns (r: Result<seq<char>>)
    requires |input| <= MAX_INT && |separator| <= MAX_INT && -0x8000_0000 <= lineLen <= MAX_INT
    ensures r.Ok? <==> BlockLen(lineLen) > 0 && |Lines(input, BlockLen(lineLen), separator)| <= MAX_INT
    ensures r.Ok? ==> r.value == Lines(input, BlockLen(lineLen), separator)
  {
    hide Encode, Lines, LineCount, BufLen, Masked, DataLen;
    var blockLen := BlockLen(lineLen);
    if blockLen <= 0 {
      return Err;
    }
    var bufLen := BufLen(|input|, LineCount(|input|, blockLen), |separator|);
    if |Lines(input, blockLen, separator)| <= MAX_INT {
      BufLenFits(input, blockLen, separator);
    }
    if bufLen < 0 {
      return Err;
    }
    var buf := [];
    var ip := 0;
    assert input[0..] == input;
    while ip < |input|
      invariant 0 <= ip <= |input| && |buf| <= MAX_INT
      invariant Lines(input, blockLen, separator) == buf + Lines(input[ip..], blockLen, separator)
    {
      var l := if |input| - ip <= blockLen then |input| - ip else blockLen;
      OneLine(input, ip, l, blockLen, separator, buf);
      var line := JavaEncode(input[ip..ip + l]);
      assert line.value[..] == Encode(input[ip..ip + l]);
      buf := buf + line.value[..] + separator;
      if |buf| > MAX_INT {
        return Err;
      }
      ip := ip + l;
    }
    NoLines(blockLen, separator);
    assert input[ip..] == [];
    return Ok(buf);
  }

  lemma OneLine(s: seq<byte>, i: nat, l: nat, blockLen: nat, separator: seq<char>, buf: seq<char>)
    requires 0 < blockLen && i < |s| && l == if |s| - i <= blockLen then |s| - i else blockLen
    requires Lines(s, blockLen, separator) == buf + Lines(s[i..], blockLen, separator)
    ensures Lines(s, blockLen, separator) == buf + Encode(s[i..i + l]) + separator + Lines(s[i + l..], blockLen, separator)
  {
    hide Encode, Lines;
    LinesStep(s, i, l, blockLen, separator);
  }

  lemma Next(x: nat, b: nat)
    requires 0 < b
    ensures (x + b) / b == x / b + 1
  {
    Arith.Quotient(x, b);
    Arith.Quotient(x + b, b);
    var k := (x + b) / b - x / b - 1;
    assert b * k == b * ((x + b) / b) - b * (x / b) - b;
    Arith.TimesGrows(b, k);
  }

  /** The characters of the separators of n bytes. */
  function Separators(n: nat, blockLen: nat, separator: nat): nat
    requires 0 < blockLen
  {
    (n + blockLen - 1) / blockLen * separator
  }

  lemma FewBytes(n: nat, b: nat, k: nat)
    requires n <= b && 0 < b
    ensures Separators(n, b, k) == if n == 0 then 0 else k
  {
    var x := n + b - 1;
    Arith.Quotient(x, b);
    Arith.TimesGrows(b, x / b - 1);
    assert b * (x / b - 1) == b * (x / b) - b;
  }

  lemma MoreBytes(n: nat, b: nat, k: nat)
    requires b <= n && 0 < b
    ensures Separators(n, b, k) == k + Separators(n - b, b, k)
  {
    var q := (n - 1) / b;
    Next(n - 1, b);
    assert n - b + b - 1 == n - 1 && n + b - 1 == n - 1 + b;
    assert (q + 1) * k == q * k + k;
  }

  /** What the lines are made of: at least the characters of one encoding, and a separator for each. */
  lemma {:induction false} LinesLength(s: seq<byte>, blockLen: nat, separator: seq<char>)
    requires 0 < blockLen
    ensures |Lines(s, blockLen, separator)| >= (|s| + 2) / 3 * 4 + Separators(|s|, blockLen, |separator|)
    decreases |s|
  {
    hide Encode, Separators;
    if |s| <= blockLen {
      FewBytes(|s|, blockLen, |separator|);
      assert s[..|s|] == s;
    } else {
      MoreBytes(|s|, blockLen, |separator|);
      LinesLength(s[blockLen..], blockLen, separator);
    }
  }

  /** The size asked for is no reason to refuse what an int can count. */
  lemma BufLenFits(s: seq<byte>, blockLen: nat, separator: seq<char>)
    requires |s| <= MAX_INT && 0 < blockLen <= 0x1fff_ffff
    requires |Lines(s, blockLen, separator)| <= MAX_INT
    ensures BufLen(|s|, LineCount(|s|, blockLen), |separator|) >= 0
  {
    hide Lines, TextLen;
    LinesLength(s, blockLen, separator);
    TextLenIs(|s|);
  }

  lemma NoLines(blockLen: nat, separator: seq<char>)
    requires 0 < blockLen
    ensures Lines([], blockLen, separator) == []
  {}

  predicate Skipped(c: char)
  {
    c == ' ' || c == '\r' || c == '\n' || c == '\t'
  }

  function Filter(cs: seq<char>): seq<char>
  {
    if cs == [] then []
    else
      var rest := Filter(cs[..|cs| - 1]);
      if Skipped(cs[|cs| - 1]) then rest else rest + [cs[|cs| - 1]]
  }

  /** decodeLines: blanks, tabs and ends of lines do not count. */
  method DecodeLines(s: seq<char>) returns (r: Result<seq<byte>>)
    requires |s| <= MAX_INT
    ensures r.Ok? <==> JavaDecodable(Filter(s))
    ensures r.Ok? ==> r.value == Decode(Strip(Filter(s)))
  {
    hide Skipped, Decodable, JavaDecodable, AllDigits;
    var buf := new char[|s|];
    var p := 0;
    for ip := 0 to |s|
      invariant 0 <= p <= ip && buf[..p] == Filter(s[..ip])
    {
      assert s[..ip + 1][..ip] == s[..ip];
      var c := s[ip];
      if !Skipped(c) {
        buf[p] := c;
        p := p + 1;
      }
    }
    assert s[..|s|] == s;
    r := JavaDecode(buf[..p]);
  }

  // ---- round trip

  lemma {:induction false} FilterJoin(a: seq<char>, b: seq<char>)
    ensures Filter(a + b) == Filter(a) + Filter(b)
  {
    hide Skipped;
    if b == [] {
      assert a + b == a;
    } else {
      assert (a + b)[..|a + b| - 1] == a + b[..|b| - 1];
      FilterJoin(a, b[..|b| - 1]);
    }
  }

  lemma {:induction false} FilterNone(cs: seq<char>)
    requires forall i :: 0 <= i < |cs| ==> !Skipped(cs[i])
    ensures Filter(cs) == cs
  {
    hide Skipped;
    if cs != [] {
      FilterNone(cs[..|cs| - 1]);
    }
  }

  lemma {:induction false} FilterAll(cs: seq<char>)
    requires forall i :: 0 <= i < |cs| ==> Skipped(cs[i])
    ensures Filter(cs) == []
  {
    hide Skipped;
    if cs != [] {
      FilterAll(cs[..|cs| - 1]);
    }
  }

  lemma NotSkipped(c: char)
    requires IsDigit(c) || c == '='
    ensures !Skipped(c)
  {}

  lemma FilterEncode(s: seq<byte>)
    ensures Filter(Encode(s)) == Encode(s)
  {
    hide Encode, Digits, IsDigit, Skipped;
    EncodeIs(s);
    RoundTrip(s);
    var cs := Encode(s);
    forall i | 0 <= i < |cs|
      ensures !Skipped(cs[i])
    {
      NotSkipped(cs[i]);
    }
    FilterNone(cs);
  }

  /** The lines without their separators. */
  function Blocks(s: seq<byte>, blockLen: nat): seq<char>
    requires 0 < blockLen
  {
    if |s| <= blockLen then Encode(s) else Encode(s[..blockLen]) + Blocks(s[blockLen..], blockLen)
  }

  lemma {:induction false} LinesFiltered(s: seq<byte>, blockLen: nat, separator: seq<char>)
    requires 0 < blockLen && forall i :: 0 <= i < |separator| ==> Skipped(separator[i])
    ensures Filter(Lines(s, blockLen, separator)) == Blocks(s, blockLen)
    decreases |s|
  {
    hide Skipped, Filter, Encode, Lines;
    EmptyIs();
    NoLines(blockLen, separator);
    if s == [] {
      FilterEncode([]);
    } else {
      var l := if |s| <= blockLen then |s| else blockLen;
      var line, rest := Encode(s[..l]), Lines(s[l..], blockLen, separator);
      assert s[0..] == s && s[0..0 + l] == s[..l];
      LinesStep(s, 0, l, blockLen, separator);
      FilterJoin(line + separator, rest);
      FilterJoin(line, separator);
      FilterEncode(s[..l]);
      FilterAll(separator);
      if |s| <= blockLen {
        assert s[..l] == s && s[l..] == [];
        FilterEncode([]);
      } else {
        LinesFiltered(s[l..], blockLen, separator);
      }
    }
  }

  lemma EmptyIs()
    ensures Encode([]) == []
  {}

  lemma {:induction false} EncodeJoin(a: seq<byte>, b: seq<byte>)
    requires |a| % 3 == 0
    ensures Encode(a + b) == Encode(a) + Encode(b)
    decreases |a|
  {
    hide Digit, Four, Sextet0, Sextet1, Sextet2, Sextet3;
    if a == [] {
      assert a + b == b;
    } else {
      assert (a + b)[3..] == a[3..] + b;
      EncodeJoin(a[3..], b);
      assert Four(a[0], a[1], a[2]) + (Encode(a[3..]) + Encode(b)) == Four(a[0], a[1], a[2]) + Encode(a[3..]) + Encode(b);
    }
  }

  /** Lines of whole groups are the encoding of the whole. */
  lemma {:induction false} BlocksOfGroups(s: seq<byte>, blockLen: nat)
    requires 0 < blockLen && (blockLen % 3 == 0 || |s| <= blockLen)
    ensures Blocks(s, blockLen) == Encode(s)
    decreases |s|
  {
    hide Encode;
    if blockLen < |s| {
      BlocksOfGroups(s[blockLen..], blockLen);
      EncodeJoin(s[..blockLen], s[blockLen..]);
      assert s == s[..blockLen] + s[blockLen..];
    }
  }

  lemma {:induction false} StripKeeps(a: seq<char>, b: seq<char>)
    requires b != [] && b[0] != '='
    ensures Strip(a + b) == a + Strip(b)
  {
    if b[|b| - 1] == '=' {
      assert (a + b)[..|a + b| - 1] == a + b[..|b| - 1];
      StripKeeps(a, b[..|b| - 1]);
    }
  }

  lemma {:induction false} FirstIsDigit(s: seq<byte>, blockLen: nat)
    requires s != [] && 0 < blockLen
    ensures Blocks(s, blockLen) != [] && Blocks(s, blockLen)[0] != '='
  {
    var t := if |s| <= blockLen then s else s[..blockLen];
    DigitValue(Sextet0(t[0]));
  }

  /** A line that ends inside a group is padded, and padding inside is refused. */
  lemma PaddingInside(s: seq<byte>, blockLen: nat)
    requires 0 < blockLen < |s| && blockLen % 3 != 0
    ensures !Decodable(Blocks(s, blockLen))
  {
    hide Encode, Digits, IsDigit;
    var line, rest := Encode(s[..blockLen]), Blocks(s[blockLen..], blockLen);
    EncodeIs(s[..blockLen]);
    FirstIsDigit(s[blockLen..], blockLen);
    StripKeeps(line, rest);
    PadIsNone();
    assert line[|line| - 1] == '=';
    assert (line + Strip(rest))[|line| - 1] == '=';
  }

  /** Lines are decoded to what was encoded exactly when they hold whole groups or there is only one line, and the
      digits are not too many for decode; otherwise decodeLines refuses what encodeLines made. */
  lemma LinesRoundTrip(s: seq<byte>, blockLen: nat, separator: seq<char>)
    requires 0 < blockLen && forall i :: 0 <= i < |separator| ==> Skipped(separator[i])
    ensures var cs := Filter(Lines(s, blockLen, separator));
            && (JavaDecodable(cs) <==> (blockLen % 3 == 0 || |s| <= blockLen) && |s| < 0x2000_0000)
            && (JavaDecodable(cs) ==> AllDigits(Strip(cs)) && Decode(Strip(cs)) == s)
  {
    hide Skipped, Filter, Encode, Lines, Blocks, IsDigit, Digits, Decode, Decodable, JavaDecodable;
    LinesFiltered(s, blockLen, separator);
    if blockLen % 3 == 0 || |s| <= blockLen {
      BlocksOfGroups(s, blockLen);
      RightDecodable(s);
    } else {
      PaddingInside(s, blockLen);
      NotDecodable(Blocks(s, blockLen));
    }
  }

  /** decodeLines(encodeLines(in)) is in, or one of the two refuses. */
  method EncodeDecodeLines(input: seq<byte>, lineLen: int, separator: seq<char>) returns (back: Result<seq<byte>>)
    requires |input| <= MAX_INT && |separator| <= MAX_INT && -0x8000_0000 <= lineLen <= MAX_INT
    requires forall i :: 0 <= i < |separator| ==> Skipped(separator[i])
    ensures var b := BlockLen(lineLen);
            back == if && b > 0 && |Lines(input, b, separator)| <= MAX_INT
                       && (b % 3 == 0 || |input| <= b) && |input| < 0x2000_0000 then Ok(input) else Err
  {
    hide Skipped, Filter, Encode, Lines, BlockLen, Decode, Strip, AllDigits, Decodable, JavaDecodable;
    var text := EncodeLines(input, lineLen, separator);
    if text.Err? {
      return Err;
    }
    LinesRoundTrip(input, BlockLen(lineLen), separator);
    back := DecodeLines(text.value);
  }

  /** A positive multiple of four makes whole groups, as long as three times as much fits in an int. */
  lemma WholeGroups(lineLen: nat)
    requires lineLen % 4 == 0 && 0 < lineLen && lineLen * 3 <= MAX_INT
    ensures BlockLen(lineLen) == lineLen / 4 * 3 && BlockLen(lineLen) > 0 && BlockLen(lineLen) % 3 == 0
  {
    var k := lineLen / 4;
    assert lineLen == 4 * k;
    assert lineLen * 3 == 12 * k;
  }
}
