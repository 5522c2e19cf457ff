/** rsaLite4j: textbook RSA on signed bytes. */
module Rsa {
  import opened Arith
  import opened BitStream
  import opened Words
  import Java = JavaArithmetic
  import Base64

  /** A Java long. */
  type long = x: int | -0x8000_0000_0000_0000 <= x <= 0x7fff_ffff_ffff_ffff

  /** A Java byte. */
  type signed = x: int | -128 <= x <= 127

  /** Java's %: the remainder has the sign of the dividend. */
  function Rem(a: int, n: int): int
    requires 0 < n
  {
    if a >= 0 then a % n else -(-a % n)
  }

  lemma RemIs(a: int, n: int)
    requires 0 < n
    ensures Congruent(n, Rem(a, n), a) && Abs(Rem(a, n)) < n
    ensures (0 <= a ==> 0 <= Rem(a, n)) && (a <= 0 ==> Rem(a, n) <= 0)
  {
    var m := Abs(a);
    assert m == n * (m / n) + m % n;
    DividesBy(n, if a >= 0 then -(m / n) else m / n);
  }

  /** r is a^key reduced, with the sign of an odd power. */
  ghost predicate Reduced(r: int, a: int, key: nat, n: int)
  {
    && Congruent(n, r, Pow(a, key)) && Abs(r) < n
    && (0 <= a || key % 2 == 0 ==> 0 <= r) && (a <= 0 && key % 2 == 1 ==> r <= 0)
  }

  ghost predicate SignOf(t: int, a: int)
  {
    (0 <= a ==> 0 <= t) && (a <= 0 ==> t <= 0)
  }

  /** Before the first turn, and then: a is a square, and total has the sign of the power so far. */
  ghost predicate Signs(total: int, a: int, key: nat, a0: int, key0: nat)
  {
    || (key == key0 && a == a0 && total == 1)
    || (0 <= a && if key0 % 2 == 1 then SignOf(total, a0) else 0 <= total)
  }

  /** fastPow: square and multiply.  No product exceeds a long when the modulus is less than 2^31. */
  method FastPow(a0: long, key0: nat, product: int) returns (total: long)
    requires 1 < product < 0x8000_0000 && Abs(a0) <= 0x8000_0000
    ensures Reduced(total, a0, key0, product)
  {
    hide Rem, Pow, Congruent, Signs;
    total := 1;
    var a: long, key := a0, key0;
    Starts(a0, key0, product);
    while key != 0
      invariant Abs(total) < product && Abs(a) <= 0x8000_0000
      invariant Congruent(product, total * Pow(a, key), Pow(a0, key0))
      invariant Signs(total, a, key, a0, key0)
      decreases key
    {
      ghost var t, b := total, a;
      if key % 2 != 0 {
        ProductFits(total, a, product);
        var x: long := total * a;
        RemIs(x, product);
        total := Rem(x, product);
      }
      ProductFits(a, a, 0x8000_0001);
      var y: long := a * a;
      RemIs(y, product);
      a := Rem(y, product);
      Squares(b);
      NextSigns(t, b, key, a0, key0, total, a);
      NextPower(t, b, key, a0, key0, total, a, product);
      key := key / 2;
    }
    Ends(total, a, a0, key0, product);
  }

  lemma Starts(a: int, key: nat, n: int)
    ensures Congruent(n, 1 * Pow(a, key), Pow(a, key)) && Signs(1, a, key, a, key)
  {
    CongruentSelf(n, Pow(a, key));
  }

  lemma Ends(total: int, a: int, a0: int, key0: nat, n: int)
    requires Abs(total) < n && Congruent(n, total * Pow(a, 0), Pow(a0, key0)) && Signs(total, a, 0, a0, key0)
    ensures Reduced(total, a0, key0, n)
  {
    hide Congruent;
    assert Pow(a, 0) == 1;
  }

  lemma ProductFits(x: int, y: int, n: int)
    requires Abs(x) < n <= 0x8000_0001 && Abs(y) <= 0x8000_0000
    ensures Abs(x * y) <= 0x4000_0000_0000_0000
  {
    BoundProduct(Abs(x), y, 0x8000_0000);
    assert Abs(x) * 0x8000_0000 <= 0x8000_0000 * 0x8000_0000;
    if x < 0 {
      assert x * y == -(-x * y);
    }
  }

  lemma Squares(a: int)
    ensures 0 <= a * a
  {}

  lemma NextSigns(t: int, b: int, key: nat, a0: int, key0: nat, total: int, a: int)
    requires 1 <= key && Signs(t, b, key, a0, key0) && 0 <= a
    requires if key % 2 == 0 then total == t else (0 <= t * b ==> 0 <= total) && (t * b <= 0 ==> total <= 0)
    ensures Signs(total, a, key / 2, a0, key0)
  {
    if key % 2 == 1 {
      ProductSign(t, b);
    }
  }

  lemma ProductSign(t: int, b: int)
    ensures 0 <= t && 0 <= b ==> 0 <= t * b
    ensures t <= 0 && 0 <= b ==> t * b <= 0
  {
    if 0 <= t && 0 <= b {
    } else if t <= 0 && 0 <= b {
      assert -t * b >= 0;
    }
  }

  lemma NextPower(t: int, b: int, key: nat, a0: int, key0: nat, total: int, a: int, n: int)
    requires 1 <= key && Congruent(n, t * Pow(b, key), Pow(a0, key0)) && Congruent(n, a, b * b)
    requires if key % 2 == 0 then total == t else Congruent(n, total, t * b)
    ensures Congruent(n, total * Pow(a, key / 2), Pow(a0, key0))
  {
    hide Congruent, Pow;
    var h := key / 2;
    PowHalf(b, key);
    CongruentPow(n, a, b * b, h);
    var p, q := Pow(b * b, h), Pow(a, h);
    if key % 2 == 0 {
      CongruentSelf(n, t);
      CongruentTimes(n, t, t, q, p);
      CongruentTrans(n, total * q, t * p, Pow(a0, key0));
    } else {
      CongruentTimes(n, total, t * b, q, p);
      assert t * b * p == t * (b * p);
      CongruentTrans(n, total * q, t * b * p, Pow(a0, key0));
    }
  }

  lemma {:induction false} PowHalf(a: int, key: nat)
    ensures Pow(a, key) == if key % 2 == 0 then Pow(a * a, key / 2) else a * Pow(a * a, key / 2)
  {
    if 2 <= key {
      PowHalf(a, key - 2);
      PowTwo(a, key);
      PowStep(a * a, key / 2);
      var p := Pow(a * a, key / 2 - 1);
      assert a * a * (a * p) == a * (a * a * p) by { Exchange(a * a, a, p); }
    } else if key == 1 {
      assert Pow(a, 1) == a * Pow(a, 0);
    }
  }

  lemma PowTwo(a: int, key: nat)
    requires 2 <= key
    ensures Pow(a, key) == a * a * Pow(a, key - 2)
  {
    assert Pow(a, key) == a * (a * Pow(a, key - 2));
  }

  // ---- keys

  /** a and b are inverse to each other modulo m. */
  ghost predicate Inverse(m: nat, a: nat, b: nat)
  {
    exists k: nat :: Mul(a, b) == 1 + Mul(m, k)
  }

  /** Two primes, and exponents that undo each other modulo (p - 1) * (q - 1). */
  ghost predicate Keys(p: nat, q: nat, e: nat, d: nat, n: int)
  {
    && Prime(p) && Prime(q) && p != q && n == p * q && 128 < n < 0x8000_0000
    && Inverse(Mul(p - 1, q - 1), e, d)
  }

  lemma MulAssoc(a: nat, b: nat, c: nat)
    ensures Mul(Mul(a, b), c) == Mul(a, Mul(b, c))
  {
    hide Mul;
    MulIs(a, b);
    MulIs(b, c);
    MulIs(a * b, c);
    MulIs(a, b * c);
    TimesAssoc(a, b, c);
  }

  lemma TimesAssoc(a: nat, b: nat, c: nat)
    ensures a * b * c == a * (b * c)
  {}

  lemma MulComm(a: nat, b: nat)
    ensures Mul(a, b) == Mul(b, a)
  {
    hide Mul;
    MulIs(a, b);
    MulIs(b, a);
  }

  /** x^(e d) leaves the remainder of x modulo p q. */
  lemma PowerBack(x: nat, p: nat, q: nat, e: nat, d: nat, n: int)
    requires Keys(p, q, e, d, n)
    ensures Congruent(n, Pow(x, Mul(e, d)), x)
  {
    hide Pow, Mul;
    var k: nat :| Mul(e, d) == 1 + Mul(Mul(p - 1, q - 1), k);
    MulAssoc(p - 1, q - 1, k);
    FermatMore(x, p, Mul(q - 1, k));
    MulComm(p - 1, q - 1);
    MulAssoc(q - 1, p - 1, k);
    FermatMore(x, q, Mul(p - 1, k));
    BothDivide(p, q, Pow(x, Mul(e, d)) - x);
  }

  /** The exponents are odd, because p - 1 or q - 1 is even. */
  lemma OddExponents(p: nat, q: nat, e: nat, d: nat, n: int)
    requires Keys(p, q, e, d, n)
    ensures e % 2 == 1 && d % 2 == 1
  {
    hide Mul;
    var k: nat :| Mul(e, d) == 1 + Mul(Mul(p - 1, q - 1), k);
    if p % 2 == 1 {
      EvenTimes(p - 1, q - 1);
    } else {
      EvenPrime(p);
      if q % 2 == 0 {
        EvenPrime(q);
      }
      EvenTimes(q - 1, p - 1);
      MulComm(p - 1, q - 1);
    }
    EvenTimes(Mul(p - 1, q - 1), k);
    if e % 2 == 0 {
      EvenTimes(e, d);
    }
    if d % 2 == 0 {
      EvenTimes(d, e);
      MulComm(d, e);
    }
  }

  lemma EvenPrime(p: nat)
    requires Prime(p) && p % 2 == 0
    ensures p == 2
  {
    DividesBy(2, p / 2);
  }

  lemma {:induction false} EvenTimes(a: nat, b: nat)
    requires a % 2 == 0
    ensures Mul(a, b) % 2 == 0
  {
    if b != 0 {
      EvenTimes(a, b - 1);
    }
  }

  lemma {:induction false} PowNegative(x: int, k: nat)
    ensures Pow(-x, k) == if k % 2 == 1 then -Pow(x, k) else Pow(x, k)
  {
    if k != 0 {
      PowNegative(x, k - 1);
      assert -x * -Pow(x, k - 1) == x * Pow(x, k - 1);
    }
  }

  /** ... for negative x too. */
  lemma PowerBackSigned(x: int, p: nat, q: nat, e: nat, d: nat, n: int)
    requires Keys(p, q, e, d, n)
    ensures Congruent(n, Pow(x, Mul(e, d)), x)
  {
    hide Keys, Pow, Mul;
    if x >= 0 {
      PowerBack(x, p, q, e, d, n);
    } else {
      OddExponents(p, q, e, d, n);
      OddProduct(e, d);
      PowerBack(-x, p, q, e, d, n);
      PowNegative(-x, Mul(e, d));
      DividesTimes(n, Pow(-x, Mul(e, d)) - -x, -1);
    }
  }

  lemma OddProduct(e: nat, d: nat)
    requires e % 2 == 1 && d % 2 == 1
    ensures Mul(e, d) % 2 == 1
  {
    hide Mul;
    MulComm(e, d);
    MulStep(d, e);
    EvenTimes(e - 1, d);
    MulComm(e - 1, d);
  }

  lemma MulStep(a: nat, b: nat)
    requires 1 <= b
    ensures Mul(a, b) == a + Mul(a, b - 1)
  {}

  /** Two numbers of the same sign below n with the same remainder are equal. */
  lemma SameNumber(a: int, b: int, n: int)
    requires Congruent(n, a, b) && Abs(a) < n && Abs(b) < n && ((0 <= a && 0 <= b) || (a <= 0 && b <= 0))
    ensures a == b
  {
    if a >= b {
      DividesSmall(n, a - b);
    } else {
      DividesTimes(n, a - b, -1);
      DividesSmall(n, b - a);
    }
  }

  /** Decrypting undoes encrypting, for every signed byte. */
  lemma RoundTrip(m: int, c: int, r: int, p: nat, q: nat, e: nat, d: nat, n: int)
    requires Keys(p, q, e, d, n) && -128 <= m <= 127
    requires Reduced(c, m, e, n) && Reduced(r, c, d, n)
    ensures r == m
  {
    hide Keys, Pow, Mul, Congruent;
    KeyLimits(p, q, e, d, n);
    OddExponents(p, q, e, d, n);
    CongruentPow(n, c, Pow(m, e), d);
    PowPow(m, e, d);
    CongruentTrans(n, r, Pow(c, d), Pow(m, Mul(e, d)));
    PowerBackSigned(m, p, q, e, d, n);
    CongruentTrans(n, r, Pow(m, Mul(e, d)), m);
    SameNumber(r, m, n);
  }

  lemma KeyLimits(p: nat, q: nat, e: nat, d: nat, n: int)
    requires Keys(p, q, e, d, n)
    ensures 128 < n < 0x8000_0000
  {}

  /** No number from 2 to d divides p. */
  predicate NoDivisorTo(p: nat, d: nat)
  {
    d < 2 || (p % d != 0 && NoDivisorTo(p, d - 1))
  }

  lemma {:induction false} NotDivided(p: nat, m: nat, d: nat)
    requires NoDivisorTo(p, m) && 2 <= d <= m
    ensures p % d != 0
  {
    if d < m {
      NotDivided(p, m - 1, d);
    }
  }

  /** Trial division up to the square root. */
  lemma TrialDivision(p: nat, m: nat)
    requires 2 <= p < (m + 1) * (m + 1) && NoDivisorTo(p, m)
    ensures Prime(p)
  {
    forall d: int | 1 <= d && Divides(d, p)
      ensures d == 1 || d == p
    {
      var k: int :| Times(d, k) == p;
      Cofactor(p, m, d, k);
    }
  }

  lemma Cofactor(p: nat, m: nat, d: nat, k: int)
    requires 2 <= p < (m + 1) * (m + 1) && NoDivisorTo(p, m) && 1 <= d && d * k == p
    ensures d == 1 || d == p
  {
    if k <= 0 {
      TimesGrows(d, k);
    }
    if d != 1 && k != 1 {
      RestOf(d, k);
      RestOf(k, d);
      if m < d && m < k {
        Grows(m + 1, d, k);
      } else if d <= m {
        NotDivided(p, m, d);
      } else {
        NotDivided(p, m, k);
      }
    }
  }

  lemma RestOf(d: nat, k: nat)
    requires 1 <= d
    ensures d * k % d == 0
  {
    var x := d * k;
    Quotient(x, d);
    DividesBy(d, k - x / d);
    assert d * (k - x / d) == x - d * (x / d);
    DividesSmall(d, x % d);
  }

  lemma Grows(a: nat, d: nat, k: nat)
    requires a <= d && a <= k
    ensures a * a <= d * k
  {
    assert a * a <= d * a <= d * k;
  }

  /** The keys in rsaMain. */
  lemma MainKeys()
    ensures Keys(251, 439, 5327, 43763, 110189)
  {
    assert NoDivisorTo(251, 8);
    assert NoDivisorTo(251, 15);
    assert NoDivisorTo(439, 7);
    assert NoDivisorTo(439, 14);
    assert NoDivisorTo(439, 20);
    TrialDivision(251, 15);
    TrialDivision(439, 20);
    hide Mul;
    MulIs(250, 438);
    MulIs(5327, 43763);
    MulIs(109500, 2129);
  }

  // ---- encrypt and decrypt

  /** The four bytes of a value as a Java int, lowest first. */
  function IntBytes(v: int): (r: seq<byte>)
    ensures |r| == 4
  {
    var u := v % 0x1_0000_0000;
    [Byte(u, 0), Byte(u, 1), Byte(u, 2), Byte(u, 3)]
  }

  /** (raw[i] & 0xFF) | ... | (raw[i + 3] & 0xFF) << 24, an int */
  function IntOf(b0: byte, b1: byte, b2: byte, b3: byte): int
  {
    var u := Pack(b0, b1, b2, b3);
    if u < 0x8000_0000 then u else u - 0x1_0000_0000
  }

  lemma IntRoundTrip(v: int)
    requires -0x8000_0000 <= v < 0x8000_0000
    ensures var b := IntBytes(v); IntOf(b[0], b[1], b[2], b[3]) == v
  {
    hide Byte, Pack;
    Unpack(v % 0x1_0000_0000);
  }

  lemma IntFits(b0: byte, b1: byte, b2: byte, b3: byte)
    ensures Abs(IntOf(b0, b1, b2, b3)) <= 0x8000_0000
  {
    hide Pack;
    Bytes(b0, b1, b2, b3);
  }

  /** (byte) */
  function ToByte(v: int): signed
  {
    (v + 128) % 256 - 128
  }

  /** The numbers that four bytes each of s stand for are reduced powers of raw. */
  ghost predicate Encrypted(s: seq<byte>, raw: seq<signed>, e: nat, n: int)
  {
    && |s| == 4 * |raw|
    && forall i :: 0 <= i < |raw| ==> Reduced(IntAt(s, 4 * i), raw[i], e, n)
  }

  function IntAt(s: seq<byte>, i: nat): int
    requires i + 4 <= |s|
  {
    IntOf(s[i], s[i + 1], s[i + 2], s[i + 3])
  }

  /** encrypted[i++] = (byte) ..., four times */
  method PutInt(out: array<byte>, i: nat, value: int)
    requires i + 4 <= out.Length
    modifies out
    ensures out[..i + 4] == old(out[..i]) + IntBytes(value)
  {
    hide Byte;
    var b := IntBytes(value);
    out[i], out[i + 1], out[i + 2], out[i + 3] := b[0], b[1], b[2], b[3];
  }

  /** One more number, and all before it as they were. */
  lemma EncryptedNext(s: seq<byte>, t: seq<byte>, value: int, raw: seq<signed>, k: nat, e: nat, n: int)
    requires k < |raw| && Encrypted(s, raw[..k], e, n) && t == s + IntBytes(value)
    requires Reduced(value, raw[k], e, n) && -0x8000_0000 <= value < 0x8000_0000
    ensures Encrypted(t, raw[..k + 1], e, n)
  {
    hide Reduced, IntBytes, IntOf;
    IntRoundTrip(value);
    forall i | 0 <= i < k + 1
      ensures Reduced(IntAt(t, 4 * i), raw[..k + 1][i], e, n)
    {
      if i < k {
        assert IntAt(t, 4 * i) == IntAt(s, 4 * i) && raw[..k][i] == raw[i];
      } else {
        assert IntAt(t, 4 * i) == value;
      }
    }
  }

  lemma SizeWraps(n: nat)
    requires n <= 0x7fff_ffff
    ensures Java.Int(n * 4) <= n * 4 && (Java.Int(n * 4) == n * 4 <==> n * 4 <= 0x7fff_ffff)
  {}

  /** encrypt: each byte to the power of the public key, as four bytes, in base64. Err for an exception: too many
      bytes for an array. The text is the encoding of the numbers s as long as base64j gets it right. */
  method Encrypt(raw: seq<signed>, publicKey: nat, product: int) returns (text: Base64.Result<seq<char>>, ghost s: seq<byte>)
    requires 1 < product < 0x8000_0000 && |raw| <= Java.MAX_INT
    ensures text.Ok? <==> 4 * |raw| <= Base64.MOST_BYTES
    ensures text.Ok? ==> Encrypted(s, raw, publicKey, product) && text.value == Base64.Masked(Base64.Encode(s), Base64.DataLen(|s|))
    ensures text.Ok? && text.value == Base64.Encode(s) <==> |raw| < 0x800_0000
  {
    hide Encrypted, Reduced, IntBytes, IntOf, Base64.Masked, Base64.Encode, Base64.DataLen, Java.Int;
    SizeWraps(|raw|);
    var size := Java.Int(|raw| * 4);
    s := [];
    if size < 0 {
      return Base64.Err, s;
    }
    var encrypted := new byte[size];
    NoneEncrypted(raw, publicKey, product, encrypted[..0]);
    for i := 0 to |raw|
      invariant 4 * i <= size && Encrypted(encrypted[..4 * i], raw[..i], publicKey, product)
    {
      var value := FastPow(raw[i], publicKey, product);
      ReducedFits(value, raw[i], publicKey, product);
      if 4 * i + 4 > size {
        return Base64.Err, s;
      }
      ghost var was := encrypted[..4 * i];
      PutInt(encrypted, 4 * i, value);
      EncryptedNext(was, encrypted[..4 * i + 4], value, raw, i, publicKey, product);
    }
    assert raw[..|raw|] == raw && encrypted[..size] == encrypted[..];
    s := encrypted[..];
    var out := Base64.JavaEncode(encrypted[..]);
    text := if out.Ok? then Base64.Ok(out.value[..]) else Base64.Err;
  }

  lemma NoneEncrypted(raw: seq<signed>, e: nat, n: int, s: seq<byte>)
    requires s == []
    ensures Encrypted(s, raw[..0], e, n)
  {}

  lemma ReducedFits(r: int, a: int, key: nat, n: int)
    requires Reduced(r, a, key, n) && n < 0x8000_0000
    ensures -0x8000_0000 <= r < 0x8000_0000
  {
    hide Pow, Congruent;
  }

  /** Each byte is that of the reduced power of four bytes of s. */
  ghost predicate Powers(s: seq<byte>, bytes: seq<signed>, key: nat, n: int)
  {
    && 4 * |bytes| <= |s|
    && forall i :: 0 <= i < |bytes| ==> exists v: int :: Reduced(v, IntAt(s, 4 * i), key, n) && bytes[i] == ToByte(v)
  }

  /** decrypt: four bytes at a time to the power of the private key. Err for an exception: the text is not base64,
      or the last number lacks a byte. */
  method Decrypt(text: seq<char>, privateKey: nat, product: int) returns (r: Base64.Result<seq<signed>>)
    requires 1 < product < 0x8000_0000 && |text| <= Java.MAX_INT
    ensures r.Ok? <==> Base64.JavaDecodable(text) && |Base64.Decode(Base64.Strip(text))| % 4 == 0
    ensures r.Ok? ==>
              var s := Base64.Decode(Base64.Strip(text));
              |s| == 4 * |r.value| && Powers(s, r.value, privateKey, product)
  {
    hide Reduced, IntOf, Base64.Decodable, Base64.AllDigits, Base64.Decode;
    var d := Base64.JavaDecode(text);
    if d.Err? {
      return Base64.Err;
    }
    var raw := d.value;
    var decrypted: seq<signed> := [];
    ghost var j := 0;
    var i := 0;
    while i < |raw|
      invariant i == 4 * j && |decrypted| == j && i <= |raw| && Powers(raw, decrypted, privateKey, product)
    {
      if |raw| < i + 4 {
        return Base64.Err;
      }
      var value := IntAt(raw, i);
      IntFits(raw[i], raw[i + 1], raw[i + 2], raw[i + 3]);
      var v := FastPow(value, privateKey, product);
      decrypted := decrypted + [ToByte(v)];
      i, j := i + 4, j + 1;
    }
    return Base64.Ok(decrypted);
  }

  /** decrypt(encrypt(raw)) is raw for fewer than 2^27 bytes, and an exception for all others. */
  method EncryptDecrypt(raw: seq<signed>, publicKey: nat, privateKey: nat, product: int, ghost p: nat, ghost q: nat)
    returns (back: Base64.Result<seq<signed>>)
    requires Keys(p, q, publicKey, privateKey, product) && |raw| <= Java.MAX_INT
    ensures back == if |raw| < 0x800_0000 then Base64.Ok(raw) else Base64.Err
  {
    hide Keys, Encrypted, Reduced, IntOf, ToByte, Base64.Decodable, Base64.JavaDecodable, Base64.AllDigits, Base64.Decode;
    hide Base64.Encode, Base64.Strip, Base64.Masked, Base64.DataLen;
    KeyLimits(p, q, publicKey, privateKey, product);
    var text;
    ghost var s;
    text, s := Encrypt(raw, publicKey, product);
    if text.Err? {
      return Base64.Err;
    }
    EncryptedLength(s, raw, publicKey, product);
    Base64.TextFits(|s|);
    back := Decrypt(text.value, privateKey, product);
    if |raw| < 0x800_0000 {
      Base64.RightDecodable(s);
      Decrypted(s, raw, back.value, p, q, publicKey, privateKey, product);
    } else {
      Base64.MaskedRefused(s);
      Base64.NotDecodable(text.value);
    }
  }

  lemma EncryptedLength(s: seq<byte>, raw: seq<signed>, e: nat, n: int)
    requires Encrypted(s, raw, e, n)
    ensures |s| == 4 * |raw| && |s| % 4 == 0
  {}

  /** The private key takes each number back to its byte. */
  lemma Decrypted(s: seq<byte>, raw: seq<signed>, back: seq<signed>, p: nat, q: nat, e: nat, d: nat, n: int)
    requires Keys(p, q, e, d, n) && Encrypted(s, raw, e, n) && |s| == 4 * |back| && Powers(s, back, d, n)
    ensures back == raw
  {
    hide Keys, Reduced, IntOf, ToByte;
    forall i | 0 <= i < |raw|
      ensures back[i] == raw[i]
    {
      var v: int :| Reduced(v, IntAt(s, 4 * i), d, n) && back[i] == ToByte(v);
      RoundTrip(raw[i], IntAt(s, 4 * i), v, p, q, e, d, n);
      ByteKept(raw[i]);
    }
  }

  lemma ByteKept(m: signed)
    ensures ToByte(m) == m
  {}
}
