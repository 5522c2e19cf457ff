/** adler32.c: the Adler-32 checksum, with its reductions put off as long as 32 bits allow, and the checksum
    of two pieces put together. */
module Adler {
  import opened BitStream

  type uint32 = n: int | 0 <= n < 0x1_0000_0000

  const BASE := 65521
  const NMAX := 5552

  /** The two component sums. */
  datatype Sums = Sums(one: nat, two: nat)

  predicate Reduced(s: Sums)
  {
    s.one < 65521 && s.two < 65521
  }

  function ModAdd(a: nat, b: nat): (r: nat)
    ensures r < 65521
  {
    (a + b) % 65521
  }

  /** The checksum a byte at a time (section 8.2 of RFC 1950). */
  function Checksum(s: Sums, bytes: seq<byte>): (r: Sums)
    requires Reduced(s)
    ensures Reduced(r)
    decreases |bytes|
  {
    if bytes == [] then s
    else
      var n := |bytes| - 1;
      var t := Checksum(s, bytes[..n]);
      var one := ModAdd(t.one, bytes[n]);
      Sums(one, ModAdd(t.two, one))
  }

  /** The same sums without any reduction. */
  function Plain(s: Sums, bytes: seq<byte>): (r: Sums)
    ensures s.one <= r.one && s.two <= r.two
    decreases |bytes|
  {
    if bytes == [] then s
    else
      var n := |bytes| - 1;
      var t := Plain(s, bytes[..n]);
      Sums(t.one + bytes[n], t.two + t.one + bytes[n])
  }

  function Mod(s: Sums): (r: Sums)
    ensures Reduced(r)
  {
    Sums(s.one % 65521, s.two % 65521)
  }

  lemma ModAdds(a: nat, b: nat)
    ensures (a % 65521 + b) % 65521 == (a + b) % 65521
  {}

  lemma ModAddsUp(a: nat, b: nat, c: nat)
    ensures (a % 65521 + (b % 65521 + c) % 65521) % 65521 == (a + (b + c)) % 65521
  {}

  /** Reducing at the end, and anywhere before, is as good as reducing at every byte. */
  lemma {:induction false} ReduceOnce(s: Sums, bytes: seq<byte>)
    ensures Checksum(Mod(s), bytes) == Mod(Plain(s, bytes))
    decreases |bytes|
  {
    if bytes != [] {
      var n := |bytes| - 1;
      ReduceOnce(s, bytes[..n]);
      var t := Plain(s, bytes[..n]);
      ModAdds(t.one, bytes[n]);
      ModAddsUp(t.two, t.one, bytes[n]);
    }
  }

  lemma {:induction false} PlainJoin(s: Sums, a: seq<byte>, b: seq<byte>)
    ensures Plain(s, a + b) == Plain(Plain(s, a), b)
    decreases |b|
  {
    if b == [] {
      assert a + b == a;
    } else {
      var n := |b| - 1;
      assert (a + b)[..|a| + n] == a + b[..n];
      PlainJoin(s, a, b[..n]);
    }
  }

  /** The checksum of a text is that of its second part carried on from that of its first. */
  lemma ChecksumJoin(s: Sums, a: seq<byte>, b: seq<byte>)
    requires Reduced(s)
    ensures Checksum(s, a + b) == Checksum(Checksum(s, a), b)
  {
    hide Checksum, Plain;
    assert Mod(s) == s;
    ReduceOnce(s, a);
    ReduceOnce(s, a + b);
    PlainJoin(s, a, b);
    ReduceOnce(Plain(s, a), b);
  }

  // ---- how long a reduction can wait

  /** The most the second sum can be n bytes after a reduction. */
  function Top(n: nat): nat
  {
    if n == 0 then 65520 else Top(n - 1) + 65520 + 255 * n
  }

  lemma {:induction false} TopBounds(s: Sums, bytes: seq<byte>)
    requires Reduced(s)
    ensures Plain(s, bytes).one <= 65520 + 255 * |bytes| && Plain(s, bytes).two <= Top(|bytes|)
    decreases |bytes|
  {
    if bytes != [] {
      TopBounds(s, bytes[..|bytes| - 1]);
    }
  }

  lemma {:induction false} TopValue(n: nat)
    ensures 2 * Top(n) == 255 * (n * (n + 1)) + 131040 * (n + 1)
  {
    if n > 0 {
      TopValue(n - 1);
      assert (n - 1) * n + 2 * n == n * (n + 1);
    }
  }

  lemma {:induction false} TopGrows(m: nat, n: nat)
    requires m <= n
    ensures Top(m) <= Top(n) && (m < n ==> Top(m) < Top(n))
    decreases n
  {
    if m < n {
      TopGrows(m, n - 1);
    }
  }

  /** NMAX is exactly the number of bytes after which the sums must be reduced. */
  lemma NmaxIsExact(n: nat)
    ensures Top(n) < 0x1_0000_0000 <==> n <= NMAX
  {
    TopValue(5552);
    TopValue(5553);
    if n <= NMAX {
      TopGrows(n, 5552);
    } else {
      TopGrows(5553, n);
    }
  }

  /** Up to NMAX bytes from a reduction no sum passes 32 bits. */
  lemma PlainFits(s: Sums, bytes: seq<byte>)
    requires Reduced(s) && |bytes| <= NMAX
    ensures Plain(s, bytes).one < 0x1_0000_0000 && Plain(s, bytes).two < 0x1_0000_0000
  {
    hide Plain, Top;
    TopBounds(s, bytes);
    NmaxIsExact(|bytes|);
  }

  // ---- reduction without a division

  /** CHOP: 65536 is 15 more than BASE. */
  method Chop(a: uint32) returns (r: uint32)
    requires a / 65536 * 15 + 65535 < 0x1_0000_0000
    ensures r == a % 65536 + 15 * (a / 65536) && r % 65521 == a % 65521
  {
    var tmp := a / 65536;
    r := a % 65536;
    r := r + (16 * tmp - tmp);
    Chopped(a);
  }

  lemma Chopped(a: nat)
    ensures (a % 65536 + 15 * (a / 65536)) % 65521 == a % 65521
  {
    var q := a / 65536;
    ModTimes(a % 65536 + 15 * q, q);
    assert a == a % 65536 + 15 * q + 65521 * q;
  }

  lemma {:induction false} ModTimes(a: nat, q: nat)
    ensures (a + 65521 * q) % 65521 == a % 65521
    decreases q
  {
    if q > 0 {
      ModTimes(a + 65521, q - 1);
    }
  }

  /** MOD28 is exact below 2^28. */
  method Mod28(a: uint32) returns (r: uint32)
    requires a < 0x1000_0000
    ensures r == a % 65521
  {
    r := Chop(a);
    if r >= BASE {
      r := r - BASE;
    }
  }

  /** MOD is exact for any 32 bits. */
  method Mod32(a: uint32) returns (r: uint32)
    ensures r == a % 65521
  {
    r := Chop(a);
    r := Mod28(r);
  }

  /** MOD63 is exact below 2^63. */
  method Mod63(a: nat) returns (r: nat)
    requires a < 0x8000_0000_0000_0000
    ensures r == a % 65521
  {
    var tmp := a / 0x1_0000_0000;
    r := a % 0x1_0000_0000;
    r := r + (256 * tmp - 32 * tmp + tmp);
    TopChopped(a);
    var b := r;
    tmp := r / 65536;
    r := r % 65536;
    r := r + (16 * tmp - tmp);
    Chopped(b);
    b := r;
    tmp := r / 65536;
    r := r % 65536;
    r := r + (16 * tmp - tmp);
    Chopped(b);
    if r >= BASE {
      r := r - BASE;
    }
  }

  /** 2^32 is 225 more than a multiple of BASE. */
  lemma TopChopped(a: nat)
    ensures (a % 0x1_0000_0000 + 225 * (a / 0x1_0000_0000)) % 65521 == a % 65521
  {
    var q := a / 0x1_0000_0000;
    ModTimes(a % 0x1_0000_0000 + 225 * q, 65551 * q);
    assert 65521 * 65551 + 225 == 0x1_0000_0000;
    assert a == a % 0x1_0000_0000 + 225 * q + 65521 * (65551 * q);
  }

  // ---- adler32_z

  /** The sums in a checksum value, and the value of two sums. */
  function Parts(adler: uint32): Sums
  {
    Sums(adler % 65536, adler / 65536)
  }

  function Value(s: Sums): (r: uint32)
    requires Reduced(s)
    ensures Parts(r) == s
  {
    s.one + 65536 * s.two
  }

  /** A null pointer, or some bytes. */
  datatype Buffer = Null | Bytes(data: seq<byte>)

  lemma PlainSlice(s: Sums, b: seq<byte>, i: nat, j: nat, k: nat)
    requires i <= j <= k <= |b|
    ensures Plain(s, b[i..k]) == Plain(Plain(s, b[i..j]), b[j..k])
  {
    hide Plain;
    assert b[i..k] == b[i..j] + b[j..k];
    PlainJoin(s, b[i..j], b[j..k]);
  }

  /** The bytes from i to j can be added to the sums without passing 32 bits. */
  predicate Room(adler: uint32, sum2: uint32, buf: seq<byte>, i: nat, j: nat)
    requires i <= j <= |buf|
  {
    Plain(Sums(adler, sum2), buf[i..j]).one < 0x1_0000_0000 && Plain(Sums(adler, sum2), buf[i..j]).two < 0x1_0000_0000
  }

  method Do1(buf: seq<byte>, i: nat, adler: uint32, sum2: uint32) returns (a: uint32, s: uint32)
    requires i < |buf| && Room(adler, sum2, buf, i, i + 1)
    ensures Sums(a, s) == Plain(Sums(adler, sum2), buf[i..i + 1])
  {
    assert buf[i..i + 1][..0] == [];
    assert Plain(Sums(adler, sum2), buf[i..i + 1]) == Sums(adler + buf[i], sum2 + adler + buf[i]);
    a := adler + buf[i];
    s := sum2 + a;
  }

  method Do2(buf: seq<byte>, i: nat, adler: uint32, sum2: uint32) returns (a: uint32, s: uint32)
    requires i + 2 <= |buf| && Room(adler, sum2, buf, i, i + 2)
    ensures Sums(a, s) == Plain(Sums(adler, sum2), buf[i..i + 2])
  {
    hide Plain;
    PlainSlice(Sums(adler, sum2), buf, i, i + 1, i + 2);
    a, s := Do1(buf, i, adler, sum2);
    a, s := Do1(buf, i + 1, a, s);
  }

  method Do4(buf: seq<byte>, i: nat, adler: uint32, sum2: uint32) returns (a: uint32, s: uint32)
    requires i + 4 <= |buf| && Room(adler, sum2, buf, i, i + 4)
    ensures Sums(a, s) == Plain(Sums(adler, sum2), buf[i..i + 4])
  {
    hide Plain;
    PlainSlice(Sums(adler, sum2), buf, i, i + 2, i + 4);
    a, s := Do2(buf, i, adler, sum2);
    a, s := Do2(buf, i + 2, a, s);
  }

  method Do8(buf: seq<byte>, i: nat, adler: uint32, sum2: uint32) returns (a: uint32, s: uint32)
    requires i + 8 <= |buf| && Room(adler, sum2, buf, i, i + 8)
    ensures Sums(a, s) == Plain(Sums(adler, sum2), buf[i..i + 8])
  {
    hide Plain;
    PlainSlice(Sums(adler, sum2), buf, i, i + 4, i + 8);
    a, s := Do4(buf, i, adler, sum2);
    a, s := Do4(buf, i + 4, a, s);
  }

  method Do16(buf: seq<byte>, i: nat, adler: uint32, sum2: uint32) returns (a: uint32, s: uint32)
    requires i + 16 <= |buf| && Room(adler, sum2, buf, i, i + 16)
    ensures Sums(a, s) == Plain(Sums(adler, sum2), buf[i..i + 16])
  {
    hide Plain;
    PlainSlice(Sums(adler, sum2), buf, i, i + 8, i + 16);
    a, s := Do8(buf, i, adler, sum2);
    a, s := Do8(buf, i + 8, a, s);
  }

  /** There is room for everything up to NMAX bytes from a reduction. */
  lemma RoomLeft(base: Sums, buf: seq<byte>, from: nat, i: nat, j: nat)
    requires Reduced(base) && from <= i <= j <= |buf| && j <= from + NMAX
    ensures var t := Plain(base, buf[from..i]);
            && t.one < 0x1_0000_0000 && t.two < 0x1_0000_0000 && Room(t.one, t.two, buf, i, j)
            && Plain(t, buf[i..j]) == Plain(base, buf[from..j])
  {
    hide Plain;
    PlainFits(base, buf[from..i]);
    PlainFits(base, buf[from..j]);
    PlainSlice(base, buf, from, i, j);
  }

  /** do DO16(buf) while (--n): n times 16 bytes. */
  method Sixteens(buf: seq<byte>, p: nat, count: nat, adler: uint32, sum2: uint32, ghost base: Sums, ghost from: nat)
    returns (a: uint32, s: uint32)
    requires Reduced(base) && from <= p && p + 16 * count <= |buf| && p + 16 * count <= from + NMAX
    requires Sums(adler, sum2) == Plain(base, buf[from..p])
    ensures Sums(a, s) == Plain(base, buf[from..p + 16 * count])
  {
    hide Plain, Room;
    a, s := adler, sum2;
    var n := count;
    var i := p;
    while n > 0
      invariant 0 <= n <= count && 0 <= i && i + 16 * n == p + 16 * count
      invariant from <= i <= |buf| && Sums(a, s) == Plain(base, buf[from..i])
    {
      RoomLeft(base, buf, from, i, i + 16);
      a, s := Do16(buf, i, a, s);
      i := i + 16;
      n := n - 1;
    }
  }

  /** while (len--): one byte at a time. */
  method Singles(buf: seq<byte>, p: nat, count: nat, adler: uint32, sum2: uint32, ghost base: Sums, ghost from: nat)
    returns (a: uint32, s: uint32)
    requires Reduced(base) && from <= p && p + count <= |buf| && p + count <= from + NMAX
    requires Sums(adler, sum2) == Plain(base, buf[from..p])
    ensures Sums(a, s) == Plain(base, buf[from..p + count])
  {
    hide Plain, Room;
    a, s := adler, sum2;
    var n := count;
    var i := p;
    while n > 0
      invariant 0 <= n <= count && 0 <= i && i + n == p + count
      invariant from <= i <= |buf| && Sums(a, s) == Plain(base, buf[from..i])
    {
      RoomLeft(base, buf, from, i, i + 1);
      a, s := Do1(buf, i, a, s);
      i := i + 1;
      n := n - 1;
    }
  }

  /** Reducing the sums of a piece carries the checksum on to its end. */
  lemma ReducePiece(s: Sums, buf: seq<byte>, from: nat, to: nat)
    requires Reduced(s) && from <= to <= |buf|
    ensures Mod(Plain(Checksum(s, buf[..from]), buf[from..to])) == Checksum(s, buf[..to])
    ensures Plain(Checksum(s, buf[..from]), buf[from..from]) == Checksum(s, buf[..from])
  {
    hide Plain, Checksum, Mod;
    var base := Checksum(s, buf[..from]);
    ModOfReduced(base);
    ReduceOnce(base, buf[from..to]);
    assert buf[..to] == buf[..from] + buf[from..to];
    ChecksumJoin(s, buf[..from], buf[from..to]);
    assert buf[from..from] == [];
    PlainNone(base);
  }

  lemma ModOfReduced(s: Sums)
    requires Reduced(s)
    ensures Mod(s) == s
  {}

  lemma PlainNone(s: Sums)
    ensures Plain(s, []) == s
  {}

  /** One byte. */
  lemma ChecksumOne(s: Sums, b: byte)
    requires Reduced(s)
    ensures Checksum(s, [b]) == Sums(ModAdd(s.one, b), ModAdd(s.two, ModAdd(s.one, b)))
  {
    hide Checksum, ModAdd;
    var t := [b];
    assert t[..0] == [];
    ChecksumNone(s);
    ChecksumLast(s, t);
  }

  lemma ChecksumLast(s: Sums, bytes: seq<byte>)
    requires Reduced(s) && bytes != []
    ensures var n := |bytes| - 1;
            var t := Checksum(s, bytes[..n]);
            Checksum(s, bytes) == Sums(ModAdd(t.one, bytes[n]), ModAdd(t.two, ModAdd(t.one, bytes[n])))
  {
    hide ModAdd;
  }

  /** Fewer than 16 bytes stay below 2 BASE in the first sum and below 2^28 in the second. */
  lemma FewBytes(s: Sums, bytes: seq<byte>)
    requires Reduced(s) && |bytes| < 16
    ensures Plain(s, bytes).one < 2 * BASE && Plain(s, bytes).two < 0x1000_0000
  {
    hide Plain, Top;
    TopBounds(s, bytes);
    TopGrows(|bytes|, 15);
    TopValue(15);
  }

  /** One reduction for every NMAX bytes, and one for the bytes left. */
  method Long(buf: seq<byte>, adler0: uint32, sum0: uint32, ghost s: Sums) returns (adler: uint32, sum2: uint32)
    requires Reduced(s) && Sums(adler0, sum0) == s
    ensures Sums(adler, sum2) == Checksum(s, buf)
  {
    hide Plain, Checksum, Mod;
    adler, sum2 := adler0, sum0;
    var p, len := 0, |buf|;
    ChecksumNone(s);
    assert buf[..0] == [] && buf[..|buf|] == buf;
    while len >= NMAX
      invariant 0 <= len && 0 <= p <= |buf| && p + len == |buf|
      invariant Sums(adler, sum2) == Checksum(s, buf[..p])
    {
      len := len - NMAX;
      ReducePiece(s, buf, p, p + NMAX);
      ModIs(Plain(Sums(adler, sum2), buf[p..p + NMAX]));
      ghost var base := Sums(adler, sum2);
      adler, sum2 := Sixteens(buf, p, NMAX / 16, adler, sum2, base, p);
      p := p + NMAX;
      adler := Mod32(adler);
      sum2 := Mod32(sum2);
    }
    if len > 0 {
      ReducePiece(s, buf, p, |buf|);
      ModIs(Plain(Sums(adler, sum2), buf[p..|buf|]));
      ghost var base := Sums(adler, sum2);
      adler, sum2 := Sixteens(buf, p, len / 16, adler, sum2, base, p);
      adler, sum2 := Singles(buf, p + 16 * (len / 16), len % 16, adler, sum2, base, p);
      adler := Mod32(adler);
      sum2 := Mod32(sum2);
    }
  }

  lemma ModIs(s: Sums)
    ensures Mod(s) == Sums(s.one % 65521, s.two % 65521)
  {}

  /** One byte: a subtraction is enough for each sum. */
  method OneByte(buf: seq<byte>, adler0: uint32, sum0: uint32, ghost s: Sums) returns (adler: uint32, sum2: uint32)
    requires Reduced(s) && Sums(adler0, sum0) == s && |buf| == 1
    ensures Sums(adler, sum2) == Checksum(s, buf)
  {
    hide Checksum;
    ChecksumOne(s, buf[0]);
    assert buf == [buf[0]];
    adler, sum2 := adler0, sum0;
    adler := adler + buf[0];
    if adler >= BASE {
      adler := adler - BASE;
    }
    sum2 := sum2 + adler;
    if sum2 >= BASE {
      sum2 := sum2 - BASE;
    }
  }

  /** Fewer than 16 bytes. */
  method Few(buf: seq<byte>, adler0: uint32, sum0: uint32, ghost s: Sums) returns (adler: uint32, sum2: uint32)
    requires Reduced(s) && Sums(adler0, sum0) == s && |buf| < 16
    ensures Sums(adler, sum2) == Checksum(s, buf)
  {
    hide Checksum, Plain, Mod;
    ReducePiece(s, buf, 0, |buf|);
    ModIs(Plain(s, buf));
    ChecksumNone(s);
    assert buf[..0] == [] && buf[0..0] == [] && buf[0..|buf|] == buf && buf[..|buf|] == buf;
    FewBytes(s, buf);
    adler, sum2 := Singles(buf, 0, |buf|, adler0, sum0, s, 0);
    if adler >= BASE {
      adler := adler - BASE;
    }
    sum2 := Mod28(sum2);
  }

  /** adler32_z: a byte at a time for one, reduced once for fewer than 16, and once every NMAX otherwise. */
  method Adler32Z(checksum: uint32, buffer: Buffer, length: nat) returns (r: uint32)
    requires Reduced(Parts(checksum))
    requires buffer.Bytes? ==> length == |buffer.data|
    requires buffer.Null? ==> length != 1 // one byte is read before the pointer is looked at
    ensures buffer.Null? ==> r == 1
    ensures buffer.Bytes? ==> r == Value(Checksum(Parts(checksum), buffer.data))
  {
    hide Plain, Checksum, Top, Room, Value;
    var sum2: uint32 := checksum / 65536;
    var adler: uint32 := checksum % 65536;
    ghost var s := Parts(checksum);
    var len := length;
    if len == 1 {
      adler, sum2 := OneByte(buffer.data, adler, sum2, s);
      return Value(Sums(adler, sum2));
    }
    if buffer.Null? {
      return 1;
    }
    var buf := buffer.data;
    if len < 16 {
      adler, sum2 := Few(buf, adler, sum2, s);
      return Value(Sums(adler, sum2));
    }
    adler, sum2 := Long(buf, adler, sum2, s);
    return Value(Sums(adler, sum2));
  }

  lemma ChecksumNone(s: Sums)
    requires Reduced(s)
    ensures Checksum(s, []) == s
  {}

  // ---- adler32_combine_

  /** What a text adds to the sums, whatever they are before it: the first sum goes up by the same amount, the
      second by that of the text alone and by the first for every byte. */
  lemma {:induction false} PlainShift(s: Sums, bytes: seq<byte>)
    ensures Plain(s, bytes).one == s.one + Plain(Sums(0, 0), bytes).one
    ensures Plain(s, bytes).two == s.two + |bytes| * s.one + Plain(Sums(0, 0), bytes).two
    decreases |bytes|
  {
    if bytes != [] {
      var n := |bytes| - 1;
      PlainShift(s, bytes[..n]);
      OneMore(n, s.one);
    }
  }

  lemma OneMore(n: nat, a: nat)
    ensures n * a + a == (n + 1) * a
  {}

  /** The sums of two texts from those of each, both started at 1. */
  lemma Combined(s: Sums, b: seq<byte>)
    ensures Plain(s, b).one + 1 == s.one + Plain(Sums(1, 0), b).one
    ensures Plain(s, b).two + |b| == s.two + |b| * s.one + Plain(Sums(1, 0), b).two
  {
    hide Plain;
    PlainShift(s, b);
    PlainShift(Sums(1, 0), b);
    assert |b| * 1 == |b|;
  }

  const START := Sums(1, 0)

  lemma ModShift(a: int, q: int)
    ensures (a + 65521 * q) % 65521 == a % 65521
  {}

  /** The second sum as the source puts it together, and as the bytes make it. */
  lemma SecondSum(p: Sums, two: nat, len2: nat, rem: nat, total: nat)
    requires rem == len2 % 65521 && total + len2 == p.two + len2 * p.one + two
    ensures ((rem * p.one) % 65521 + p.two + two % 65521 + 65521 - rem) % 65521 == total % 65521
  {
    var k, k1, k2 := len2 / 65521, (rem * p.one) / 65521, two / 65521;
    assert len2 * p.one == rem * p.one + 65521 * (k * p.one);
    var q := k1 + k * p.one + k2 - k - 1;
    ModShift((rem * p.one) % 65521 + p.two + two % 65521 + 65521 - rem, q);
  }

  lemma FirstSum(a: nat, one: nat, total: nat)
    requires total + 1 == a + one
    ensures (a + one % 65521 + 65520) % 65521 == total % 65521
  {
    ModShift(a + one % 65521 + 65520, one / 65521 - 1);
  }

  /** What the source computes from two checksums is the checksum of the two texts, one after the other. */
  lemma CombineIsJoin(a: seq<byte>, b: seq<byte>)
    ensures var p, q, rem := Checksum(START, a), Checksum(START, b), |b| % 65521;
            Checksum(START, a + b) ==
              Sums((p.one + q.one + 65520) % 65521, ((rem * p.one) % 65521 + p.two + q.two + 65521 - rem) % 65521)
  {
    hide Checksum, Plain, Mod;
    var p, t := Checksum(START, a), Plain(START, b);
    ChecksumJoin(START, a, b);
    ModOfReduced(START);
    ModOfReduced(p);
    ReduceOnce(START, b);
    ReduceOnce(p, b);
    ModIs(t);
    ModIs(Plain(p, b));
    Combined(p, b);
    FirstSum(p.one, t.one, Plain(p, b).one);
    SecondSum(p, t.two, |b|, |b| % 65521, Plain(p, b).two);
  }

  lemma Products(x: nat, y: nat)
    requires x <= 65520 && y <= 65520
    ensures x * y < 0x1_0000_0000
  {
    assert x * y <= 65520 * y;
  }

  /** adler32_combine_ on the sums: two subtractions are enough for each. */
  method CombineSums(p: Sums, q: Sums, rem: nat) returns (sum1: uint32, sum2: uint32)
    requires Reduced(p) && Reduced(q) && rem < 65521
    ensures sum1 == (p.one + q.one + 65520) % 65521
    ensures sum2 == ((rem * p.one) % 65521 + p.two + q.two + 65521 - rem) % 65521
  {
    sum1 := p.one;
    Products(rem, sum1);
    sum2 := rem * sum1;
    sum2 := Mod32(sum2);
    sum1 := sum1 + (q.one + BASE - 1);
    sum2 := sum2 + (p.two + q.two + BASE - rem);
    if sum1 >= BASE {
      sum1 := sum1 - BASE;
    }
    if sum1 >= BASE {
      sum1 := sum1 - BASE;
    }
    if sum2 >= 2 * BASE {
      sum2 := sum2 - 2 * BASE;
    }
    if sum2 >= BASE {
      sum2 := sum2 - BASE;
    }
  }

  /** adler32_combine_: the checksum of two texts from the checksum of each and the length of the second. */
  method Combine(adler1: uint32, adler2: uint32, length: int) returns (r: uint32)
    requires Reduced(Parts(adler1)) && Reduced(Parts(adler2)) && length < 0x8000_0000_0000_0000
    ensures length < 0 ==> r == 0xffff_ffff
    ensures forall a: seq<byte>, b: seq<byte> ::
              |b| == length && adler1 == Value(Checksum(START, a)) && adler2 == Value(Checksum(START, b)) ==>
              r == Value(Checksum(START, a + b))
  {
    hide Checksum, Value;
    if length < 0 {
      return 0xffff_ffff;
    }
    var rem := Mod63(length);
    var sum1, sum2 := CombineSums(Parts(adler1), Parts(adler2), rem);
    r := Value(Sums(sum1, sum2));
    forall a: seq<byte>, b: seq<byte> |
      |b| == length && adler1 == Value(Checksum(START, a)) && adler2 == Value(Checksum(START, b))
      ensures r == Value(Checksum(START, a + b))
    {
      CombineIsJoin(a, b);
    }
  }
}
