/** The table-driven CRCs: a byte at a time, and a word at a time on either byte order. */
module CrcTables {
  import opened Bits
  import opened Gf2
  import opened BitStream
  import opened Crc
  import opened Words

  // ---- bytes of a register

  /** ZSWAP32 */
  function Swap(c: nat): nat
  {
    Pack(Byte(c, 3), Byte(c, 2), Byte(c, 1), Byte(c, 0))
  }

  lemma SwapSwap(c: nat)
    requires c < 0x1_0000_0000
    ensures Swap(Swap(c)) == c && Swap(c) < 0x1_0000_0000
  {
    hide Byte, Pack;
    Unpack(c);
    Bytes(Byte(c, 3), Byte(c, 2), Byte(c, 1), Byte(c, 0));
  }

  lemma Div8(x: nat)
    ensures Low(x, 8) == x % 256 && Shr(x, 8) == x / 256 && Shl(x, 8) == 256 * x
  {
    Half4(x);
    Half4(x / 16);
    ShrShr(x, 4, 4);
    LowTwice(x);
    assert Shl(x, 8) == 2 * Shl(x, 7) == 4 * Shl(x, 6) == 8 * Shl(x, 5) == 16 * Shl(x, 4);
    assert Shl(x, 4) == 2 * Shl(x, 3) == 4 * Shl(x, 2) == 8 * Shl(x, 1) == 16 * x;
  }

  lemma Half4(x: nat)
    ensures Shr(x, 4) == x / 16
  {
    assert Shr(x, 4) == Shr(x / 2, 3) == Shr(x / 4, 2) == Shr(x / 8, 1) == x / 16;
  }

  lemma LowTwice(x: nat)
    requires Shr(x, 8) == x / 256
    ensures Low(x, 8) == x % 256
  {
    hide Low, Shr, Shl;
    Recompose(x, 8);
    assert Shl(x / 256, 8) == 256 * (x / 256) by { Shl8(x / 256); }
  }

  lemma Shl8(x: nat)
    ensures Shl(x, 8) == 256 * x
  {
    assert Shl(x, 8) == 2 * Shl(x, 7) == 4 * Shl(x, 6) == 8 * Shl(x, 5) == 16 * Shl(x, 4);
    assert Shl(x, 4) == 2 * Shl(x, 3) == 4 * Shl(x, 2) == 8 * Shl(x, 1) == 16 * x;
  }

  /** Exclusive or byte by byte. */
  lemma XorCons(lo: nat, hi: nat, lo': nat, hi': nat)
    requires lo < 256 && lo' < 256
    ensures Xor(lo + 256 * hi, lo' + 256 * hi') == Xor(lo, lo') + 256 * Xor(hi, hi')
    ensures Xor(lo, lo') < 256
  {
    hide Xor, Shl;
    WordIs();
    Shl8(hi);
    Shl8(hi');
    Shl8(Xor(hi, hi'));
    XorDisjoint(lo, hi, 8);
    XorDisjoint(lo', hi', 8);
    XorSwap(lo, Shl(hi, 8), lo', Shl(hi', 8));
    ShlXor(hi, hi', 8);
    XorBound(lo, lo', 8);
    XorDisjoint(Xor(lo, lo'), Xor(hi, hi'), 8);
  }

  lemma PackXor(a0: nat, a1: nat, a2: nat, a3: nat, b0: nat, b1: nat, b2: nat, b3: nat)
    requires a0 < 256 && a1 < 256 && a2 < 256 && b0 < 256 && b1 < 256 && b2 < 256
    ensures Xor(Pack(a0, a1, a2, a3), Pack(b0, b1, b2, b3)) == Pack(Xor(a0, b0), Xor(a1, b1), Xor(a2, b2), Xor(a3, b3))
    ensures Xor(a0, b0) < 256 && Xor(a1, b1) < 256 && Xor(a2, b2) < 256
  {
    hide Xor;
    XorCons(a2, a3, b2, b3);
    XorCons(a1, a2 + 256 * a3, b1, b2 + 256 * b3);
    XorCons(a0, a1 + 256 * (a2 + 256 * a3), b0, b1 + 256 * (b2 + 256 * b3));
  }

  lemma SwapXor(a: nat, b: nat)
    requires a < 0x1_0000_0000 && b < 0x1_0000_0000
    ensures Swap(Xor(a, b)) == Xor(Swap(a), Swap(b))
  {
    hide Xor, Byte, Pack;
    Unpack(a);
    Unpack(b);
    PackXor(Byte(a, 0), Byte(a, 1), Byte(a, 2), Byte(a, 3), Byte(b, 0), Byte(b, 1), Byte(b, 2), Byte(b, 3));
    XorCons(Byte(a, 3), 0, Byte(b, 3), 0);
    Bytes(Xor(Byte(a, 0), Byte(b, 0)), Xor(Byte(a, 1), Byte(b, 1)), Xor(Byte(a, 2), Byte(b, 2)), Xor(Byte(a, 3), Byte(b, 3)));
    PackXor(Byte(a, 3), Byte(a, 2), Byte(a, 1), Byte(a, 0), Byte(b, 3), Byte(b, 2), Byte(b, 1), Byte(b, 0));
  }

  // ---- shifting bytes through the register

  /** A register shifted by one byte, from that byte and the others. */
  lemma ByteOut(c: nat, n: nat)
    ensures Zeros(c, n + 8) == Xor(Zeros(c % 256, n + 8), Zeros(c / 256, n))
  {
    hide Xor, Zeros, Low, Shr, Shl;
    Div8(c);
    var lo, hi := Low(c, 8), Shr(c, 8);
    XorParts(c, 8);
    ZerosXor(lo, Shl(hi, 8), n + 8);
    ZerosAdd(Shl(hi, 8), 8, n);
    ZerosShl(hi, 8);
  }

  /** All four bytes of a word. */
  lemma FourOut(c: nat)
    requires c < 0x1_0000_0000
    ensures Zeros(c, 32) == Xor(Xor(Xor(Zeros(Byte(c, 0), 32), Zeros(Byte(c, 1), 24)), Zeros(Byte(c, 2), 16)), Zeros(c / 0x100_0000, 8))
  {
    hide Xor, Zeros;
    var z0, z1, z2, z3 := Zeros(Byte(c, 0), 32), Zeros(Byte(c, 1), 24), Zeros(Byte(c, 2), 16), Zeros(c / 0x100_0000, 8);
    ByteOut(c, 24);
    ByteOut(c / 0x100, 16);
    ByteOut(c / 0x1_0000, 8);
    assert c / 0x100 / 256 == c / 0x1_0000 && c / 0x1_0000 / 256 == c / 0x100_0000;
    XorAssoc(z1, z2, z3);
    XorAssoc(z0, Xor(z1, z2), z3);
    XorAssoc(z0, z1, z2);
  }

  /** A byte put in later is the same as one put in before, further up. */
  lemma ByteIn(x: nat, b: nat, m: nat)
    ensures Zeros(Xor(Zeros(x, m), b), 8) == Zeros(Xor(x, Shl(b, m)), m + 8)
  {
    hide Xor, Zeros, Shl;
    ZerosXor(Zeros(x, m), b, 8);
    ZerosAdd(x, m, 8);
    ZerosXor(x, Shl(b, m), m + 8);
    ZerosAdd(Shl(b, m), m, 8);
    ZerosShl(b, m);
  }

  lemma ShlBytes(b1: nat, b2: nat, b3: nat)
    ensures Shl(b1, 8) == 256 * b1 && Shl(b2, 16) == 0x1_0000 * b2 && Shl(b3, 24) == 0x100_0000 * b3
  {
    hide Shl;
    Shl8(b1);
    Shl8(b2);
    Shl8(b3);
    Shl8(256 * b2);
    Shl8(256 * b3);
    Shl8(0x1_0000 * b3);
    ShlShl(b2, 8, 8);
    ShlShl(b3, 8, 8);
    ShlShl(b3, 16, 8);
  }

  /** A word as the sum of its bytes, each in its place. */
  lemma PackIsXor(b0: nat, b1: nat, b2: nat, b3: nat)
    requires b0 < 256 && b1 < 256 && b2 < 256 && b3 < 256
    ensures Pack(b0, b1, b2, b3) == Xor(Xor(Xor(b0, Shl(b1, 8)), Shl(b2, 16)), Shl(b3, 24))
  {
    hide Xor, Shl;
    WordIs();
    ShlBytes(b1, b2, b3);
    XorDisjoint(b0, b1, 8);
    XorDisjoint(b0 + 256 * b1, b2, 16);
    XorDisjoint(b0 + 256 * b1 + 0x1_0000 * b2, b3, 24);
  }

  /** Four bytes fed one after another are one word fed at once. */
  lemma FourFed(c: nat, b0: byte, b1: byte, b2: byte, b3: byte)
    ensures Feed(Feed(Feed(Feed(c, b0), b1), b2), b3) == Zeros(Xor(c, Pack(b0, b1, b2, b3)), 32)
  {
    hide Xor, Zeros, Shl, Pack;
    PackIsXor(b0, b1, b2, b3);
    var s1, s2, s3 := Shl(b1, 8), Shl(b2, 16), Shl(b3, 24);
    var x0 := Xor(c, b0);
    ByteIn(x0, b1, 8);
    ByteIn(Xor(x0, s1), b2, 16);
    ByteIn(Xor(Xor(x0, s1), s2), b3, 24);
    XorAssoc(c, b0, s1);
    XorAssoc(c, Xor(b0, s1), s2);
    XorAssoc(c, Xor(Xor(b0, s1), s2), s3);
  }

  lemma {:induction false} RegisterOn(c: nat, buf: seq<byte>, i: nat)
    requires i < |buf|
    ensures Register(c, buf[..i + 1]) == Feed(Register(c, buf[..i]), buf[i])
  {
    hide Feed;
    assert buf[..i + 1][..i] == buf[..i];
  }

  lemma RegisterFour(c: nat, buf: seq<byte>, i: nat)
    requires i + 4 <= |buf|
    ensures Register(c, buf[..i + 4]) ==
              Zeros(Xor(Register(c, buf[..i]), Pack(buf[i], buf[i + 1], buf[i + 2], buf[i + 3])), 32)
  {
    hide Feed, Register, Xor, Zeros, Pack;
    RegisterOn(c, buf, i);
    RegisterOn(c, buf, i + 1);
    RegisterOn(c, buf, i + 2);
    RegisterOn(c, buf, i + 3);
    FourFed(Register(c, buf[..i]), buf[i], buf[i + 1], buf[i + 2], buf[i + 3]);
  }

  // ---- make_crc_table

  const EXPONENTS: seq<nat> := [0, 1, 2, 4, 5, 7, 8, 10, 11, 12, 16, 22, 23, 26]

  /** The polynomial with the first n of the exponents; no two are the same, so their bits add up. */
  function PolyOf(n: nat): nat
    requires n <= |EXPONENTS|
  {
    if n == 0 then 0 else PolyOf(n - 1) + Pow2(31 - EXPONENTS[n - 1])
  }

  lemma PolyIs()
    ensures PolyOf(14) == POLY
  {
    HighPowers();
    assert Pow2(15) == 0x8000 && Pow2(9) == 0x200 && Pow2(8) == 0x100 && Pow2(5) == 0x20;
    hide Pow2;
    assert PolyOf(1) == 0x8000_0000;
    assert PolyOf(2) == 0xC000_0000;
    assert PolyOf(3) == 0xE000_0000;
    assert PolyOf(4) == 0xE800_0000;
    assert PolyOf(5) == 0xEC00_0000;
    assert PolyOf(6) == 0xED00_0000;
    assert PolyOf(7) == 0xED80_0000;
    assert PolyOf(8) == 0xEDA0_0000;
    assert PolyOf(9) == 0xEDB0_0000;
    assert PolyOf(10) == 0xEDB8_0000;
    assert PolyOf(11) == 0xEDB8_8000;
    assert PolyOf(12) == 0xEDB8_8200;
    assert PolyOf(13) == 0xEDB8_8300;
  }

  lemma HighPowers()
    ensures Pow2(31) == 0x8000_0000 && Pow2(30) == 0x4000_0000 && Pow2(29) == 0x2000_0000 && Pow2(27) == 0x800_0000
    ensures Pow2(26) == 0x400_0000 && Pow2(24) == 0x100_0000 && Pow2(23) == 0x80_0000 && Pow2(21) == 0x20_0000
    ensures Pow2(20) == 0x10_0000 && Pow2(19) == 0x8_0000
  {
    hide Pow2;
    WordIs();
    Doubled(31); Doubled(30); Doubled(29); Doubled(28); Doubled(27); Doubled(26); Doubled(25); Doubled(24);
    Doubled(23); Doubled(22); Doubled(21); Doubled(20); Doubled(19);
  }

  lemma Doubled(n: nat)
    ensures Pow2(n + 1) == 2 * Pow2(n)
  {}

  /** Tables 0..3: a byte followed by 0..3 zero bytes.  Tables 4..7: their byte reversals. */
  ghost predicate TablesOk(t: array2<nat>)
    reads t
  {
    && t.Length0 == 8 && t.Length1 == 256
    && (forall k: nat, n: nat :: k < 4 && n < 256 ==> t[k, n] == Zeros(n, 8 * k + 8))
    && (forall k: nat, n: nat :: 4 <= k < 8 && n < 256 ==> t[k, n] == Swap(Zeros(n, 8 * k - 24)))
  }

  /** poly |= (z_crc_t)1 << (31 - p[n]) */
  method MakePoly() returns (poly: nat)
    ensures poly == POLY
  {
    poly := 0;
    for n := 0 to |EXPONENTS|
      invariant poly == PolyOf(n)
    {
      poly := poly + Pow2(31 - EXPONENTS[n]);
    }
    PolyIs();
  }

  /** The eight bits of one byte. */
  method ShiftByte(n: nat, poly: nat) returns (c: nat)
    requires poly == POLY
    ensures c == Zeros(n, 8)
  {
    c := n;
    for k := 0 to 8
      invariant Zeros(c, 8 - k) == Zeros(n, 8)
    {
      c := if c % 2 == 1 then Xor(poly, c / 2) else c / 2;
    }
  }

  /** make_crc_table */
  method MakeTables() returns (t: array2<nat>)
    ensures fresh(t) && TablesOk(t)
  {
    hide Zeros, Xor, Swap;
    var poly := MakePoly();
    t := new nat[8, 256];
    for n := 0 to 256
      invariant forall m: nat :: m < n ==> t[0, m] == Zeros(m, 8)
    {
      t[0, n] := ShiftByte(n, poly);
    }
    for n := 0 to 256
      invariant forall m: nat :: m < 256 ==> t[0, m] == Zeros(m, 8)
      invariant forall k: nat, m: nat :: 1 <= k < 4 && m < n ==> t[k, m] == Zeros(m, 8 * k + 8)
      invariant forall k: nat, m: nat :: 4 <= k < 8 && m < n ==> t[k, m] == Swap(Zeros(m, 8 * k - 24))
    {
      var c := t[0, n];
      t[4, n] := Swap(c);
      for k := 1 to 4
        invariant c == Zeros(n, 8 * k)
        invariant forall m: nat :: m < 256 ==> t[0, m] == Zeros(m, 8)
        invariant forall j: nat, m: nat :: 1 <= j < 4 && m < n ==> t[j, m] == Zeros(m, 8 * j + 8)
        invariant forall j: nat, m: nat :: 4 <= j < 8 && m < n ==> t[j, m] == Swap(Zeros(m, 8 * j - 24))
        invariant forall j: nat :: 1 <= j < k ==> t[j, n] == Zeros(n, 8 * j + 8)
        invariant forall j: nat :: 4 <= j < k + 4 ==> t[j, n] == Swap(Zeros(n, 8 * j - 24))
      {
        ByteOut(c, 0);
        ZerosAtOnce(c / 256);
        ZerosAdd(n, 8 * k, 8);
        c := Xor(t[0, c % 256], c / 256);
        t[k, n] := c;
        t[k + 4, n] := Swap(c);
      }
    }
  }

  // ---- crc32_z without words

  /** DO1 */
  method FeedByte(t: array2<nat>, c: nat, b: byte) returns (c': nat)
    requires TablesOk(t) && c < 0x1_0000_0000
    ensures c' == Feed(c, b)
  {
    hide Xor, Zeros, Swap;
    XorLowByte(c, b);
    ByteOut(Xor(c, b), 0);
    ZerosAtOnce(Xor(c, b) / 256);
    c' := Xor(t[0, Xor(c, b) % 256], c / 256);
  }

  lemma XorLowByte(c: nat, b: nat)
    requires b < 256
    ensures Xor(c, b) / 256 == c / 256 && Xor(c, b) % 256 == Xor(c % 256, b) < 256
  {
    hide Xor;
    XorCons(c % 256, c / 256, b, 0);
    XorZero(c / 256);
  }

  lemma RegisterFits(c: nat, buf: seq<byte>)
    requires c < 0x1_0000_0000
    ensures Register(c, buf) < 0x1_0000_0000
  {
    hide Register;
    WordIs();
    RegisterWord(c, buf);
  }

  lemma NotFits(c: nat)
    requires c < 0x1_0000_0000
    ensures Not(c) < 0x1_0000_0000
  {
    WordIs();
    NotWord(c);
  }

  /** One byte at a time, eight to a turn of the loop. */
  method Bytewise(t: array2<nat>, crc: nat, buf: seq<byte>) returns (r: nat)
    requires TablesOk(t) && crc < 0x1_0000_0000
    ensures r == Crc32(crc, buf)
  {
    hide TablesOk, Register, Feed, Xor;
    NotFits(crc);
    var c, i := Xor(crc, 0xffff_ffff), 0;
    XorComm(crc, 0xffff_ffff);
    assert Register(Not(crc), buf[..0]) == Not(crc) by { NoBytes(Not(crc)); }
    while |buf| - i >= 8
      invariant 0 <= i <= |buf| && c == Register(Not(crc), buf[..i])
      decreases |buf| - i
    {
      ghost var start := i;
      for k := 0 to 8
        invariant i == start + k && c == Register(Not(crc), buf[..i])
      {
        RegisterFits(Not(crc), buf[..i]);
        RegisterOn(Not(crc), buf, i);
        c := FeedByte(t, c, buf[i]);
        i := i + 1;
      }
    }
    c, i := Rest(t, c, buf, i, Not(crc));
    assert buf[..|buf|] == buf;
    XorComm(c, 0xffff_ffff);
    r := Xor(c, 0xffff_ffff);
  }

  lemma NoBytes(c: nat)
    ensures Register(c, []) == c
  {}

  /** The bytes that are left. */
  method Rest(t: array2<nat>, c0: nat, buf: seq<byte>, i0: nat, ghost start: nat) returns (c: nat, i: nat)
    requires TablesOk(t) && start < 0x1_0000_0000 && i0 <= |buf| && c0 == Register(start, buf[..i0])
    ensures i == |buf| && c == Register(start, buf[..i])
  {
    hide TablesOk, Register, Feed;
    c, i := c0, i0;
    while i < |buf|
      invariant i0 <= i <= |buf| && c == Register(start, buf[..i])
    {
      RegisterFits(start, buf[..i]);
      RegisterOn(start, buf, i);
      c := FeedByte(t, c, buf[i]);
      i := i + 1;
    }
  }

  // ---- crc32_little

  /** The four bytes at i as a word, lowest first. */
  function Load(buf: seq<byte>, i: nat): nat
    requires i + 4 <= |buf|
  {
    Pack(buf[i], buf[i + 1], buf[i + 2], buf[i + 3])
  }

  /** DOLIT4 */
  method FeedWord(t: array2<nat>, c: nat, buf: seq<byte>, i: nat, ghost start: nat) returns (c': nat)
    requires TablesOk(t) && start < 0x1_0000_0000 && i + 4 <= |buf| && c == Register(start, buf[..i])
    ensures c' == Register(start, buf[..i + 4])
  {
    hide Xor, Zeros, Swap, Register, Pack;
    RegisterFits(start, buf[..i]);
    Bytes(buf[i], buf[i + 1], buf[i + 2], buf[i + 3]);
    RegisterFour(start, buf, i);
    var x := Xor(c, Load(buf, i));
    XorFits(c, Load(buf, i));
    FourOut(x);
    c' := Xor(Xor(Xor(t[3, x % 256], t[2, x / 0x100 % 256]), t[1, x / 0x1_0000 % 256]), t[0, x / 0x100_0000]);
  }

  lemma XorFits(a: nat, b: nat)
    requires a < 0x1_0000_0000 && b < 0x1_0000_0000
    ensures Xor(a, b) < 0x1_0000_0000
  {
    hide Xor;
    WordIs();
    XorBound(a, b, 32);
  }

  /** Bytes up to a word boundary (align is the address of the buffer modulo 4), words, eight to a turn
      and then one, and the bytes that are left. */
  method Little(t: array2<nat>, crc: nat, buf: seq<byte>, align: nat) returns (r: nat)
    requires TablesOk(t) && crc < 0x1_0000_0000
    ensures r == Crc32(crc, buf)
  {
    hide TablesOk, Register, Feed, Not;
    NotFits(crc);
    ghost var start := Not(crc);
    var c, i := Not(crc), 0;
    assert buf[..0] == [];
    NoBytes(start);
    while i < |buf| && (align + i) % 4 != 0
      invariant 0 <= i <= |buf| && c == Register(start, buf[..i])
    {
      RegisterFits(start, buf[..i]);
      RegisterOn(start, buf, i);
      c := FeedByte(t, c, buf[i]);
      i := i + 1;
    }
    while |buf| - i >= 32
      invariant 0 <= i <= |buf| && c == Register(start, buf[..i])
      decreases |buf| - i
    {
      ghost var from := i;
      for k := 0 to 8
        invariant i == from + 4 * k && c == Register(start, buf[..i])
      {
        c := FeedWord(t, c, buf, i, start);
        i := i + 4;
      }
    }
    while |buf| - i >= 4
      invariant 0 <= i <= |buf| && c == Register(start, buf[..i])
      decreases |buf| - i
    {
      c := FeedWord(t, c, buf, i, start);
      i := i + 4;
    }
    c, i := Rest(t, c, buf, i, start);
    assert buf[..|buf|] == buf;
    r := Not(c);
    assert r == Crc32(crc, buf) by { CrcIs(crc, buf); }
  }

  lemma CrcIs(crc: nat, buf: seq<byte>)
    ensures Crc32(crc, buf) == Not(Register(Not(crc), buf))
  {}

  // ---- crc32_big: the register is the byte reversal of the little-endian one throughout

  lemma SwapBytes(l: nat)
    requires l < 0x1_0000_0000
    ensures var c := Swap(l);
            && c < 0x1_0000_0000 && c / 0x100_0000 == l % 256 && 256 * c % 0x1_0000_0000 == Swap(l / 256)
            && Byte(c, 0) == l / 0x100_0000 && Byte(c, 1) == Byte(l, 2) && Byte(c, 2) == Byte(l, 1) && Byte(c, 3) == Byte(l, 0)
  {
    hide Pack, Byte;
    var l0, l1, l2, l3 := Byte(l, 0), Byte(l, 1), Byte(l, 2), Byte(l, 3);
    Unpack(l);
    Bytes(l0, l1, l2, l3);
    Bytes(l3, l2, l1, l0);
    Bytes(l1, l2, l3, 0);
    PackUp(l3, l2, l1, l0);
    LowestByte(l);
  }

  lemma LowestByte(l: nat)
    ensures Byte(l, 0) == l % 256
  {}

  lemma PackUp(b0: nat, b1: nat, b2: nat, b3: nat)
    requires b0 < 256 && b1 < 256 && b2 < 256 && b3 < 256
    ensures 256 * Pack(b0, b1, b2, b3) % 0x1_0000_0000 == Pack(0, b0, b1, b2)
  {
    var low := Pack(0, b0, b1, b2);
    assert 256 * Pack(b0, b1, b2, b3) == low + 0x1_0000_0000 * b3;
  }

  method FeedByteBig(t: array2<nat>, c: nat, b: byte, ghost l: nat) returns (c': nat)
    requires TablesOk(t) && l < 0x1_0000_0000 && c == Swap(l)
    ensures c' == Swap(Feed(l, b))
  {
    hide Xor, Zeros, Swap, Byte;
    SwapBytes(l);
    XorLowByte(l, b);
    ghost var x := Xor(l, b);
    ByteOut(x, 0);
    ZerosAtOnce(x / 256);
    ZerosFit(x % 256, 8);
    SwapXor(Zeros(x % 256, 8), l / 256);
    c' := Xor(t[4, Xor(c / 0x100_0000, b)], 256 * c % 0x1_0000_0000);
  }

  lemma ZerosFit(c: nat, n: nat)
    requires c < 0x1_0000_0000
    ensures Zeros(c, n) < 0x1_0000_0000
  {
    hide Zeros;
    WordIs();
    ZerosWord(c, n);
  }

  /** The four bytes at i as a word, lowest last. */
  function LoadBig(buf: seq<byte>, i: nat): nat
    requires i + 4 <= |buf|
  {
    Pack(buf[i + 3], buf[i + 2], buf[i + 1], buf[i])
  }

  /** DOBIG4 */
  method FeedWordBig(t: array2<nat>, c: nat, buf: seq<byte>, i: nat, ghost start: nat) returns (c': nat)
    requires TablesOk(t) && start < 0x1_0000_0000 && i + 4 <= |buf| && c == Swap(Register(start, buf[..i]))
    ensures c' == Swap(Register(start, buf[..i + 4]))
  {
    hide Xor, Zeros, Register, Pack, Byte;
    ghost var l := Register(start, buf[..i]);
    RegisterFits(start, buf[..i]);
    RegisterFour(start, buf, i);
    Bytes(buf[i], buf[i + 1], buf[i + 2], buf[i + 3]);
    ghost var x := Xor(l, Load(buf, i));
    XorFits(l, Load(buf, i));
    SwapXor(l, Load(buf, i));
    SwapBytes(x);
    var y := Xor(c, LoadBig(buf, i));
    assert y == Swap(x);
    c' := LookUpBig(t, y, x);
    FourOut(x);
  }

  method LookUpBig(t: array2<nat>, y: nat, ghost x: nat) returns (c': nat)
    requires TablesOk(t) && x < 0x1_0000_0000 && y == Swap(x)
    ensures c' == Swap(Zeros(x, 32))
  {
    hide Xor, Zeros, Swap, Byte;
    SwapBytes(x);
    FourOut(x);
    ghost var z0, z1, z2, z3 := Zeros(Byte(x, 0), 32), Zeros(Byte(x, 1), 24), Zeros(Byte(x, 2), 16), Zeros(x / 0x100_0000, 8);
    ZerosFit(Byte(x, 0), 32);
    ZerosFit(Byte(x, 1), 24);
    ZerosFit(Byte(x, 2), 16);
    ZerosFit(x / 0x100_0000, 8);
    SwapSum(z0, z1, z2, z3);
    SameBytes(y);
    c' := Xor(Xor(Xor(t[4, y % 256], t[5, y / 0x100 % 256]), t[6, y / 0x1_0000 % 256]), t[7, y / 0x100_0000]);
  }

  lemma SameBytes(y: nat)
    requires y < 0x1_0000_0000
    ensures Byte(y, 0) == y % 256 && Byte(y, 1) == y / 0x100 % 256 && Byte(y, 2) == y / 0x1_0000 % 256 && Byte(y, 3) == y / 0x100_0000
  {}

  /** The sum of four words, reversed, in the other order. */
  lemma SwapSum(z0: nat, z1: nat, z2: nat, z3: nat)
    requires z0 < 0x1_0000_0000 && z1 < 0x1_0000_0000 && z2 < 0x1_0000_0000 && z3 < 0x1_0000_0000
    ensures Swap(Xor(Xor(Xor(z0, z1), z2), z3)) == Xor(Xor(Xor(Swap(z3), Swap(z2)), Swap(z1)), Swap(z0))
  {
    hide Xor, Swap;
    XorFits(z3, z2);
    XorFits(Xor(z3, z2), z1);
    SwapXor(z3, z2);
    SwapXor(Xor(z3, z2), z1);
    SwapXor(Xor(Xor(z3, z2), z1), z0);
    XorComm(z3, z2);
    XorComm(Xor(z2, z3), z1);
    XorComm(Xor(z1, Xor(z2, z3)), z0);
    XorAssoc(Xor(z0, z1), z2, z3);
    XorAssoc(z0, z1, Xor(z2, z3));
  }

  lemma SwapNot(c: nat)
    requires c < 0x1_0000_0000
    ensures Not(Swap(c)) == Swap(Not(c))
  {
    hide Xor, Swap;
    SwapXor(0xffff_ffff, c);
    SwapOnes();
  }

  lemma SwapOnes()
    ensures Swap(0xffff_ffff) == 0xffff_ffff
  {
    hide Byte;
    assert Pack(255, 255, 255, 255) == 0xffff_ffff;
    Bytes(255, 255, 255, 255);
  }

  method Big(t: array2<nat>, crc: nat, buf: seq<byte>, align: nat) returns (r: nat)
    requires TablesOk(t) && crc < 0x1_0000_0000
    ensures r == Crc32(crc, buf)
  {
    hide TablesOk, Register, Feed, Not, Swap;
    NotFits(crc);
    ghost var start := Not(crc);
    SwapNot(crc);
    var c, i := Not(Swap(crc)), 0;
    assert buf[..0] == [];
    NoBytes(start);
    c, i := BytesBig(t, c, buf, i, true, align, start);
    while |buf| - i >= 32
      invariant 0 <= i <= |buf| && c == Swap(Register(start, buf[..i]))
      decreases |buf| - i
    {
      ghost var from := i;
      for k := 0 to 8
        invariant i == from + 4 * k && c == Swap(Register(start, buf[..i]))
      {
        c := FeedWordBig(t, c, buf, i, start);
        i := i + 4;
      }
    }
    while |buf| - i >= 4
      invariant 0 <= i <= |buf| && c == Swap(Register(start, buf[..i]))
      decreases |buf| - i
    {
      c := FeedWordBig(t, c, buf, i, start);
      i := i + 4;
    }
    c, i := BytesBig(t, c, buf, i, false, align, start);
    assert buf[..|buf|] == buf;
    RegisterFits(start, buf);
    SwapNot(Register(start, buf));
    NotFits(Register(start, buf));
    SwapSwap(Not(Register(start, buf)));
    r := Swap(Not(c));
    assert r == Crc32(crc, buf) by { CrcIs(crc, buf); }
  }

  /** Single bytes: up to a word boundary, or all that are left. */
  method BytesBig(t: array2<nat>, c0: nat, buf: seq<byte>, i0: nat, toWord: bool, align: nat, ghost start: nat)
    returns (c: nat, i: nat)
    requires TablesOk(t) && start < 0x1_0000_0000 && i0 <= |buf| && c0 == Swap(Register(start, buf[..i0]))
    ensures i0 <= i <= |buf| && c == Swap(Register(start, buf[..i])) && (i == |buf| || toWord)
  {
    hide TablesOk, Register, Feed, Swap;
    c, i := c0, i0;
    while i < |buf| && (!toWord || (align + i) % 4 != 0)
      invariant i0 <= i <= |buf| && c == Swap(Register(start, buf[..i]))
    {
      RegisterFits(start, buf[..i]);
      RegisterOn(start, buf, i);
      c := FeedByteBig(t, c, buf[i], Register(start, buf[..i]));
      i := i + 1;
    }
  }

  lemma CrcFits(crc: nat, buf: seq<byte>)
    requires crc < 0x1_0000_0000
    ensures Crc32(crc, buf) < 0x1_0000_0000
  {
    hide Not, Register;
    NotFits(crc);
    RegisterFits(Not(crc), buf);
    NotFits(Register(Not(crc), buf));
  }

  lemma CrcNone()
    ensures Crc32(0, []) == 0
  {
    hide Xor;
    XorTwice(0, 0xffff_ffff);
  }

  /** The loop of zlib.h: one call after another, each with the CRC so far. */
  method Running(t: array2<nat>, chunks: seq<seq<byte>>, aligns: seq<nat>) returns (crc: nat)
    requires TablesOk(t) && |aligns| == |chunks|
    ensures crc == Crc32(0, Concat(chunks))
  {
    hide TablesOk, Crc32, Concat;
    crc := 0;
    ConcatNone(chunks);
    CrcNone();
    for i := 0 to |chunks|
      invariant crc < 0x1_0000_0000 && crc == Crc32(0, Concat(chunks[..i]))
    {
      CrcJoin(0, Concat(chunks[..i]), chunks[i]);
      ConcatMore(chunks, i);
      crc := Little(t, crc, chunks[i], aligns[i]);
      CrcFits(0, Concat(chunks[..i + 1]));
    }
    assert chunks[..|chunks|] == chunks;
  }
}
