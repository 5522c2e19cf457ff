/** crc32_combine: zeros operators as 32 by 32 matrices over GF(2), squared in turn. */
module CrcCombine {
  import opened Bits
  import opened Gf2
  import opened BitStream
  import opened Crc

  const GF2_DIM: nat := 32

  /** The sum of the rows from i on that the bits of vec pick. */
  function TimesFrom(mat: seq<nat>, i: nat, vec: nat): nat
    decreases |mat| - i
  {
    if i >= |mat| || vec == 0 then 0
    else Xor(if vec % 2 == 1 then mat[i] else 0, TimesFrom(mat, i + 1, vec / 2))
  }

  /** The matrix of the operator that shifts in n zero bits. */
  ghost predicate Represents(mat: seq<nat>, n: nat)
  {
    |mat| == GF2_DIM && forall i: nat :: i < GF2_DIM ==> mat[i] == Zeros(Pow2(i), n)
  }

  lemma {:induction false} TimesIs(mat: seq<nat>, n: nat, i: nat, vec: nat)
    requires Represents(mat, n) && i <= GF2_DIM && vec < Pow2(GF2_DIM - i)
    ensures TimesFrom(mat, i, vec) == Zeros(Shl(vec, i), n)
    decreases GF2_DIM - i
  {
    hide Xor, Zeros, Pow2, Shl;
    if vec == 0 {
      ShlZeroOne(i);
      ZerosOfZero(n);
    } else if i < GF2_DIM {
      PowerAt(i);
      TimesIs(mat, n, i + 1, vec / 2);
      VecParts(vec, i);
      ZerosXor(Shl(vec % 2, i), Shl(vec / 2, i + 1), n);
      ShlZeroOne(i);
      ZerosOfZero(n);
    } else {
      PowerNone();
    }
  }

  lemma PowerNone()
    ensures Pow2(0) == 1
  {}

  lemma PowerAt(i: nat)
    requires i < GF2_DIM
    ensures Pow2(GF2_DIM - i) == 2 * Pow2(GF2_DIM - (i + 1))
  {}

  lemma VecParts(vec: nat, i: nat)
    ensures Shl(vec, i) == Xor(Shl(vec % 2, i), Shl(vec / 2, i + 1))
  {
    hide Xor;
    XorDisjoint(vec % 2, vec / 2, 1);
    assert Pow2(1) == 2 && Shl(vec / 2, 1) == 2 * (vec / 2);
    ShlXor(vec % 2, Shl(vec / 2, 1), i);
    ShlShl(vec / 2, 1, i);
  }

  /** gf2_matrix_times */
  method MatrixTimes(mat: array<nat>, vec: nat) returns (sum: nat)
    requires mat.Length == GF2_DIM && Word(vec)
    ensures sum == TimesFrom(mat[..], 0, vec)
  {
    hide Xor, Pow2;
    sum := 0;
    var v, i := vec, 0;
    XorZero(TimesFrom(mat[..], 0, vec));
    while v != 0
      invariant 0 <= i <= GF2_DIM && 0 <= v < Pow2(GF2_DIM - i)
      invariant Xor(sum, TimesFrom(mat[..], i, v)) == TimesFrom(mat[..], 0, vec)
      decreases v
    {
      if i == GF2_DIM {
        PowerNone();
      }
      PowerAt(i);
      ghost var row, rest := if v % 2 == 1 then mat[i] else 0, TimesFrom(mat[..], i + 1, v / 2);
      XorAssoc(sum, row, rest);
      XorZero(sum);
      if v % 2 == 1 {
        sum := Xor(sum, mat[i]);
      }
      v := v / 2;
      i := i + 1;
    }
    XorZero(sum);
  }

  /** gf2_matrix_times applies the operator. */
  method Apply(mat: array<nat>, vec: nat, ghost n: nat) returns (sum: nat)
    requires Represents(mat[..], n) && Word(vec)
    ensures sum == Zeros(vec, n) && Word(sum)
  {
    hide Zeros, TimesFrom, Pow2;
    sum := MatrixTimes(mat, vec);
    TimesIs(mat[..], n, 0, vec);
    assert Shl(vec, 0) == vec;
    ZerosWord(vec, n);
  }

  /** gf2_matrix_square: the operator twice. */
  method MatrixSquare(square: array<nat>, mat: array<nat>, ghost n: nat)
    requires square != mat && square.Length == GF2_DIM && Represents(mat[..], n)
    modifies square
    ensures Represents(square[..], 2 * n)
  {
    hide Zeros, Pow2;
    for k := 0 to GF2_DIM
      invariant forall i: nat :: i < k ==> square[i] == Zeros(Pow2(i), 2 * n)
    {
      assert mat[..][k] == Zeros(Pow2(k), n);
      Pow2Mono(k + 1, 32);
      Pow2Mono(k, k + 1);
      ZerosWord(Pow2(k), n);
      square[k] := Apply(mat, mat[k], n);
      ZerosAdd(Pow2(k), n, n);
    }
  }

  /** The operator for one zero bit. */
  method OneZero(odd: array<nat>)
    requires odd.Length == GF2_DIM
    modifies odd
    ensures Represents(odd[..], 1)
  {
    hide Pow2, Xor;
    odd[0] := POLY;
    var row := 1;
    FirstRow();
    for n := 1 to GF2_DIM
      invariant row == Pow2(n - 1)
      invariant forall i: nat :: i < n ==> odd[i] == Zeros(Pow2(i), 1)
    {
      NextRow(n);
      odd[n] := row;
      row := 2 * row;
    }
  }

  lemma FirstRow()
    ensures Pow2(0) == 1 && Zeros(1, 1) == POLY
  {
    XorZero(POLY);
    assert Zeros(1, 1) == ZeroBit(1);
  }

  lemma NextRow(n: nat)
    requires 1 <= n
    ensures Pow2(n) == 2 * Pow2(n - 1) && Zeros(Pow2(n), 1) == Pow2(n - 1)
  {
    assert Zeros(Pow2(n), 1) == ZeroBit(Pow2(n));
  }

  /** One bit of the length: apply the operator if it is set. */
  method ApplyBit(mat: array<nat>, crc: nat, len: nat, ghost e: nat) returns (crc': nat)
    requires Represents(mat[..], e) && Word(crc)
    ensures Word(crc') && Zeros(crc', Product(2 * e, len / 2)) == Zeros(crc, Product(e, len))
  {
    hide Zeros, Represents, Word, Product;
    BitOfLength(e, len);
    if len % 2 == 1 {
      crc' := Apply(mat, crc, e);
      ZerosAdd(crc, e, Product(2 * e, len / 2));
    } else {
      crc' := crc;
    }
  }

  /** e zero bits, len times. */
  function Product(e: nat, len: nat): nat
  {
    e * len
  }

  lemma BitOfLength(e: nat, len: nat)
    ensures Product(e, len) == (if len % 2 == 1 then e else 0) + Product(2 * e, len / 2)
  {
    var h := len / 2;
    assert len == len % 2 + 2 * h;
    Halved(e, h, len % 2);
  }

  lemma Halved(e: nat, h: nat, r: nat)
    requires r < 2
    ensures e * (r + 2 * h) == (if r == 1 then e else 0) + (2 * e) * h
  {
    assert e * (2 * h) == (2 * e) * h;
  }

  /** crc32_combine_ shifts in eight zero bits for each byte of the second part. */
  method CombineZeros(crc1: nat, crc2: nat, len2: int) returns (crc: nat)
    requires Word(crc1)
    ensures len2 <= 0 ==> crc == crc1
    ensures len2 > 0 ==> crc == Xor(Zeros(crc1, 8 * len2), crc2)
  {
    hide Zeros, Represents, Word, Xor, Product;
    if len2 <= 0 {
      return crc1;
    }
    var even, odd := new nat[GF2_DIM], new nat[GF2_DIM];
    OneZero(odd);
    MatrixSquare(even, odd, 1);
    MatrixSquare(odd, even, 2);
    ghost var e := 4;
    var len := len2;
    crc := crc1;
    while true
      invariant 0 < len && 0 < e && Represents(odd[..], e) && even.Length == GF2_DIM && Word(crc)
      invariant Zeros(crc, Product(2 * e, len)) == Zeros(crc1, Product(8, len2))
      decreases len
    {
      RowsOf(odd[..], e);
      MatrixSquare(even, odd, e);
      crc := ApplyBit(even, crc, len, 2 * e);
      len := len / 2;
      if len == 0 {
        break;
      }
      MatrixSquare(odd, even, 2 * e);
      crc := ApplyBit(odd, crc, len, 4 * e);
      e := 4 * e;
      len := len / 2;
      if len == 0 {
        break;
      }
    }
    ProductIs(2 * e, len2);
    ZerosAtOnce(crc);
    crc := Xor(crc, crc2);
  }

  lemma ProductIs(e: nat, len: nat)
    ensures Product(e, 0) == 0 && Product(2 * e, 0) == 0 && Product(8, len) == 8 * len
  {}

  lemma RowsOf(mat: seq<nat>, n: nat)
    requires Represents(mat, n)
    ensures |mat| == GF2_DIM
  {}

  /** crc32_combine gives the CRC of the concatenation. */
  method Combine(crc1: nat, crc2: nat, len2: int, ghost a: seq<byte>, ghost b: seq<byte>) returns (crc: nat)
    requires crc1 == Crc32(0, a) && crc2 == Crc32(0, b) && len2 == |b|
    ensures crc == Crc32(0, a + b)
  {
    hide Zeros, Register, Xor, Word;
    CrcWord(a);
    crc := CombineZeros(crc1, crc2, len2);
    CrcCombines(a, b);
    if b == [] {
      assert a + b == a;
    }
  }

  lemma CrcWord(a: seq<byte>)
    ensures Word(Crc32(0, a))
  {
    hide Xor, Word;
    PolyFits();
    XorZero(0xffff_ffff);
    RegisterWord(Not(0), a);
    NotWord(Register(Not(0), a));
  }
}
