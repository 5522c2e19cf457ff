/** The round functions of QAESEncryption, which change the state in place. */
module AesState {
  import opened BitStream
  import opened AesCipher

  method AddRoundKeyTo(state: array<byte>, round: nat, expKey: seq<byte>)
    requires state.Length == 16 && 16 * round + 16 <= |expKey|
    modifies state
    ensures state[..] == AddRoundKey(old(state[..]), RoundKey(expKey, round))
  {
    hide Add;
    ghost var s := state[..];
    for i := 0 to 16
      invariant forall k :: 0 <= k < i ==> state[k] == Add(s[k], RoundKey(expKey, round)[k])
      invariant forall k :: i <= k < 16 ==> state[k] == s[k]
    {
      state[i] := Add(state[i], expKey[round * 16 + i / 4 * 4 + i % 4]);
    }
  }

  method SubBytesOf(state: array<byte>)
    requires state.Length == 16
    modifies state
    ensures state[..] == SubBytes(old(state[..]))
  {
    hide SBoxValue;
    ghost var s := state[..];
    for i := 0 to 16
      invariant forall k :: 0 <= k < i ==> state[k] == SBoxValue(s[k])
      invariant forall k :: i <= k < 16 ==> state[k] == s[k]
    {
      state[i] := SBoxValue(state[i]);
    }
  }

  method InvSubBytesOf(state: array<byte>)
    requires state.Length == 16
    modifies state
    ensures state[..] == InvSubBytes(old(state[..]))
  {
    hide SBoxInvert;
    ghost var s := state[..];
    for i := 0 to 16
      invariant forall k :: 0 <= k < i ==> state[k] == SBoxInvert(s[k])
      invariant forall k :: i <= k < 16 ==> state[k] == s[k]
    {
      state[i] := SBoxInvert(state[i]);
    }
  }

  /** temp = it[a]; it[a] = it[b]; it[b] = it[c]; it[c] = it[d]; it[d] = temp */
  method Rotate(state: array<byte>, a: nat, b: nat, c: nat, d: nat)
    requires state.Length == 16 && a < 16 && b < 16 && c < 16 && d < 16
    requires a != b && a != c && a != d && b != c && b != d && c != d
    modifies state
    ensures var s := old(state[..]); state[..] == s[a := s[b]][b := s[c]][c := s[d]][d := s[a]]
  {
    var temp := state[a];
    state[a] := state[b];
    state[b] := state[c];
    state[c] := state[d];
    state[d] := temp;
  }

  /** temp = it[a]; it[a] = it[b]; it[b] = temp */
  method Exchange(state: array<byte>, a: nat, b: nat)
    requires state.Length == 16 && a < 16 && b < 16 && a != b
    modifies state
    ensures var s := old(state[..]); state[..] == s[a := s[b]][b := s[a]]
  {
    var temp := state[a];
    state[a] := state[b];
    state[b] := temp;
  }

  /** Shift 1 to left, shift 2 to left, shift 3 to left. */
  method ShiftRowsOf(state: array<byte>)
    requires state.Length == 16
    modifies state
    ensures state[..] == ShiftRows(old(state[..]))
  {
    Rotate(state, 1, 5, 9, 13);
    Exchange(state, 2, 10);
    Exchange(state, 6, 14);
    Rotate(state, 3, 15, 11, 7);
  }

  /** Shift 1 to right, shift 2, shift 3. */
  method InvShiftRowsOf(state: array<byte>)
    requires state.Length == 16
    modifies state
    ensures state[..] == InvShiftRows(old(state[..]))
  {
    Rotate(state, 13, 9, 5, 1);
    Exchange(state, 10, 2);
    Exchange(state, 14, 6);
    Rotate(state, 7, 11, 15, 3);
  }

  /** One column of mixColumns: the first byte is kept aside for the last row. */
  method MixOne(state: array<byte>, i: nat)
    requires state.Length == 16 && i <= 12
    modifies state
    ensures state[..] == old(state[..i] + MixColumn(state[i], state[i + 1], state[i + 2], state[i + 3]) + state[i + 4..])
  {
    hide XTime, Add;
    ghost var s := state[..];
    var t := state[i];
    var tmp := Sum4(state[i], state[i + 1], state[i + 2], state[i + 3]);
    var tm := XTime(Add(state[i], state[i + 1]));
    state[i] := Sum3(state[i], tm, tmp);
    tm := XTime(Add(state[i + 1], state[i + 2]));
    state[i + 1] := Sum3(state[i + 1], tm, tmp);
    tm := XTime(Add(state[i + 2], state[i + 3]));
    state[i + 2] := Sum3(state[i + 2], tm, tmp);
    tm := XTime(Add(state[i + 3], t));
    state[i + 3] := Sum3(state[i + 3], tm, tmp);
    assert state[..] == s[..i] + MixColumn(s[i], s[i + 1], s[i + 2], s[i + 3]) + s[i + 4..];
  }

  method MixColumnsOf(state: array<byte>)
    requires state.Length == 16
    modifies state
    ensures state[..] == MixColumns(old(state[..]))
  {
    hide MixColumn;
    ghost var s := state[..];
    MixOne(state, 0);
    MixOne(state, 4);
    MixOne(state, 8);
    MixOne(state, 12);
  }

  /** The rows as the source adds them up. */
  lemma RowOrder(a: byte, b: byte, c: byte, d: byte)
    ensures Sum4(Multiply(a, 0x09), Multiply(b, 0x0e), Multiply(c, 0x0b), Multiply(d, 0x0d)) == Unmixed(b, c, d, a)
    ensures Sum4(Multiply(a, 0x0d), Multiply(b, 0x09), Multiply(c, 0x0e), Multiply(d, 0x0b)) == Unmixed(c, d, a, b)
    ensures Sum4(Multiply(a, 0x0b), Multiply(b, 0x0d), Multiply(c, 0x09), Multiply(d, 0x0e)) == Unmixed(d, a, b, c)
  {
    hide Multiply, Sum4;
    Rotated(Multiply(a, 0x09), Multiply(b, 0x0e), Multiply(c, 0x0b), Multiply(d, 0x0d));
    Rotated(Multiply(a, 0x0d), Multiply(b, 0x09), Multiply(c, 0x0e), Multiply(d, 0x0b));
    Rotated(Multiply(b, 0x09), Multiply(c, 0x0e), Multiply(d, 0x0b), Multiply(a, 0x0d));
    Rotated(Multiply(a, 0x0b), Multiply(b, 0x0d), Multiply(c, 0x09), Multiply(d, 0x0e));
    Rotated(Multiply(b, 0x0d), Multiply(c, 0x09), Multiply(d, 0x0e), Multiply(a, 0x0b));
    Rotated(Multiply(c, 0x09), Multiply(d, 0x0e), Multiply(a, 0x0b), Multiply(b, 0x0d));
  }

  method UnmixOne(state: array<byte>, i: nat)
    requires state.Length == 16 && i <= 12
    modifies state
    ensures state[..] == old(state[..i] + UnmixColumn(state[i], state[i + 1], state[i + 2], state[i + 3]) + state[i + 4..])
  {
    hide Multiply, Sum4;
    ghost var s := state[..];
    var a, b, c, d := state[i], state[i + 1], state[i + 2], state[i + 3];
    RowOrder(a, b, c, d);
    state[i] := Sum4(Multiply(a, 0x0e), Multiply(b, 0x0b), Multiply(c, 0x0d), Multiply(d, 0x09));
    state[i + 1] := Sum4(Multiply(a, 0x09), Multiply(b, 0x0e), Multiply(c, 0x0b), Multiply(d, 0x0d));
    state[i + 2] := Sum4(Multiply(a, 0x0d), Multiply(b, 0x09), Multiply(c, 0x0e), Multiply(d, 0x0b));
    state[i + 3] := Sum4(Multiply(a, 0x0b), Multiply(b, 0x0d), Multiply(c, 0x09), Multiply(d, 0x0e));
    assert state[..] == s[..i] + UnmixColumn(a, b, c, d) + s[i + 4..];
  }

  method InvMixColumnsOf(state: array<byte>)
    requires state.Length == 16
    modifies state
    ensures state[..] == InvMixColumns(old(state[..]))
  {
    hide UnmixColumn;
    UnmixOne(state, 0);
    UnmixOne(state, 4);
    UnmixOne(state, 8);
    UnmixOne(state, 12);
  }

  /** cipher */
  method Encipher(expKey: seq<byte>, nr: nat, input: seq<byte>) returns (output: seq<byte>)
    requires Block(input) && 1 <= nr && 16 * nr + 16 <= |expKey|
    ensures output == Cipher(expKey, nr, input)
  {
    hide AddRoundKey, SubBytes, ShiftRows, MixColumns, RoundKey;
    var state := new byte[16](i requires 0 <= i < 16 => input[i]);
    assert state[..] == input;
    AddRoundKeyTo(state, 0, expKey);
    for round := 1 to nr
      invariant state[..] == Rounds(expKey, input, round - 1)
    {
      SubBytesOf(state);
      ShiftRowsOf(state);
      MixColumnsOf(state);
      AddRoundKeyTo(state, round, expKey);
    }
    SubBytesOf(state);
    ShiftRowsOf(state);
    AddRoundKeyTo(state, nr, expKey);
    output := state[..];
  }

  /** invCipher */
  method Decipher(expKey: seq<byte>, nr: nat, input: seq<byte>) returns (output: seq<byte>)
    requires Block(input) && 1 <= nr && 16 * nr + 16 <= |expKey|
    ensures output == InvCipher(expKey, nr, input)
  {
    hide AddRoundKey, InvSubBytes, InvShiftRows, InvMixColumns, RoundKey;
    var state := new byte[16](i requires 0 <= i < 16 => input[i]);
    assert state[..] == input;
    AddRoundKeyTo(state, nr, expKey);
    var round := nr - 1;
    while round > 0
      invariant 0 <= round < nr && state[..] == Unrounds(expKey, nr, input, round + 1)
    {
      InvShiftRowsOf(state);
      InvSubBytesOf(state);
      AddRoundKeyTo(state, round, expKey);
      InvMixColumnsOf(state);
      round := round - 1;
    }
    InvShiftRowsOf(state);
    InvSubBytesOf(state);
    AddRoundKeyTo(state, 0, expKey);
    output := state[..];
  }
}
