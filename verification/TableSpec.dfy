/**
 What inflate_table promises: the entry for each symbol, what it means for a
 two-level table to decode a code, and how large that table is.
 Entry offsets are relative to the start of the table.
 */
module TableSpec {
  import opened Bits
  import opened Huffman

  datatype CodeType = CODES | LENS | DISTS

  /** One table entry: operation, bits to drop, and a value or an offset. */
  datatype Code = Code(op: nat, bits: nat, val: nat)

  const ENOUGH_LENS: nat := 852
  const ENOUGH_DISTS: nat := 592

  const LengthBase: seq<nat> := [
    3, 4, 5, 6, 7, 8, 9, 10, 11, 13, 15, 17, 19, 23, 27, 31,
    35, 43, 51, 59, 67, 83, 99, 115, 131, 163, 195, 227, 258, 0, 0]
  const LengthExtra: seq<nat> := [
    16, 16, 16, 16, 16, 16, 16, 16, 17, 17, 17, 17, 18, 18, 18, 18,
    19, 19, 19, 19, 20, 20, 20, 20, 21, 21, 21, 21, 16, 77, 202]
  const DistBase: seq<nat> := [
    1, 2, 3, 4, 5, 7, 9, 13, 17, 25, 33, 49, 65, 97, 129, 193,
    257, 385, 513, 769, 1025, 1537, 2049, 3073, 4097, 6145,
    8193, 12289, 16385, 24577, 0, 0]
  const DistExtra: seq<nat> := [
    16, 16, 16, 16, 17, 17, 18, 18, 19, 19, 20, 20, 21, 21, 22, 22,
    23, 23, 24, 24, 25, 25, 26, 26, 27, 27, 28, 28, 29, 29, 64, 64]

  /** How many symbols a code of each type may have: what the base and extra tables cover. */
  function MaxCodes(typ: CodeType): nat
  {
    match typ
    case CODES => 19
    case LENS => 288
    case DISTS => 32
  }

  predicate CodesOk(typ: CodeType, lens: seq<nat>)
  {
    |lens| <= MaxCodes(typ) && LengthsOk(lens)
  }

  /** The entry that decodes symbol s after bits bits. */
  function Leaf(typ: CodeType, s: nat, bits: nat): (e: Code)
    requires s < MaxCodes(typ)
    ensures !IsLink(e)
  {
    match typ
    case CODES => Code(0, bits, s)
    case LENS =>
      if s < 256 then Code(0, bits, s)
      else if s == 256 then Code(32 + 64, bits, 0)
      else Code(LengthExtra[s - 257], bits, LengthBase[s - 257])
    case DISTS => Code(DistExtra[s], bits, DistBase[s])
  }

  const InvalidCode: Code := Code(64, 1, 0)

  /** op values 1..15 link a root entry to a sub-table with that many index bits. */
  predicate IsLink(e: Code)
  {
    0 < e.op < 16
  }

  /** Looking up the low bits of x ends at the given leaf; a link followed on the way
      leads to a sub-table that ends at or below lim. */
  predicate Resolves(t: seq<Code>, start: nat, root: nat, x: nat, leaf: Code, lim: nat)
  {
    start + Low(x, root) < |t| &&
    var e := t[start + Low(x, root)];
    if IsLink(e) then
      var j := start + e.val + Low(Shr(x, root), e.op);
      && e.bits == root < leaf.bits
      && e.op <= MAXBITS - root
      && Pow2(root) <= e.val
      && e.val + Pow2(e.op) <= lim
      && j < |t|
      && t[j] == leaf.(bits := leaf.bits - root)
    else
      e == leaf
  }

  /** The table at start decodes the code: each symbol wherever its codeword is in front,
      and the invalid code marker where no codeword can be. */
  ghost predicate Decodes(t: seq<Code>, start: nat, root: nat, typ: CodeType, lens: seq<nat>, size: nat)
    requires CodesOk(typ, lens)
  {
    && (forall s: nat, x: nat :: IsSym(lens, s) && Starts(lens, s, x) ==>
          Resolves(t, start, root, x, Leaf(typ, s, lens[s]), size))
    && (forall x: nat :: Kraft(lens) <= Rev(MAXBITS, x) ==>
          Resolves(t, start, root, x, InvalidCode, size))
  }

  // ---- sizes

  function MaxLen(lens: seq<nat>, m: nat): (r: nat)
    ensures r <= m
  {
    if m == 0 then 0 else if Count(lens, m) != 0 then m else MaxLen(lens, m - 1)
  }

  function MinLen(lens: seq<nat>, m: nat, max: nat): (r: nat)
    ensures m <= max ==> m <= r <= max
    decreases max - m
  {
    if m >= max || Count(lens, m) != 0 then m else MinLen(lens, m + 1, max)
  }

  /** The index bits of the root table: the request, forced to be within the code lengths. */
  function RootBits(lens: seq<nat>, bits: nat): (r: nat)
    ensures r <= MAXBITS
  {
    var max := MaxLen(lens, MAXBITS);
    if max == 0 then 1
    else
      var root := if bits > max then max else bits;
      var min := MinLen(lens, 1, max);
      if root < min then min else root
  }

  /** -1 is returned for every other set of lengths. */
  predicate Acceptable(typ: CodeType, lens: seq<nat>)
  {
    || Kraft(lens) == Pow2(MAXBITS)
    || Kraft(lens) == 0
    || (Kraft(lens) < Pow2(MAXBITS) && typ != CODES && MaxLen(lens, MAXBITS) == 1)
  }

  /** The root slot, first bit on top, under which the codeword of s lies. */
  function SlotOf(lens: seq<nat>, root: nat, s: nat): nat
    requires IsSym(lens, s) && root <= MAXBITS
  {
    Shr(Lo(lens, s), MAXBITS - root)
  }

  predicate Under(lens: seq<nat>, root: nat, u: nat, s: nat)
    requires root <= MAXBITS
  {
    IsSym(lens, s) && root < lens[s] && SlotOf(lens, root, s) == u
  }

  /** The longest codeword among symbols below n that continues past root slot u; zero if none does. */
  function Deepest(lens: seq<nat>, root: nat, u: nat, n: nat): nat
    requires root <= MAXBITS
  {
    if n == 0 then 0
    else
      var d := Deepest(lens, root, u, n - 1);
      if Under(lens, root, u, n - 1) && d < lens[n - 1] then lens[n - 1] else d
  }

  /** Slot u needs a sub-table just wide enough for its longest codeword. */
  function SubSize(lens: seq<nat>, root: nat, u: nat): nat
    requires root <= MAXBITS
  {
    var d := Deepest(lens, root, u, |lens|);
    if d <= root then 0 else Pow2(d - root)
  }

  function SubSizes(lens: seq<nat>, root: nat, m: nat): nat
    requires root <= MAXBITS
  {
    if m == 0 then 0 else SubSizes(lens, root, m - 1) + SubSize(lens, root, m - 1)
  }

  function TableSize(lens: seq<nat>, root: nat): nat
    requires root <= MAXBITS
  {
    Pow2(root) + SubSizes(lens, root, Pow2(root))
  }

  predicate TooBig(typ: CodeType, used: nat)
  {
    (typ == LENS && used > ENOUGH_LENS) || (typ == DISTS && used > ENOUGH_DISTS)
  }

  lemma {:induction false} DeepestIs(lens: seq<nat>, root: nat, u: nat, n: nat)
    requires root <= MAXBITS
    ensures forall s: nat :: s < n && Under(lens, root, u, s) ==> lens[s] <= Deepest(lens, root, u, n)
    ensures Deepest(lens, root, u, n) == 0
         || exists s: nat :: s < n && Under(lens, root, u, s) && lens[s] == Deepest(lens, root, u, n)
  {
    if n != 0 {
      DeepestIs(lens, root, u, n - 1);
    }
  }

  lemma {:induction false} SubSizesMono(lens: seq<nat>, root: nat, a: nat, b: nat)
    requires root <= MAXBITS && a <= b
    ensures SubSizes(lens, root, a) <= SubSizes(lens, root, b)
  {
    if a < b {
      SubSizesMono(lens, root, a, b - 1);
    }
  }

  /** Slots under which no codeword continues cost nothing. */
  lemma {:induction false} NoSubTables(lens: seq<nat>, root: nat, m: nat)
    requires root <= MAXBITS
    requires forall s: nat :: IsSym(lens, s) && root < lens[s] ==> m <= SlotOf(lens, root, s)
    ensures SubSizes(lens, root, m) == 0
  {
    if m != 0 {
      NoSubTables(lens, root, m - 1);
      DeepestIs(lens, root, m - 1, |lens|);
    }
  }

  lemma {:induction false} MaxLenIs(lens: seq<nat>, m: nat)
    ensures MaxLen(lens, m) == 0 || Count(lens, MaxLen(lens, m)) != 0
    ensures forall l :: MaxLen(lens, m) < l <= m ==> Count(lens, l) == 0
  {
    if m != 0 {
      MaxLenIs(lens, m - 1);
    }
  }

  lemma {:induction false} MinLenIs(lens: seq<nat>, m: nat, max: nat)
    requires 1 <= m <= max
    ensures forall l :: m <= l < MinLen(lens, m, max) ==> Count(lens, l) == 0
    ensures Count(lens, max) != 0 ==> Count(lens, MinLen(lens, m, max)) != 0
    decreases max - m
  {
    if m < max && Count(lens, m) == 0 {
      MinLenIs(lens, m + 1, max);
    }
  }

  lemma SymLenBounds(lens: seq<nat>, s: nat)
    requires LengthsOk(lens) && IsSym(lens, s)
    ensures 1 <= MinLen(lens, 1, MaxLen(lens, MAXBITS)) <= lens[s] <= MaxLen(lens, MAXBITS) <= MAXBITS
  {
    RankBelowCount(lens, s);
    MaxLenIs(lens, MAXBITS);
    MinLenIs(lens, 1, MaxLen(lens, MAXBITS));
  }
}
