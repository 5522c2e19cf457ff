/** The numbers of Java: int and long wrap, and division truncates. */
module JavaArithmetic {

  const MAX_INT := 0x7fff_ffff

  /** The int a result wraps to. */
  function Int(x: int): (r: int)
    ensures -0x8000_0000 <= r <= 0x7fff_ffff
    ensures -0x8000_0000 <= x <= 0x7fff_ffff ==> r == x
  {
    (x + 0x8000_0000) % 0x1_0000_0000 - 0x8000_0000
  }

  /** The long a result wraps to. */
  function Long(x: int): (r: int)
    ensures -0x8000_0000_0000_0000 <= r <= 0x7fff_ffff_ffff_ffff
    ensures -0x8000_0000_0000_0000 <= x <= 0x7fff_ffff_ffff_ffff ==> r == x
  {
    (x + 0x8000_0000_0000_0000) % 0x1_0000_0000_0000_0000 - 0x8000_0000_0000_0000
  }

  /** x / y for a positive y. */
  function Quotient(x: int, y: nat): int
    requires 0 < y
  {
    if x < 0 then -(-x / y) else x / y
  }

  /** One and a half turns of the wheel. */
  lemma Wrapped(x: int)
    requires 0 <= x < 0x2_0000_0000
    ensures Int(x) == if x < 0x8000_0000 then x else if x < 0x1_8000_0000 then x - 0x1_0000_0000 else x - 0x2_0000_0000
  {}
}
