/** Divisors, the extended Euclidean algorithm and Fermat's little theorem. */
module Arith {

  function Times(a: int, b: int): int
  {
    a * b
  }

  /** a is a multiple of n. */
  ghost predicate Divides(n: int, a: int)
  {
    exists k: int :: Times(n, k) == a
  }

  lemma DividesBy(n: int, k: int)
    ensures Divides(n, n * k)
  {
    assert Times(n, k) == n * k;
  }

  lemma DividesSum(n: int, a: int, b: int)
    requires Divides(n, a) && Divides(n, b)
    ensures Divides(n, a + b) && Divides(n, a - b)
  {
    var k: int :| Times(n, k) == a;
    var l: int :| Times(n, l) == b;
    assert Times(n, k + l) == a + b && Times(n, k - l) == a - b;
  }

  lemma DividesTimes(n: int, a: int, b: int)
    requires Divides(n, a)
    ensures Divides(n, a * b)
  {
    var k: int :| Times(n, k) == a;
    assert Times(n, k * b) == a * b;
  }

  lemma DividesSmall(n: int, a: int)
    requires 0 <= a < n && Divides(n, a)
    ensures a == 0
  {
    var k: int :| Times(n, k) == a;
    TimesGrows(n, k);
  }

  lemma TimesGrows(n: nat, k: int)
    ensures 1 <= k ==> n <= n * k
    ensures k <= -1 ==> n * k + n <= 0
  {
    if 1 <= k {
      assert n * k == n + n * (k - 1);
    } else if k <= -1 {
      assert n * k == n * (k + 1) - n;
    }
  }

  lemma DividesZero(a: int)
    requires Divides(0, a)
    ensures a == 0
  {}

  // ---- greatest common divisors

  ghost predicate IsGcd(g: int, a: int, b: int)
  {
    && Divides(g, a) && Divides(g, b)
    && forall d: int :: Divides(d, a) && Divides(d, b) ==> Divides(d, g)
  }

  /** A common divisor that is a combination of the two numbers is the greatest. */
  lemma Bezout(g: int, a: int, b: int, x: int, y: int)
    requires Divides(g, a) && Divides(g, b) && g == a * x + b * y
    ensures IsGcd(g, a, b)
  {
    forall d: int | Divides(d, a) && Divides(d, b)
      ensures Divides(d, g)
    {
      DividesTimes(d, a, x);
      DividesTimes(d, b, y);
      DividesSum(d, a * x, b * y);
    }
  }

  function Max(a: int, b: int): int
  {
    if a >= b then a else b
  }

  function Abs(a: int): int
  {
    if a >= 0 then a else -a
  }

  class RefValue {
    var value: int

    constructor (value: int)
      ensures this.value == value
    {
      this.value := value;
    }
  }

  /** One step back up: coefficients for (b, a % b) give coefficients for (a, b). */
  lemma StepUp(a: nat, b: nat, g: int, x: int, y: int)
    requires 0 < b && Divides(g, b) && Divides(g, a % b) && g == b * x + (a % b) * y
    ensures Divides(g, a) && g == a * y + b * (x - a / b * y)
  {
    var q, r := a / b, a % b;
    Quotient(a, b);
    DividesTimes(g, b, q);
    DividesSum(g, b * q, r);
    Regroup(b, q, r, x, y);
  }

  lemma Quotient(a: nat, b: nat)
    requires 0 < b
    ensures a == b * (a / b) + a % b && 0 <= a / b
  {}

  /** The coefficients stay small. */
  lemma StepBound(a: nat, b: nat, x: int, y: int)
    requires 0 < b && Abs(x) <= Max(1, a % b) && Abs(y) <= b && (a % b == 0 ==> x == 1 && y == 0)
    ensures Abs(x - a / b * y) <= Max(1, a) && Abs(a / b * y) <= Max(1, a)
  {
    var q, r := a / b, a % b;
    Quotient(a, b);
    BoundProduct(q, y, b);
    Bounded(a, q * y, b * q, r, x, y, q);
  }

  lemma Bounded(a: nat, p: int, bq: nat, r: nat, x: int, y: int, q: nat)
    requires a == bq + r && Abs(p) <= bq && Abs(x) <= Max(1, r) && (r == 0 ==> x == 1 && y == 0) && p == q * y
    ensures Abs(x - p) <= Max(1, a) && Abs(p) <= Max(1, a)
  {
    if r == 0 {
      assert q * y == 0;
    }
  }

  lemma Regroup(b: int, q: int, r: int, x: int, y: int)
    ensures (b * q + r) * y + b * (x - q * y) == b * x + r * y
  {
    assert (b * q + r) * y == b * q * y + r * y;
    assert b * (x - q * y) == b * x - b * (q * y);
    assert b * (q * y) == b * q * y;
  }

  lemma BoundProduct(q: nat, y: int, b: nat)
    requires Abs(y) <= b
    ensures Abs(q * y) <= b * q
  {
    if y >= 0 {
      assert q * y <= q * b;
      assert q * y >= 0;
    } else {
      assert q * (-y) <= q * b;
      assert q * (-y) >= 0;
      assert q * (-y) == -(q * y);
    }
  }

  /** exec: the greatest common divisor, and its coefficients in x and y. */
  method Exec(a: nat, b: nat, x: RefValue, y: RefValue) returns (ans: nat)
    requires x != y
    modifies x, y
    ensures IsGcd(ans, a, b) && ans == a * x.value + b * y.value
    ensures Abs(x.value) <= Max(1, b) && Abs(y.value) <= Max(1, a)
    ensures b == 0 ==> x.value == 1 && y.value == 0
    decreases b
  {
    hide IsGcd;
    if b == 0 {
      x.value, y.value := 1, 0;
      DividesBy(a, 1);
      DividesBy(a, 0);
      Bezout(a, a, 0, 1, 0);
      return a;
    }
    ans := Exec(b, a % b, x, y);
    GcdDivides(ans, b, a % b);
    StepUp(a, b, ans, x.value, y.value);
    StepBound(a, b, x.value, y.value);
    var tmp := x.value;
    x.value := y.value;
    y.value := tmp - a / b * y.value;
    Bezout(ans, a, b, x.value, y.value);
  }

  lemma GcdDivides(g: int, a: int, b: int)
    requires IsGcd(g, a, b)
    ensures Divides(g, a) && Divides(g, b)
  {}

  /** Coefficients exist. */
  lemma {:induction false} Coefficients(a: nat, b: nat) returns (g: nat, x: int, y: int)
    ensures IsGcd(g, a, b) && g == a * x + b * y
    decreases b
  {
    hide IsGcd;
    if b == 0 {
      g, x, y := a, 1, 0;
      DividesBy(a, 1);
      DividesBy(a, 0);
    } else {
      var r := a % b;
      g, x, y := Coefficients(b, r);
      GcdDivides(g, b, r);
      assert a == b * (a / b) + r;
      DividesTimes(g, b, a / b);
      DividesSum(g, b * (a / b), r);
      Regroup(b, a / b, r, x, y);
      x, y := y, x - a / b * y;
    }
    Bezout(g, a, b, x, y);
  }

  // ---- primes

  ghost predicate Prime(p: int)
  {
    2 <= p && forall d: int :: 1 <= d && Divides(d, p) ==> d == 1 || d == p
  }

  /** Euclid's lemma. */
  lemma PrimeDivides(p: nat, a: int, b: int)
    requires Prime(p) && Divides(p, a * b)
    ensures Divides(p, a) || Divides(p, b)
  {
    var m: nat := Abs(a);
    var g, x, y := Coefficients(p, m);
    GcdDivides(g, p, m);
    if g == 0 {
      DividesZero(p);
    }
    if g == p {
      assert Divides(p, a) by { DividesTimes(p, m, if a >= 0 then 1 else -1); }
    } else {
      assert g == 1;
      var s := if a >= 0 then 1 else -1;
      assert m == a * s;
      DividesBy(p, x * b);
      DividesTimes(p, a * b, s * y);
      Combination(p, x, b, a, s, y, m);
      DividesSum(p, p * (x * b), a * b * (s * y));
    }
  }

  lemma Combination(p: int, x: int, b: int, a: int, s: int, y: int, m: int)
    requires m == a * s && p * x + m * y == 1
    ensures p * (x * b) + a * b * (s * y) == b
  {
    assert p * (x * b) == (p * x) * b;
    assert a * b * (s * y) == (a * s) * y * b;
    assert (p * x) * b + (m * y) * b == (p * x + m * y) * b;
  }

  // ---- powers

  function Pow(a: int, n: nat): int
  {
    if n == 0 then 1 else a * Pow(a, n - 1)
  }

  lemma {:induction false} PowAdd(a: int, m: nat, n: nat)
    ensures Pow(a, m + n) == Pow(a, m) * Pow(a, n)
  {
    if m != 0 {
      PowAdd(a, m - 1, n);
      assert a * (Pow(a, m - 1) * Pow(a, n)) == a * Pow(a, m - 1) * Pow(a, n);
    }
  }

  lemma {:induction false} PowPow(a: int, m: nat, n: nat)
    ensures Pow(Pow(a, m), n) == Pow(a, Mul(m, n))
  {
    if n != 0 {
      PowPow(a, m, n - 1);
      PowAdd(a, m, Mul(m, n - 1));
    }
  }

  /** m * n, counted up. */
  function Mul(m: nat, n: nat): nat
  {
    if n == 0 then 0 else m + Mul(m, n - 1)
  }

  lemma {:induction false} MulIs(m: nat, n: nat)
    ensures Mul(m, n) == m * n
  {
    if n != 0 {
      MulIs(m, n - 1);
      assert m * n == m + m * (n - 1);
    }
  }

  /** a and b leave the same remainder. */
  ghost predicate Congruent(n: int, a: int, b: int)
  {
    Divides(n, a - b)
  }

  lemma CongruentTimes(n: int, a: int, b: int, c: int, d: int)
    requires Congruent(n, a, b) && Congruent(n, c, d)
    ensures Congruent(n, a * c, b * d)
  {
    DividesTimes(n, a - b, c);
    DividesTimes(n, c - d, b);
    DividesSum(n, (a - b) * c, (c - d) * b);
    assert (a - b) * c + (c - d) * b == a * c - b * d;
  }

  lemma CongruentTrans(n: int, a: int, b: int, c: int)
    requires Congruent(n, a, b) && Congruent(n, b, c)
    ensures Congruent(n, a, c)
  {
    DividesSum(n, a - b, b - c);
  }

  lemma CongruentSelf(n: int, a: int)
    ensures Congruent(n, a, a)
  {
    DividesBy(n, 0);
  }

  lemma {:induction false} CongruentPow(n: int, a: int, b: int, k: nat)
    requires Congruent(n, a, b)
    ensures Congruent(n, Pow(a, k), Pow(b, k))
  {
    if k == 0 {
      CongruentSelf(n, 1);
    } else {
      CongruentPow(n, a, b, k - 1);
      CongruentTimes(n, a, b, Pow(a, k - 1), Pow(b, k - 1));
    }
  }

  // ---- binomial coefficients

  function Choose(n: nat, k: nat): nat
  {
    if k == 0 then 1 else if n == 0 then 0 else Choose(n - 1, k - 1) + Choose(n - 1, k)
  }

  lemma {:induction false} ChooseNone(n: nat, k: nat)
    requires n < k
    ensures Choose(n, k) == 0
  {
    if n != 0 {
      ChooseNone(n - 1, k - 1);
      ChooseNone(n - 1, k);
    }
  }

  lemma {:induction false} ChooseAll(n: nat)
    ensures Choose(n, n) == 1
  {
    if n != 0 {
      ChooseAll(n - 1);
      ChooseNone(n - 1, n);
    }
  }

  /** k * C(n, k) == n * C(n - 1, k - 1) */
  lemma {:induction false} Absorb(n: nat, k: nat)
    requires 1 <= n && 1 <= k
    ensures k * Choose(n, k) == n * Choose(n - 1, k - 1)
  {
    if n == 1 {
      if k != 1 {
        ChooseNone(1, k);
        ChooseNone(0, k - 1);
      }
    } else if k == 1 {
      Absorb(n - 1, 1);
    } else {
      Absorb(n - 1, k);
      Absorb(n - 1, k - 1);
      AbsorbSum(n, k, Choose(n - 2, k - 1), Choose(n - 2, k - 2), Choose(n - 1, k));
    }
  }

  lemma AbsorbSum(n: nat, k: nat, d: nat, e: nat, f: nat)
    requires 1 <= n && 1 <= k && k * f == (n - 1) * d && (k - 1) * (d + e) == (n - 1) * e
    ensures k * (d + e + f) == n * (d + e)
  {
    assert k * (d + e + f) == (k - 1) * (d + e) + (d + e) + k * f;
    assert n * (d + e) == (n - 1) * d + (n - 1) * e + (d + e);
  }

  /** The first terms of the binomial expansion of (x + 1)^n. */
  function Terms(x: int, n: nat, m: nat): int
  {
    Choose(n, m) * Pow(x, m) + if m == 0 then 0 else Terms(x, n, m - 1)
  }

  lemma {:induction false} TermsStep(x: int, n: nat, m: nat)
    requires 1 <= m
    ensures Terms(x, n + 1, m) == Terms(x, n, m) + x * Terms(x, n, m - 1)
  {
    hide Choose, Pow;
    ChooseStep(n, m);
    TermStep(x, Choose(n, m), Choose(n, m - 1), Pow(x, m - 1));
    PowStep(x, m);
    if m == 1 {
      FirstTerm(x, n);
      FirstTerm(x, n + 1);
    } else {
      TermsStep(x, n, m - 1);
      Spread(x, Choose(n, m - 1) * Pow(x, m - 1), Terms(x, n, m - 2));
    }
  }

  lemma FirstTerm(x: int, n: nat)
    ensures Terms(x, n, 0) == 1 && Choose(n, 0) * Pow(x, 0) == 1
  {}

  lemma ChooseStep(n: nat, m: nat)
    requires 1 <= m
    ensures Choose(n + 1, m) == Choose(n, m - 1) + Choose(n, m)
  {}

  lemma PowStep(x: int, m: nat)
    requires 1 <= m
    ensures Pow(x, m) == x * Pow(x, m - 1)
  {}

  lemma TermStep(x: int, c: int, d: int, p: int)
    ensures (d + c) * (x * p) == c * (x * p) + x * (d * p)
  {
    Exchange(d, x, p);
  }

  lemma Spread(x: int, a: int, b: int)
    ensures x * (a + b) == x * a + x * b
  {}

  lemma Exchange(a: int, b: int, c: int)
    ensures a * (b * c) == b * (a * c)
  {}

  /** The binomial theorem. */
  lemma {:induction false} Binomial(x: int, n: nat)
    ensures Terms(x, n, n) == Pow(x + 1, n)
  {
    hide Terms, Choose, Pow;
    if n == 0 {
      FirstTerm(x, 0);
      PowNone(x + 1);
    } else {
      Binomial(x, n - 1);
      TermsStep(x, n - 1, n);
      NoMoreTerms(x, n - 1);
      PowStep(x + 1, n);
      TimesNext(x, Pow(x + 1, n - 1));
    }
  }

  /** The term after the last is zero. */
  lemma NoMoreTerms(x: int, n: nat)
    ensures Terms(x, n, n + 1) == Terms(x, n, n)
  {
    hide Choose, Pow;
    ChooseNone(n, n + 1);
    TimesZero(Pow(x, n + 1));
  }

  lemma PowNone(x: int)
    ensures Pow(x, 0) == 1
  {}

  lemma TimesZero(x: int)
    ensures 0 * x == 0
  {}

  lemma TimesNext(x: int, p: int)
    ensures p + x * p == (x + 1) * p
  {}

  /** All but the first and last coefficients of a prime row are multiples of the prime. */
  lemma PrimeRow(p: nat, k: nat)
    requires Prime(p) && 1 <= k < p
    ensures Divides(p, Choose(p, k))
  {
    Absorb(p, k);
    DividesBy(p, Choose(p - 1, k - 1));
    PrimeDivides(p, k, Choose(p, k));
    if Divides(p, k) {
      DividesSmall(p, k);
    }
  }

  lemma {:induction false} TermsModulo(x: int, p: nat, m: nat)
    requires Prime(p) && m < p
    ensures Congruent(p, Terms(x, p, m), 1)
  {
    if m == 0 {
      CongruentSelf(p, 1);
    } else {
      TermsModulo(x, p, m - 1);
      PrimeRow(p, m);
      DividesTimes(p, Choose(p, m), Pow(x, m));
      DividesSum(p, Choose(p, m) * Pow(x, m), Terms(x, p, m - 1) - 1);
    }
  }

  /** Fermat's little theorem: x^p leaves the remainder of x. */
  lemma {:induction false} Fermat(x: nat, p: nat)
    requires Prime(p)
    ensures Congruent(p, Pow(x, p), x)
  {
    if x == 0 {
      assert Pow(0, p) == 0;
      CongruentSelf(p, 0);
    } else {
      Fermat(x - 1, p);
      Binomial(x - 1, p);
      TermsModulo(x - 1, p, p - 1);
      ChooseAll(p);
      assert Terms(x - 1, p, p) == Pow(x - 1, p) + Terms(x - 1, p, p - 1);
      DividesSum(p, Pow(x - 1, p) - (x - 1), Terms(x - 1, p, p - 1) - 1);
    }
  }

  /** ... and so does x to any power that is one more than a multiple of p - 1. */
  lemma {:induction false} FermatMore(x: nat, p: nat, k: nat)
    requires Prime(p)
    ensures Congruent(p, Pow(x, 1 + Mul(p - 1, k)), x)
  {
    if k == 0 {
      assert Pow(x, 1) == x;
      CongruentSelf(p, x);
    } else {
      FermatMore(x, p, k - 1);
      Fermat(x, p);
      PowAdd(x, 1 + Mul(p - 1, k - 1), p - 1);
      CongruentSelf(p, Pow(x, p - 1));
      CongruentTimes(p, Pow(x, 1 + Mul(p - 1, k - 1)), x, Pow(x, p - 1), Pow(x, p - 1));
      CongruentTrans(p, Pow(x, 1 + Mul(p - 1, k)), x * Pow(x, p - 1), x);
    }
  }

  /** Two primes that divide a number divide it together. */
  lemma BothDivide(p: nat, q: nat, a: int)
    requires Prime(p) && Prime(q) && p != q && Divides(p, a) && Divides(q, a)
    ensures Divides(p * q, a)
  {
    var k: int :| Times(p, k) == a;
    PrimeDivides(q, p, k);
    assert !Divides(q, p);
    var l: int :| Times(q, l) == k;
    assert p * (q * l) == p * q * l;
    DividesBy(p * q, l);
  }
}
