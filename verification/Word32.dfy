/** Go's uint32 arithmetic: natural numbers below 2^32 with wrap-around written out. */
module Word32 {

  const WORD: nat := 0x1_0000_0000

  type uint32 = x: nat | x < WORD

  function Pow2(k: nat): (p: nat)
    ensures p > 0
  {
    if k == 0 then 1 else 2 * Pow2(k - 1)
  }

  function Add(x: uint32, y: uint32): uint32 { (x + y) % WORD }

  function Sub(x: uint32, y: uint32): uint32 { (x - y) % WORD }

  function Shl(x: uint32, k: nat): uint32 { (x * Pow2(k)) % WORD }

  function Shr(x: uint32, k: nat): (r: uint32)
  {
    ShrinksUnderDivision(x, Pow2(k));
    x / Pow2(k)
  }

  /** Bitwise conjunction, bit by bit from the lowest one. */
  function BitAnd(x: nat, y: nat): (r: nat)
    ensures r <= x && r <= y
    decreases x
  {
    if x == 0 || y == 0 then 0
    else (if x % 2 == 1 && y % 2 == 1 then 1 else 0) + 2 * BitAnd(x / 2, y / 2)
  }

  /** Bitwise disjunction, bit by bit from the lowest one. */
  function BitOr(x: nat, y: nat): nat
    decreases x + y
  {
    if x == 0 then y
    else if y == 0 then x
    else (if x % 2 == 1 || y % 2 == 1 then 1 else 0) + 2 * BitOr(x / 2, y / 2)
  }

  lemma MulMonotone(a: int, b: int, c: nat)
    requires a <= b
    ensures a * c <= b * c
  {
  }

  lemma DivModIdentity(x: int, d: nat)
    requires d > 0
    ensures x == d * (x / d) + x % d && 0 <= x % d < d
    ensures x >= 0 ==> x / d >= 0
  {
  }

  lemma ShrinksUnderDivision(x: nat, d: nat)
    requires d > 0
    ensures 0 <= x / d <= x
  {
    DivModIdentity(x, d);
    MulMonotone(1, d, x / d);
  }

  lemma {:induction false} Pow2Sum(a: nat, b: nat)
    ensures Pow2(a + b) == Pow2(a) * Pow2(b)
  {
    if a > 0 {
      Pow2Sum(a - 1, b);
      assert Pow2(a + b) == 2 * (Pow2(a - 1) * Pow2(b));
    }
  }

  lemma {:induction false} Pow2Monotone(a: nat, b: nat)
    requires a <= b
    ensures Pow2(a) <= Pow2(b)
    decreases b
  {
    if a < b {
      Pow2Monotone(a, b - 1);
    }
  }

  lemma Pow2Word()
    ensures Pow2(32) == WORD
  {
    assert Pow2(8) == 256;
    Pow2Sum(8, 8);
    Pow2Sum(16, 16);
  }

  lemma BitAndOdd(x: nat, m: nat)
    ensures BitAnd(x, 2 * m + 1) == x % 2 + 2 * BitAnd(x / 2, m)
  {
    assert (2 * m + 1) / 2 == m && (2 * m + 1) % 2 == 1;
  }

  lemma BitAndEven(x: nat, m: nat)
    ensures BitAnd(x, 2 * m) == 2 * BitAnd(x / 2, m)
  {
    assert (2 * m) / 2 == m && (2 * m) % 2 == 0;
  }

  /** Masking with 2^k - 1 keeps the low k bits. */
  lemma {:induction false} AndLowMask(x: nat, k: nat)
    ensures BitAnd(x, Pow2(k) - 1) == x % Pow2(k)
    decreases k
  {
    if k > 0 {
      var p := Pow2(k - 1);
      AndLowMask(x / 2, k - 1);
      BitAndOdd(x, p - 1);
      ModDouble(x, p);
    }
  }

  lemma ModDouble(x: nat, p: nat)
    requires p > 0
    ensures x % (2 * p) == x % 2 + 2 * (x / 2 % p)
  {
    DivModIdentity(x / 2, p);
    var q, r := x / 2 / p, x / 2 % p;
    assert x == (2 * p) * q + (x % 2 + 2 * r) by {
      assert x / 2 == p * q + r;
      assert (2 * p) * q == 2 * (p * q);
    }
    DivModUnique(x, 2 * p, q, x % 2 + 2 * r);
  }

  lemma DivModUnique(x: int, d: nat, q: int, r: int)
    requires d > 0 && x == d * q + r && 0 <= r < d
    ensures x / d == q && x % d == r
  {
    DivModIdentity(x, d);
    SameQuotient(d, q, r, x / d, x % d);
  }

  lemma SameQuotient(d: nat, q: int, r: int, q': int, r': int)
    requires 0 <= r < d && 0 <= r' < d && d * q + r == d * q' + r'
    ensures q == q' && r == r'
  {
    if q < q' {
      MulMonotone(q + 1, q', d);
      assert false;
    } else if q' < q {
      MulMonotone(q' + 1, q, d);
      assert false;
    }
  }

  /** The `a` bits of `x` starting at bit `b`. */
  function Field(x: nat, a: nat, b: nat): nat { x / Pow2(b) % Pow2(a) }

  lemma FieldOfHalf(x: nat, a: nat, b: nat)
    requires b > 0
    ensures Field(x / 2, a, b - 1) == Field(x, a, b)
  {
    DivDiv(x, 2, Pow2(b - 1));
  }

  /** `v` moved `b` bits up, doubling one bit at a time. */
  function Scaled(v: nat, b: nat): (r: nat)
    ensures r == v * Pow2(b)
  {
    if b == 0 then v else
      MulDouble(v, Pow2(b - 1));
      2 * Scaled(v, b - 1)
  }

  lemma {:induction false} AndScaledMask(x: nat, a: nat, b: nat)
    ensures BitAnd(x, Scaled(Pow2(a) - 1, b)) == Scaled(Field(x, a, b), b)
    decreases b
  {
    if b == 0 {
      AndLowMask(x, a);
    } else {
      BitAndEven(x, Scaled(Pow2(a) - 1, b - 1));
      AndScaledMask(x / 2, a, b - 1);
      FieldOfHalf(x, a, b);
    }
  }

  /** Masking with a field of `a` ones placed at bit `b` keeps that field in place. */
  lemma AndFieldMask(x: nat, a: nat, b: nat)
    ensures (Pow2(a) - 1) * Pow2(b) >= 0
    ensures BitAnd(x, (Pow2(a) - 1) * Pow2(b)) == Field(x, a, b) * Pow2(b)
  {
    AndScaledMask(x, a, b);
    var m := Scaled(Pow2(a) - 1, b);
    var f := Scaled(Field(x, a, b), b);
  }

  lemma MulDouble(m: int, p: int)
    ensures m * (2 * p) == 2 * (m * p)
  {
  }

  lemma DivDiv(x: nat, a: nat, b: nat)
    requires a > 0 && b > 0
    ensures a * b > 0 && x / a / b == x / (a * b)
  {
    DivModIdentity(x, a);
    DivModIdentity(x / a, b);
    DivDivAlgebra(x, a, b, x / a, x / a / b, x % a, x / a % b);
    DivModUnique(x, a * b, x / a / b, a * (x / a % b) + x % a);
  }

  lemma DivDivAlgebra(x: nat, a: nat, b: nat, y: nat, q: nat, s: nat, r: nat)
    requires x == a * y + s && y == b * q + r && s < a && r < b
    ensures a * b > 0 && x == (a * b) * q + (a * r + s) && 0 <= a * r + s < a * b
  {
    assert a * (b * q + r) == (a * b) * q + a * r;
    MulMonotone(r + 1, b, a);
  }

  /** Joining a number below 2^k to a multiple of 2^k adds them. */
  lemma {:induction false} OrDisjoint(hi: nat, lo: nat, k: nat)
    requires lo < Pow2(k)
    ensures BitOr(hi * Pow2(k), lo) == hi * Pow2(k) + lo
    decreases k
  {
    if k > 0 && hi * Pow2(k) > 0 && lo > 0 {
      var p := Pow2(k - 1);
      assert hi * (2 * p) == 2 * (hi * p);
      assert (2 * (hi * p)) / 2 == hi * p && (2 * (hi * p)) % 2 == 0;
      OrDisjoint(hi, lo / 2, k - 1);
    }
  }

  /** Reducing modulo a multiple of `a` first does not change the residue modulo `a`. */
  lemma ModOfMultiple(x: nat, a: nat, b: nat)
    requires a > 0 && b > 0 && a * b > 0
    ensures x % (a * b) % a == x % a
  {
    DivModIdentity(x, a * b);
    DivModIdentity(x % (a * b), a);
    var q, y := x / (a * b), x % (a * b);
    assert (a * b) * q == a * (b * q);
    assert a * (b * q) + a * (y / a) == a * (b * q + y / a);
    DivModUnique(x, a, b * q + y / a, y % a);
  }

  /** Scaling numerator and denominator together scales the residue and keeps the quotient. */
  lemma ScaledDivMod(n: nat, q: nat, c: nat)
    requires q > 0 && c > 0
    ensures q * c > 0
    ensures (n * c) % (q * c) == (n % q) * c
    ensures (n * c) / (q * c) == n / q
  {
    DivModIdentity(n, q);
    ScaleIdentity(n, q, c, n / q, n % q);
    MulMonotone(n % q + 1, q, c);
    assert (n % q) * c >= 0 by { MulMonotone(0, n % q, c); }
    DivModUnique(n * c, q * c, n / q, (n % q) * c);
  }

  lemma ScaleIdentity(n: nat, q: nat, c: nat, k: nat, r: nat)
    requires n == q * k + r && q > 0 && c > 0
    ensures q * c > 0
    ensures n * c == (q * c) * k + r * c
  {
    MulMonotone(1, q, c);
    assert (q * k) * c == (q * c) * k;
  }
}
