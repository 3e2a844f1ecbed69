/** Fixed-width integers as naturals below a power of two. */
module BitVec {
  function Pow2(n: nat): (r: nat)
    ensures r > 0
  {
    if n == 0 then 1 else 2 * Pow2(n - 1)
  }

  /** The value of an n-bit pattern read as two's complement. */
  function Signed(v: nat, n: nat): int
    requires n > 0
  {
    if v < Pow2(n - 1) then v else v - Pow2(n)
  }

  /** The n-bit pattern of an integer. */
  function Wrap(i: int, n: nat): (r: nat)
    ensures r < Pow2(n)
  {
    i % Pow2(n)
  }

  /** Division and remainder that truncate toward zero. */
  function TruncDiv(a: int, b: int): int
    requires b != 0
  {
    var q := Abs(a) / Abs(b);
    if (a < 0) != (b < 0) then -q else q
  }

  function TruncMod(a: int, b: int): int
    requires b != 0
  {
    a - b * TruncDiv(a, b)
  }

  function ShiftLeft(a: nat, k: nat): nat { a * Pow2(k) }

  function FloorDiv(a: int, m: int): (r: int)
    requires m > 0
    ensures a >= 0 ==> r >= 0
  {
    a / m
  }

  /** Arithmetic when the argument is negative. */
  function ShiftRight(a: int, k: nat): (r: int)
    ensures a >= 0 ==> r >= 0
  {
    FloorDiv(a, Pow2(k))
  }

  function Abs(a: int): nat { if a < 0 then -a else a }

  datatype Bitwise = AndBits | OrBits | XorBits

  function OnBits(op: Bitwise, a: nat, b: nat): (r: nat)
    requires a < 2 && b < 2
    ensures r < 2
  {
    match op
    case AndBits => if a == b == 1 then 1 else 0
    case OrBits => if a + b > 0 then 1 else 0
    case XorBits => if a != b then 1 else 0
  }

  function OnAllBits(op: Bitwise, a: nat, b: nat): nat
  {
    if a == 0 && b == 0 then 0 else OnBits(op, a % 2, b % 2) + 2 * OnAllBits(op, a / 2, b / 2)
  }

  lemma {:induction false} OnAllBitsInRange(op: Bitwise, a: nat, b: nat, n: nat)
    requires a < Pow2(n) && b < Pow2(n)
    ensures OnAllBits(op, a, b) < Pow2(n)
  {
    if n > 0 && !(a == 0 && b == 0) {
      OnAllBitsInRange(op, a / 2, b / 2, n - 1);
    }
  }

  lemma {:induction false} Pow2Doubled(n: nat, v: nat)
    requires Pow2(n) == v
    ensures Pow2(2 * n) == v * v
  {
    Pow2Sum(n, n);
  }

  lemma {:induction false} Pow2Of8()
    ensures Pow2(8) == 0x100
  {
    assert Pow2(4) == 0x10;
    Pow2Doubled(4, 0x10);
  }

  lemma {:induction false} Pow2WordSizes()
    ensures Pow2(32) == 0x1_0000_0000
    ensures Pow2(64) == 0x1_0000_0000_0000_0000
  {
    Pow2Of8();
    Pow2Doubled(8, 0x100);
    Pow2Doubled(16, 0x1_0000);
    Pow2Doubled(32, 0x1_0000_0000);
  }

  /** A product by repeated addition, which spares the solver multiplication. */
  function Times(n: nat, k: nat): nat { if n == 0 then 0 else k + Times(n - 1, k) }

  lemma {:induction false} TimesIsProduct(n: nat, k: nat)
    ensures Times(n, k) == n * k
  {
    if n > 0 {
      TimesIsProduct(n - 1, k);
      assert n * k == k + (n - 1) * k;
    }
  }

  lemma {:induction false} Pow2Sum(a: nat, b: nat)
    ensures Pow2(a + b) == Pow2(a) * Pow2(b)
  {
    if a != 0 {
      Pow2Sum(a - 1, b);
      assert 2 * (Pow2(a - 1) * Pow2(b)) == (2 * Pow2(a - 1)) * Pow2(b);
    }
  }

  lemma {:induction false} Pow2Grows(a: nat, b: nat)
    requires a <= b
    ensures Pow2(a) <= Pow2(b)
  {
    Pow2Sum(a, b - a);
    assert Pow2(a) * 1 <= Pow2(a) * Pow2(b - a);
  }

  /** Remainders, without leaving division to the solver. */
  lemma {:induction false} ModUnique(a: int, m: int, k: int, r: int)
    requires m > 0 && 0 <= r < m && a == m * k + r
    ensures a % m == r && a / m == k
  {
    var q, s := a / m, a % m;
    assert m * (q - k) == r - s;
    MultipleIsSmall(m, q - k);
  }

  lemma {:induction false} DivUnique(a: int, m: int, k: int, r: int)
    requires m > 0 && a == m * k + r && 0 <= r < m
    ensures a / m == k
  {
    ModUnique(a, m, k, r);
    assert m * (a / m) == m * k;
  }

  lemma {:induction false} MultipleIsSmall(m: int, d: int)
    requires m > 0 && -m < m * d < m
    ensures d == 0
  {
    assert d >= 1 ==> m * d >= m;
    assert d <= -1 ==> m * d <= -m;
  }

  lemma {:induction false} SmallMod(v: int, m: int)
    requires 0 <= v < m
    ensures v % m == v
  {
    ModUnique(v, m, 0, v);
  }

  lemma {:induction false} ModPlusMultiple(a: int, m: int, k: int)
    requires m > 0
    ensures (a + m * k) % m == a % m
  {
    assert a + m * k == m * (a / m + k) + a % m;
    ModUnique(a + m * k, m, a / m + k, a % m);
  }

  lemma {:induction false} ModOfProduct(a: int, b: int, m: int)
    requires m > 0
    ensures ((a % m) * (b % m)) % m == (a * b) % m
  {
    ProductMod(m, a / m, a % m, b / m, b % m);
    assert a == m * (a / m) + a % m && b == m * (b / m) + b % m;
  }

  lemma {:induction false} ProductMod(m: int, p: int, x: int, q: int, y: int)
    requires m > 0
    ensures ((m * p + x) * (m * q + y)) % m == (x * y) % m
  {
    var xy, k, ab := x * y, p * (m * q + y) + x * q, (m * p + x) * (m * q + y);
    assert ab == xy + m * k by { ProductSplit(m, p, x, q, y); }
    ModPlusMultiple(xy, m, k);
  }

  lemma {:induction false} ProductSplit(m: int, p: int, x: int, q: int, y: int)
    ensures (m * p + x) * (m * q + y) == x * y + m * (p * (m * q + y) + x * q)
  {
    var b := m * q + y;
    assert (m * p + x) * b == m * (p * b) + x * b;
    assert x * b == m * (x * q) + x * y;
    assert m * (p * b) + m * (x * q) == m * (p * b + x * q);
  }

  /** Wrapping the factors first does not change a wrapped product. */
  lemma {:induction false} WrapProduct(a: int, b: int, n: nat)
    ensures Wrap(Wrap(a, n) * Wrap(b, n), n) == Wrap(a * b, n)
  {
    ModOfProduct(a, b, Pow2(n));
  }

  lemma {:induction false} WrapInRange(v: nat, n: nat)
    requires v < Pow2(n)
    ensures Wrap(v, n) == v
  {
    SmallMod(v, Pow2(n));
  }

  lemma {:induction false} ModOfMod(i: int, m: int, k: int)
    requires m > 0 && k > 0
    ensures (i % (m * k)) % m == i % m
  {
    var q, r := i / (m * k), i % (m * k);
    assert i == r + m * (k * q) by { assert (m * k) * q == m * (k * q); }
    ModPlusMultiple(r, m, k * q);
  }

  /** Truncating a wrapped value to fewer bits. */
  lemma {:induction false} WrapNarrower(i: int, n: nat, to: nat)
    requires to <= n
    ensures Wrap(Wrap(i, n), to) == Wrap(i, to)
  {
    Pow2Sum(to, n - to);
    ModOfMod(i, Pow2(to), Pow2(n - to));
  }

  lemma {:induction false} WrapPlusPow2(i: int, n: nat)
    ensures Wrap(i - Pow2(n), n) == Wrap(i, n)
  {
    ModPlusMultiple(i, Pow2(n), -1);
  }

  lemma {:induction false} SignedRoundTrip(v: nat, n: nat)
    requires n > 0 && v < Pow2(n)
    ensures Wrap(Signed(v, n), n) == v
  {
    WrapInRange(v, n);
    WrapPlusPow2(v, n);
  }

  /** The low bits do not depend on how the high bit is read. */
  lemma {:induction false} SignedNarrower(v: nat, n: nat, to: nat)
    requires n > 0 && to <= n
    ensures Wrap(Signed(v, n), to) == Wrap(v, to)
  {
    Pow2Sum(to, n - to);
    var m: int, k: int := Pow2(to), Pow2(n - to);
    assert v - Pow2(n) == v + m * (-k);
    ModPlusMultiple(v, m, -k);
  }

  lemma {:induction false} ProductAtLeast(b: int, q: int, k: int)
    requires 0 <= k <= b && q >= 0
    ensures b * q >= k * q
  {
    assert (b - k) * q >= 0;
  }

  lemma {:induction false} DivShrinks(a: nat, b: nat)
    requires b > 0
    ensures a / b <= a && a % b <= a
  {
    var q, r := a / b, a % b;
    assert a == b * q + r;
    QuotientIsNat(a, b);
    ProductAtLeast(b, q, 1);
  }

  lemma {:induction false} QuotientIsNat(a: nat, b: nat)
    requires b > 0
    ensures a / b >= 0
  {
  }

  lemma {:induction false} UnsignedDivision(a: nat, b: nat)
    requires b > 0
    ensures TruncDiv(a, b) == a / b && TruncMod(a, b) == a % b
  {
  }

  lemma {:induction false} ShiftRightBounds(v: nat, n: nat, k: nat)
    requires v < Pow2(n + k)
    ensures ShiftRight(v, k) < Pow2(n)
  {
    Pow2Sum(n, k);
    DivBound(v, Pow2(n), Pow2(k));
  }

  lemma {:induction false} DivBound(v: nat, q: nat, m: nat)
    requires m > 0 && v < q * m
    ensures v / m < q
  {
    var p := v / m;
    assert v == m * p + v % m;
    if p >= q { ProductAtLeast(p, m, q); }
  }

  lemma {:induction false} BytesOfBits(n: nat)
    ensures 8 * n / 8 == n
  {
  }

  lemma {:induction false} QuotientOne(v: nat, m: nat)
    requires m > 0 && FloorDiv(v, m) == 1
    ensures v < 2 * m
  {
    assert v == m * (v / m) + v % m;
  }

  lemma {:induction false} ConcatBounds(a: nat, m: nat, b: nat, n: nat)
    requires a < Pow2(m) && b < Pow2(n)
    ensures ShiftLeft(a, n) + b < Pow2(m + n)
  {
    Pow2Sum(m, n);
    ConcatBound(a, Pow2(m), b, Pow2(n));
  }

  lemma {:induction false} ConcatBound(a: nat, p: nat, b: nat, q: nat)
    requires a < p && b < q
    ensures a * q + b < p * q
  {
    ProductAtLeast(p, q, a + 1);
  }
}
