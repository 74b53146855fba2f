/** Powers of two and integer division. */
module Numbers {
  function Pow2(n: nat): (r: int)
    ensures r > 0
  {
    if n == 0 then 1 else 2 * Pow2(n - 1)
  }

  lemma {:induction false} Pow2Plus(m: nat, n: nat)
    ensures Pow2(m + n) == Pow2(m) * Pow2(n)
  {
    if m > 0 {
      Pow2Plus(m - 1, n);
    }
  }

  function Abs(a: int): nat { if a < 0 then -a else a }

  lemma DivMod(n: int, d: int)
    requires d > 0
    ensures n == d * (n / d) + n % d && 0 <= n % d < d
  {
  }

  lemma DoubleProduct(x: int, p: int)
    ensures x * (2 * p) == 2 * (x * p)
  {
  }

  lemma NegProduct(x: int, y: int)
    ensures -x * y == -(x * y) && x * -y == -(x * y)
  {
  }

  lemma DivBounds(n: nat, d: int)
    requires d > 0
    ensures 0 <= n / d && d * (n / d) <= n && n / d <= n
    ensures d >= 2 ==> 2 * (n / d) <= n
  {
    var q := n / d;
    assert n == d * q + n % d;
    ProductAtLeast(d, q);
  }

  lemma ProductAtLeast(m: int, n: int)
    requires m >= 1 && n >= 0
    ensures m * n >= n && (m >= 2 ==> m * n >= 2 * n)
  {
    assert m * n == n + (m - 1) * n;
    assert m >= 2 ==> m * n == 2 * n + (m - 2) * n;
  }

  lemma ModShift(x: int, k: int, m: int)
    requires m > 0
    ensures (x + k * m) % m == x % m
  {
    assert x == m * (x / m) + x % m;
    DivUnique(x + k * m, m, x / m + k, x % m);
  }

  lemma DivUnique(x: int, p: int, q: int, r: int)
    requires p > 0 && x == p * q + r && 0 <= r < p
    ensures x / p == q && x % p == r
  {
    var d := x / p - q;
    assert x == p * (x / p) + x % p;
    assert p * d == r - x % p by {
      assert p * (x / p) == p * q + p * d;
    }
    if d != 0 {
      ProductAtLeast(if d > 0 then d else -d, p);
      NegProduct(d, p);
    }
  }

  // ---------- Bitwise operators on two's complement integers ----------

  datatype Logic = AndBit | OrBit | XorBit {
    predicate Apply(p: bool, q: bool) {
      match this
      case AndBit => p && q
      case OrBit => p || q
      case XorBit => p != q
    }
  }

  function Magnitude(a: int): nat { if a >= 0 then a else -1 - a }

  function Bitwise(f: Logic, a: int, b: int): int
    decreases Magnitude(a) + Magnitude(b)
  {
    if Magnitude(a) == 0 && Magnitude(b) == 0 then if f.Apply(a < 0, b < 0) then -1 else 0
    else Bitwise(f, a / 2, b / 2) * 2 + (if f.Apply(a % 2 == 1, b % 2 == 1) then 1 else 0)
  }

  /** Bit `k` of a two's complement integer. */
  function Bit(a: int, k: nat): bool
    decreases k
  {
    if k == 0 then a % 2 == 1 else Bit(a / 2, k - 1)
  }

  /** Every bit of the result is decided by the same bits of the operands. */
  lemma {:induction false} BitwiseBit(f: Logic, a: int, b: int, k: nat)
    ensures Bit(Bitwise(f, a, b), k) == f.Apply(Bit(a, k), Bit(b, k))
    decreases k
  {
    var r := Bitwise(f, a, b);
    if Magnitude(a) == 0 && Magnitude(b) == 0 {
      ConstantBits(a, k);
      ConstantBits(b, k);
      ConstantBits(r, k);
    } else if k > 0 {
      assert r / 2 == Bitwise(f, a / 2, b / 2);
      BitwiseBit(f, a / 2, b / 2, k - 1);
    }
  }

  lemma {:induction false} ConstantBits(a: int, k: nat)
    requires Magnitude(a) == 0
    ensures Bit(a, k) == (a < 0)
    decreases k
  {
    if k > 0 {
      ConstantBits(a / 2, k - 1);
    }
  }

  lemma {:induction false} BitwiseRange(f: Logic, a: int, b: int, n: nat)
    requires -Pow2(n) <= a < Pow2(n) && -Pow2(n) <= b < Pow2(n)
    ensures -Pow2(n) <= Bitwise(f, a, b) < Pow2(n)
    decreases n
  {
    if n > 0 && !(Magnitude(a) == 0 && Magnitude(b) == 0) {
      BitwiseRange(f, a / 2, b / 2, n - 1);
    }
  }

  lemma {:induction false} XorMask(a: int)
    ensures Bitwise(XorBit, a, 0) == a
    ensures Bitwise(XorBit, a, -1) == -1 - a
    decreases Magnitude(a)
  {
    if Magnitude(a) != 0 {
      XorMask(a / 2);
    }
  }

  /** `x * 2^n`, doubling by doubling. */
  function Scale(x: nat, n: nat): nat {
    if n == 0 then x else 2 * Scale(x, n - 1)
  }

  lemma {:induction false} ScaleIsProduct(x: nat, n: nat)
    ensures Scale(x, n) == x * Pow2(n)
  {
    if n > 0 {
      ScaleIsProduct(x, n - 1);
      DoubleProduct(x, Pow2(n - 1));
    }
  }

  /** Numbers without a common bit: `|` adds them. */
  lemma {:induction false} DisjointBits(a: nat, b: nat, n: nat)
    requires a < Pow2(n)
    ensures Bitwise(OrBit, a, Scale(b, n)) == a + Scale(b, n)
    decreases n
  {
    if n == 0 {
      OrZero(b);
    } else {
      DisjointBits(a / 2, b, n - 1);
    }
  }

  lemma {:induction false} OrZero(b: nat)
    ensures Bitwise(OrBit, 0, b) == b
    decreases b
  {
    if b != 0 {
      OrZero(b / 2);
    }
  }

  /** `& ~` takes the highest bit away. */
  lemma {:induction false} ClearBit(a: nat, bit: bool, n: nat)
    requires a < Pow2(n)
    ensures Bitwise(AndBit, a + (if bit then Pow2(n) else 0), -1 - Pow2(n)) == a
    decreases n
  {
    if n == 0 {
      assert Bitwise(AndBit, if bit then 1 else 0, -2) == 0;
    } else {
      ClearBit(a / 2, bit, n - 1);
    }
  }
}
