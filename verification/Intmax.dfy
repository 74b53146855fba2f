/** The signed integers of shell arithmetic and the operators of `do_binop` (src/arith_yacc.c). */
module IntmaxArith {
  import opened Numbers

  const TWO63: int := 0x8000_0000_0000_0000
  const TWO64: int := 0x1_0000_0000_0000_0000
  const INTMAX_WIDTH: int := 64

  type Intmax = x: int | -TWO63 <= x < TWO63
  type Uintmax = x: int | 0 <= x < TWO64

  /** The integer of the signed type that is congruent to `x`. */
  function Wrap(x: int): (r: Intmax)
    ensures -TWO63 <= x < TWO63 ==> r == x
  {
    (x + TWO63) % TWO64 - TWO63
  }

  /** The conversions between the signed and the unsigned type. */
  function ToU(x: Intmax): Uintmax { if x < 0 then x + TWO64 else x }

  function ToS(x: Uintmax): Intmax { if x >= TWO63 then x - TWO64 else x }

  function Bool(b: bool): Intmax { if b then 1 else 0 }

  // ---------- Token codes of the binary operators (src/arith_yacc.h) ----------

  const ARITH_BINOP_MIN := 8
  const ARITH_LT := 8
  const ARITH_GT := 9
  const ARITH_REM := 10
  const ARITH_BAND := 11
  const ARITH_LSHIFT := 12
  const ARITH_RSHIFT := 13
  const ARITH_MUL := 14
  const ARITH_ADD := 15
  const ARITH_BOR := 16
  const ARITH_SUB := 17
  const ARITH_BXOR := 18
  const ARITH_DIV := 19
  const ARITH_EQ := 20
  const ARITH_NE := 21
  const ARITH_LE := 22
  const ARITH_GE := 23
  const ARITH_BINOP_MAX := 24

  type Binop = c: int | ARITH_BINOP_MIN <= c < ARITH_BINOP_MAX witness ARITH_BINOP_MIN

  lemma Pow2Is63()
    ensures Pow2(63) == TWO63
  {
    assert Pow2(4) == 16;
    Pow2Plus(4, 4);
    Pow2Plus(8, 8);
    Pow2Plus(16, 16);
    Pow2Plus(32, 32);
  }

  /** A bitwise operator of the signed type. */
  function BitwiseS(f: Logic, a: Intmax, b: Intmax): Intmax {
    Pow2Is63();
    BitwiseRange(f, a, b, 63);
    Bitwise(f, a, b)
  }

  // ---------- do_binop ----------

  datatype Error = Syntax | DivisionByZero | BadNumber | Unbound | ReadOnly

  datatype Value = Ok(v: Intmax) | Err(e: Error)

  /** Division of C: the quotient is rounded towards zero and the remainder has the sign of `a`. */
  function Quot(a: int, b: int): int
    requires b != 0
  {
    if (a < 0) == (b < 0) then Abs(a) / Abs(b) else -(Abs(a) / Abs(b))
  }

  function Rem(a: int, b: int): int
    requires b != 0
  {
    if a < 0 then -(Abs(a) % Abs(b)) else Abs(a) % Abs(b)
  }

  function MinusU(x: Uintmax): Uintmax { if x == 0 then 0 else TWO64 - x }

  /** A shift of an unsigned number to the left. */
  function ShiftU(x: Uintmax, n: nat): Uintmax { (x * Pow2(n)) % TWO64 }

  /** `do_binop`, with its detours through the unsigned type. */
  function DoBinop(op: Binop, a: Intmax, b: Intmax): Value {
    if op == ARITH_REM || op == ARITH_DIV then
      if b == 0 then Err(DivisionByZero)
      else if b == -1 then Ok(if op == ARITH_REM then 0 else ToS(MinusU(ToU(a))))
      else Ok(if op == ARITH_REM then Rem(a, b) else Quot(a, b))
    else if op == ARITH_MUL then Ok(ToS((ToU(a) * ToU(b)) % TWO64))
    else if op == ARITH_ADD then Ok(ToS((ToU(a) + ToU(b)) % TWO64))
    else if op == ARITH_SUB then Ok(ToS((ToU(a) + MinusU(ToU(b))) % TWO64))
    else if op == ARITH_LSHIFT then Ok(if ToU(b) >= INTMAX_WIDTH then 0 else ToS(ShiftU(ToU(a), b)))
    else if op == ARITH_RSHIFT then
      var neg := -Bool(a < 0);
      if ToU(b) >= INTMAX_WIDTH then Ok(neg)
      else
        var u := ToU(BitwiseS(XorBit, a, neg));
        ShiftBounds(u, b);
        Ok(BitwiseS(XorBit, ToS(u / Pow2(b)), neg))
    else if op == ARITH_LT then Ok(Bool(a < b))
    else if op == ARITH_LE then Ok(Bool(a <= b))
    else if op == ARITH_GT then Ok(Bool(a > b))
    else if op == ARITH_GE then Ok(Bool(a >= b))
    else if op == ARITH_EQ then Ok(Bool(a == b))
    else if op == ARITH_NE then Ok(Bool(a != b))
    else Ok(BitwiseS(if op == ARITH_BAND then AndBit else if op == ARITH_BXOR then XorBit else OrBit, a, b))
  }

  lemma ShiftBounds(u: Uintmax, n: nat)
    ensures 0 <= u / Pow2(n) <= u
  {
    DivBounds(u, Pow2(n));
  }

  // ---------- What the operators compute ----------

  /** The value of `a op b`: exact arithmetic brought back into range, and C's division. */
  function Meaning(op: Binop, a: Intmax, b: Intmax): Value {
    if op == ARITH_REM then if b == 0 then Err(DivisionByZero) else Ok(Wrap(Rem(a, b)))
    else if op == ARITH_DIV then if b == 0 then Err(DivisionByZero) else Ok(Wrap(Quot(a, b)))
    else if op == ARITH_MUL then Ok(Wrap(a * b))
    else if op == ARITH_ADD then Ok(Wrap(a + b))
    else if op == ARITH_SUB then Ok(Wrap(a - b))
    else if op == ARITH_LSHIFT then Ok(if 0 <= b < INTMAX_WIDTH then Wrap(a * Pow2(b)) else 0)
    else if op == ARITH_RSHIFT then Ok(Wrap(if 0 <= b < INTMAX_WIDTH then a / Pow2(b) else if a < 0 then -1 else 0))
    else if op == ARITH_LT then Ok(Bool(a < b))
    else if op == ARITH_LE then Ok(Bool(a <= b))
    else if op == ARITH_GT then Ok(Bool(b < a))
    else if op == ARITH_GE then Ok(Bool(b <= a))
    else if op == ARITH_EQ then Ok(Bool(a == b))
    else if op == ARITH_NE then Ok(Bool(a != b))
    else if op == ARITH_BAND then Ok(BitwiseS(AndBit, a, b))
    else if op == ARITH_BXOR then Ok(BitwiseS(XorBit, a, b))
    else Ok(BitwiseS(OrBit, a, b))
  }

  /** Two integers that differ by a multiple of 2^64 have the same representative. */
  lemma WrapShift(x: int, k: int)
    ensures Wrap(x + k * TWO64) == Wrap(x)
  {
    ModShift(x + TWO63, k, TWO64);
  }

  lemma UnsignedResult(x: int)
    ensures ToS(x % TWO64) == Wrap(x)
  {
    var k := x / TWO64;
    assert x == x % TWO64 + k * TWO64;
    WrapShift(x % TWO64, k);
  }

  /** The product of numbers that are multiples of 2^64 away from the factors. */
  lemma FarProduct(a: int, i: int, n: int, k: int)
    ensures (a + i * TWO64) * (n + k * TWO64) == a * n + (a * k + i * n + i * k * TWO64) * TWO64
  {
    var m := TWO64;
    assert (a + i * m) * (n + k * m) == a * n + a * (k * m) + (i * m) * n + (i * m) * (k * m);
    assert (i * m) * (k * m) == i * k * m * m;
  }

  lemma UnsignedProduct(a: Intmax, n: int, u: Uintmax)
    requires u == n || u == n + TWO64
    ensures ToS((ToU(a) * u) % TWO64) == Wrap(a * n)
  {
    hide Wrap, ToS;
    UnsignedResult(ToU(a) * u);
    var i, k := if a < 0 then 1 else 0, if u == n then 0 else 1;
    FarProduct(a, i, n, k);
    WrapShift(a * n, a * k + i * n + i * k * TWO64);
  }

  /** `>>` rounds down, also for negative numbers. */
  lemma ShiftRight(a: Intmax, b: nat)
    ensures -1 - (-1 - a) / Pow2(b) == a / Pow2(b)
  {
    var p := Pow2(b);
    var q := a / p;
    assert a == p * q + a % p;
    assert -1 - a == p * (-1 - q) + (p - 1 - a % p) by {
      assert p * (-1 - q) == -p - p * q;
    }
    DivUnique(-1 - a, p, -1 - q, p - 1 - a % p);
  }

  lemma ShiftMeaning(a: Intmax, b: Intmax)
    ensures DoBinop(ARITH_RSHIFT, a, b) == Meaning(ARITH_RSHIFT, a, b)
    ensures DoBinop(ARITH_LSHIFT, a, b) == Meaning(ARITH_LSHIFT, a, b)
  {
    if 0 <= b < INTMAX_WIDTH {
      ShiftProduct(a, b);
      ShiftRight(a, b);
      var u := if a < 0 then -1 - a else a;
      XorMask(a);
      ShiftBounds(u, b);
      XorMask(u / Pow2(b));
    }
  }

  lemma SumMeaning(a: Intmax, b: Intmax)
    ensures DoBinop(ARITH_ADD, a, b) == Meaning(ARITH_ADD, a, b)
    ensures DoBinop(ARITH_SUB, a, b) == Meaning(ARITH_SUB, a, b)
  {
    hide Wrap, ToS;
    UnsignedResult(ToU(a) + ToU(b));
    WrapShift(a + b, Bool(a < 0) + Bool(b < 0));
    UnsignedResult(ToU(a) + MinusU(ToU(b)));
    WrapShift(a - b, Bool(a < 0) + Bool(b > 0));
  }

  /** `do_binop` computes the meaning of its operator on every pair of operands. */
  lemma DoBinopMeaning(op: Binop, a: Intmax, b: Intmax)
    ensures DoBinop(op, a, b) == Meaning(op, a, b)
  {
    if op == ARITH_MUL {
      UnsignedProduct(a, b, ToU(b));
    } else if op == ARITH_ADD || op == ARITH_SUB {
      SumMeaning(a, b);
    } else if op == ARITH_LSHIFT || op == ARITH_RSHIFT {
      ShiftMeaning(a, b);
    }
  }

  lemma ShiftProduct(a: Intmax, b: nat)
    ensures ToS((ToU(a) * Pow2(b)) % TWO64) == Wrap(a * Pow2(b))
  {
    UnsignedResult(ToU(a) * Pow2(b));
    if a < 0 {
      assert (a + TWO64) * Pow2(b) == a * Pow2(b) + Pow2(b) * TWO64;
      WrapShift(a * Pow2(b), Pow2(b));
    }
  }
}
