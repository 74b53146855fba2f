/** What arithmetic is for its users: C's precedence, operators and short cuts (section 2.6.4 of POSIX.1-2017 XCU). */
module ArithLaws {
  import opened Chars
  import opened Numbers
  import opened IntmaxArith
  import opened Arith
  import opened ArithMeaning
  import opened ArithLexer

  // ---------- Precedence ----------

  /** The binary operators of C, those that bind tightest first. */
  const TIGHTEST_FIRST: seq<set<int>> := [
    {ARITH_MUL, ARITH_DIV, ARITH_REM}, {ARITH_ADD, ARITH_SUB}, {ARITH_LSHIFT, ARITH_RSHIFT},
    {ARITH_LT, ARITH_LE, ARITH_GT, ARITH_GE}, {ARITH_EQ, ARITH_NE}, {ARITH_BAND}, {ARITH_BXOR}, {ARITH_BOR}]

  /** `op1` is in the class of `op2`, or in one in front of it. */
  predicate NotLooser(op1: Binop, op2: Binop) {
    exists i, j :: 0 <= i <= j < |TIGHTEST_FIRST| && op1 in TIGHTEST_FIRST[i] && op2 in TIGHTEST_FIRST[j]
  }

  lemma ClassIsPrec(op: Binop, i: nat)
    requires i < |TIGHTEST_FIRST|
    ensures op in TIGHTEST_FIRST[i] <==> Prec(op) == i
  {
  }

  lemma NotLooserIs(op1: Binop, op2: Binop)
    ensures NotLooser(op1, op2) <==> Prec(op1) <= Prec(op2)
  {
    hide Prec;
    ClassIsPrec(op1, Prec(op1));
    ClassIsPrec(op2, Prec(op2));
    forall i: nat, j: nat | i <= j < |TIGHTEST_FIRST| && op1 in TIGHTEST_FIRST[i] && op2 in TIGHTEST_FIRST[j]
      ensures Prec(op1) == i && Prec(op2) == j
    {
      ClassIsPrec(op1, i);
      ClassIsPrec(op2, j);
    }
  }

  /** A number, a name, an expression in parentheses, or one of these behind unary operators. */
  predicate IsOperand(e: Expr) { e.Lit? || e.Name? || e.Paren? || e.Prefix? }

  const LP := [Op(ARITH_LPAREN)]
  const RP := [Op(ARITH_RPAREN)]

  /**
   * Of two binary operators the one on the left is applied first if it is in the same class of C's list as the other
   * or in one in front of it, and else the one on the right.
   */
  lemma Precedence(a: Expr, op1: Binop, b: Expr, op2: Binop, c: Expr, st: Store, junk: Junk)
    requires IsOperand(a) && IsOperand(b) && IsOperand(c)
    ensures var (x, y, z) := (Body(a), Body(b), Body(c));
            Evaluate(x + [Op(op1)] + y + [Op(op2)] + z, st, junk) ==
              if NotLooser(op1, op2) then Evaluate(LP + (x + [Op(op1)] + y) + RP + [Op(op2)] + z, st, junk)
              else Evaluate(x + [Op(op1)] + (LP + (y + [Op(op2)] + z) + RP), st, junk)
  {
    hide Evaluate, Prec, NotLooser, Sem, Print, Body;
    NotLooserIs(op1, op2);
    var (x, y, z) := (Body(a), Body(b), Body(c));
    if NotLooser(op1, op2) {
      var left := Bin(op1, a, b);
      PrintBin(op1, a, b);
      PrintBin(op2, left, c);
      PrintBin(op2, Paren(left), c);
      PrintParen(left);
      EvaluatePrinted(Bin(op2, left, c), st, junk);
      EvaluatePrinted(Bin(op2, Paren(left), c), st, junk);
      SemParen(op2, left, c, st);
    } else {
      var right := Bin(op2, b, c);
      PrintBin(op2, b, c);
      PrintBin(op1, a, right);
      PrintBin(op1, a, Paren(right));
      PrintParen(right);
      EvaluatePrinted(Bin(op1, a, right), st, junk);
      EvaluatePrinted(Bin(op1, a, Paren(right)), st, junk);
      SemParen(op1, a, right, st);
      assert x + [Op(op1)] + y + [Op(op2)] + z == x + [Op(op1)] + (y + [Op(op2)] + z);
    }
  }

  lemma {:induction false} PrintBin(op: Binop, l: Expr, r: Expr)
    requires Level(l) <= Prec(op) + 1 && Level(r) <= Prec(op)
    ensures Print(Bin(op, l, r), 12) == Body(Bin(op, l, r)) == Body(l) + [Op(op)] + Body(r)
  {
    hide Prec;
    assert Print(l, Prec(op) + 1) == Body(l) && Print(r, Prec(op)) == Body(r);
  }

  lemma {:induction false} Plain(e: Expr, lvl: nat)
    requires Level(e) <= lvl
    ensures Print(e, lvl) == Body(e)
  {
  }

  lemma {:induction false} PrintAnd(l: Expr, r: Expr)
    requires Level(l) <= 9 && Level(r) <= 8
    ensures Print(AndE(l, r), 12) == Body(AndE(l, r)) == Body(l) + [Op(ARITH_AND)] + Body(r)
  {
    Plain(l, 9);
    Plain(r, 8);
  }

  lemma {:induction false} PrintOr(l: Expr, r: Expr)
    requires Level(l) <= 10 && Level(r) <= 9
    ensures Print(OrE(l, r), 12) == Body(OrE(l, r)) == Body(l) + [Op(ARITH_OR)] + Body(r)
  {
    Plain(l, 10);
    Plain(r, 9);
  }

  lemma {:induction false} PrintCond(c: Expr, t: Expr, f: Expr)
    requires Level(c) <= 10 && Level(f) <= 11
    ensures Print(CondE(c, t, f), 12) == Body(c) + [Op(ARITH_QMARK)] + Body(t) + [Op(ARITH_COLON)] + Body(f)
  {
    Plain(c, 10);
    Plain(t, 12);
    Plain(f, 11);
  }

  lemma {:induction false} PrintAssign(name: string, code: AssignCode, e: Expr)
    ensures Print(AssignE(name, code, e), 12) == [Var(name), Op(code)] + Body(e)
  {
    Plain(e, 12);
    assert [Var(name)] + [Op(code)] == [Var(name), Op(code)];
  }

  lemma {:induction false} PrintParen(e: Expr)
    ensures Body(Paren(e)) == LP + Print(e, 12) + RP
  {
  }

  lemma {:induction false} SemParen(op: Binop, l: Expr, r: Expr, st: Store)
    ensures Sem(Bin(op, Paren(l), r), st) == Sem(Bin(op, l, r), st) == Sem(Bin(op, l, Paren(r)), st)
  {
  }

  // ---------- Numbers ----------

  /** `r` is `x`, brought into range by a multiple of 2^64. */
  predicate InRange(r: Intmax, x: int) { (r - x) % TWO64 == 0 }

  lemma WrapInRange(x: int)
    ensures InRange(Wrap(x), x)
  {
    assert (x + TWO63) % TWO64 == x + TWO63 - (x + TWO63) / TWO64 * TWO64;
    ModShift(0, -((x + TWO63) / TWO64), TWO64);
  }

  function TwoNumbers(a: Intmax, op: Binop, b: Intmax, st: Store, junk: Junk): Result {
    Evaluate([Num(a), Op(op), Num(b)], st, junk)
  }

  lemma {:induction false} TwoNumbersIs(a: Intmax, op: Binop, b: Intmax, st: Store, junk: Junk)
    ensures var m := Meaning(op, a, b); TwoNumbers(a, op, b, st, junk) == if m.Ok? then Got(m.v, st) else Failed(m.e)
  {
    hide Evaluate, Meaning, Prec;
    PrintBin(op, Lit(a), Lit(b));
    EvaluatePrinted(Bin(op, Lit(a), Lit(b)), st, junk);
    assert Body(Lit(a)) + [Op(op)] + Body(Lit(b)) == [Num(a), Op(op), Num(b)];
  }

  /** Sums, differences and products are exact but for a multiple of 2^64. */
  lemma SumsAre(a: Intmax, b: Intmax, st: Store, junk: Junk)
    ensures var r := TwoNumbers(a, ARITH_ADD, b, st, junk); r.Got? && r.st == st && InRange(r.v, a + b)
    ensures var r := TwoNumbers(a, ARITH_SUB, b, st, junk); r.Got? && r.st == st && InRange(r.v, a - b)
    ensures var r := TwoNumbers(a, ARITH_MUL, b, st, junk); r.Got? && r.st == st && InRange(r.v, a * b)
  {
    hide Wrap, TwoNumbers;
    TwoNumbersIs(a, ARITH_ADD, b, st, junk);
    TwoNumbersIs(a, ARITH_SUB, b, st, junk);
    TwoNumbersIs(a, ARITH_MUL, b, st, junk);
    WrapInRange(a + b);
    WrapInRange(a - b);
    WrapInRange(a * b);
  }

  /** Quotient and remainder give back the dividend; the quotient is rounded towards zero. */
  lemma DivisionIs(a: Intmax, b: Intmax, st: Store, junk: Junk)
    ensures b == 0 ==> TwoNumbers(a, ARITH_DIV, b, st, junk) == TwoNumbers(a, ARITH_REM, b, st, junk) == Failed(DivisionByZero)
    ensures b != 0 && !(b == -1 && a == -TWO63) ==>
              var q, r := TwoNumbers(a, ARITH_DIV, b, st, junk), TwoNumbers(a, ARITH_REM, b, st, junk);
              && q.Got? && r.Got? && q.st == r.st == st && a == b * q.v + r.v
              && Abs(r.v) < Abs(b) && (r.v != 0 ==> (r.v < 0 <==> a < 0))
  {
    hide TwoNumbers, Wrap;
    TwoNumbersIs(a, ARITH_DIV, b, st, junk);
    TwoNumbersIs(a, ARITH_REM, b, st, junk);
    if b != 0 && !(b == -1 && a == -TWO63) {
      QuotRem(a, b);
      QuotFits(a, b);
    }
  }

  lemma QuotRem(a: int, b: int)
    requires b != 0
    ensures a == b * Quot(a, b) + Rem(a, b) && Abs(Rem(a, b)) < Abs(b) && (Rem(a, b) != 0 ==> (Rem(a, b) < 0 <==> a < 0))
  {
    var q := Abs(a) / Abs(b);
    DivMod(Abs(a), Abs(b));
    NegProduct(b, q);
    NegProduct(Abs(b), q);
  }

  lemma QuotFits(a: Intmax, b: Intmax)
    requires b != 0 && !(b == -1 && a == -TWO63)
    ensures -TWO63 <= Quot(a, b) < TWO63 && -TWO63 <= Rem(a, b) < TWO63
    ensures Wrap(Quot(a, b)) == Quot(a, b) && Wrap(Rem(a, b)) == Rem(a, b)
  {
    DivBounds(Abs(a), Abs(b));
    DivMod(Abs(a), Abs(b));
    assert Abs(b) == 1 ==> b == 1 || b == -1;
  }

  /** Shifts multiply and divide by powers of two, rounding down; a shift by more bits leaves the sign alone. */
  lemma ShiftsAre(a: Intmax, b: Intmax, st: Store, junk: Junk)
    ensures var r := TwoNumbers(a, ARITH_LSHIFT, b, st, junk);
            r.Got? && r.st == st && if 0 <= b < 64 then InRange(r.v, a * Pow2(b)) else r.v == 0
    ensures var r := TwoNumbers(a, ARITH_RSHIFT, b, st, junk);
            r.Got? && r.st == st &&
            if 0 <= b < 64 then r.v * Pow2(b) <= a < (r.v + 1) * Pow2(b) else r.v == if a < 0 then -1 else 0
  {
    hide TwoNumbers, Wrap;
    TwoNumbersIs(a, ARITH_LSHIFT, b, st, junk);
    TwoNumbersIs(a, ARITH_RSHIFT, b, st, junk);
    if 0 <= b < 64 {
      WrapInRange(a * Pow2(b));
      var p := Pow2(b);
      hide Pow2;
      FloorIs(a, p);
    }
  }

  lemma FloorIs(a: Intmax, p: int)
    requires p > 0
    ensures (a / p) * p <= a < (a / p + 1) * p && Wrap(a / p) == a / p
  {
    DivMod(if a < 0 then 0 else a, p);
    assert a == p * (a / p) + a % p && 0 <= a % p < p;
    assert -TWO63 <= a / p < TWO63 by {
      if a >= 0 {
        DivBounds(a, p);
      } else {
        NegativeFloor(a, p);
      }
    }
  }

  lemma NegativeFloor(a: int, p: int)
    requires a < 0 < p
    ensures a <= a / p < 0
  {
    var q := a / p;
    assert a == p * q + a % p && 0 <= a % p < p;
    if q >= 0 {
      ProductAtLeast(p, q);
    } else {
      LessThanOne(p, q + 1);
      OneMore(p, q);
    }
  }

  lemma OneMore(p: int, q: int)
    ensures p * (q + 1) == p * q + p
  {
  }

  lemma LessThanOne(p: int, q: int)
    requires p >= 1 && q <= 0
    ensures p * q <= q
  {
    ProductAtLeast(p, -q);
    NegProduct(p, q);
  }

  /** Comparisons are 1 or 0. */
  lemma ComparisonsAre(a: Intmax, b: Intmax, st: Store, junk: Junk)
    ensures TwoNumbers(a, ARITH_LT, b, st, junk) == Got(if a < b then 1 else 0, st)
    ensures TwoNumbers(a, ARITH_LE, b, st, junk) == Got(if a <= b then 1 else 0, st)
    ensures TwoNumbers(a, ARITH_GT, b, st, junk) == Got(if a > b then 1 else 0, st)
    ensures TwoNumbers(a, ARITH_GE, b, st, junk) == Got(if a >= b then 1 else 0, st)
    ensures TwoNumbers(a, ARITH_EQ, b, st, junk) == Got(if a == b then 1 else 0, st)
    ensures TwoNumbers(a, ARITH_NE, b, st, junk) == Got(if a != b then 1 else 0, st)
  {
    hide TwoNumbers;
    TwoNumbersIs(a, ARITH_LT, b, st, junk);
    TwoNumbersIs(a, ARITH_LE, b, st, junk);
    TwoNumbersIs(a, ARITH_GT, b, st, junk);
    TwoNumbersIs(a, ARITH_GE, b, st, junk);
    TwoNumbersIs(a, ARITH_EQ, b, st, junk);
    TwoNumbersIs(a, ARITH_NE, b, st, junk);
  }

  /** The bitwise operators work on every bit of two's complement. */
  lemma BitwiseIs(a: Intmax, b: Intmax, k: nat, st: Store, junk: Junk)
    ensures var r := TwoNumbers(a, ARITH_BAND, b, st, junk); r.Got? && r.st == st && (Bit(r.v, k) <==> Bit(a, k) && Bit(b, k))
    ensures var r := TwoNumbers(a, ARITH_BOR, b, st, junk); r.Got? && r.st == st && (Bit(r.v, k) <==> Bit(a, k) || Bit(b, k))
    ensures var r := TwoNumbers(a, ARITH_BXOR, b, st, junk); r.Got? && r.st == st && (Bit(r.v, k) <==> Bit(a, k) != Bit(b, k))
  {
    hide TwoNumbers, Bit, Bitwise;
    TwoNumbersIs(a, ARITH_BAND, b, st, junk);
    TwoNumbersIs(a, ARITH_BOR, b, st, junk);
    TwoNumbersIs(a, ARITH_BXOR, b, st, junk);
    BitwiseBit(AndBit, a, b, k);
    BitwiseBit(OrBit, a, b, k);
    BitwiseBit(XorBit, a, b, k);
  }

  /** What `Bit` tells of a number: whether halving it `k` times, rounding down, gives an odd one. */
  lemma BitIs(a: int, k: nat)
    ensures Bit(a, k) <==> (if k == 0 then a % 2 == 1 else Bit(a / 2, k - 1))
  {
  }

  /** The unary operators. */
  lemma {:induction false} UnaryIs(a: Intmax, st: Store, junk: Junk)
    ensures Evaluate([Op(ARITH_ADD), Num(a)], st, junk) == Got(a, st)
    ensures var r := Evaluate([Op(ARITH_SUB), Num(a)], st, junk); r.Got? && r.st == st && InRange(r.v, -(a as int))
    ensures Evaluate([Op(ARITH_NOT), Num(a)], st, junk) == Got(if a == 0 then 1 else 0, st)
    ensures Evaluate([Op(ARITH_BNOT), Num(a)], st, junk) == Got(-1 - a, st)
  {
    hide Evaluate, Wrap;
    WrapInRange(-(a as int));
    UnaryPrint(ARITH_ADD, a, st, junk);
    UnaryPrint(ARITH_SUB, a, st, junk);
    UnaryPrint(ARITH_NOT, a, st, junk);
    UnaryPrint(ARITH_BNOT, a, st, junk);
  }

  lemma {:induction false} UnaryPrint(op: UnaryCode, a: Intmax, st: Store, junk: Junk)
    ensures Evaluate([Op(op), Num(a)], st, junk) == Sem(Prefix(op, Lit(a)), st)
  {
    hide Evaluate;
    EvaluatePrinted(Prefix(op, Lit(a)), st, junk);
    Plain(Prefix(op, Lit(a)), 12);
    Plain(Lit(a), 0);
    assert [Op(op)] + [Num(a)] == [Op(op), Num(a)];
  }

  // ---------- Short cuts ----------

  function Outcome(e: Expr, st: Store, junk: Junk): Result { Evaluate(Print(e, 12), st, junk) }

  /** `l && r` runs `r` only if `l` is not zero, `l || r` only if it is; both are 1 or 0. */
  lemma {:induction false} ShortCuts(l: Expr, r: Expr, st: Store, junk: Junk)
    ensures var a := Outcome(l, st, junk);
            && (a.Failed? ==> Outcome(AndE(l, r), st, junk) == a == Outcome(OrE(l, r), st, junk))
            && (a.Got? ==>
                  var b := Outcome(r, a.st, junk);
                  var one := if b.Failed? then b else Got(if b.v != 0 then 1 else 0, b.st);
                  && Outcome(AndE(l, r), st, junk) == (if a.v != 0 then one else Got(0, a.st))
                  && Outcome(OrE(l, r), st, junk) == if a.v != 0 then Got(1, a.st) else one)
  {
    hide Evaluate, Print;
    EvaluatePrinted(l, st, junk);
    EvaluatePrinted(AndE(l, r), st, junk);
    EvaluatePrinted(OrE(l, r), st, junk);
    if Sem(l, st).Got? {
      EvaluatePrinted(r, Sem(l, st).st, junk);
    }
  }

  /** `c ? t : f` runs one of the two. */
  lemma {:induction false} OneBranch(c: Expr, t: Expr, f: Expr, st: Store, junk: Junk)
    ensures var a := Outcome(c, st, junk);
            Outcome(CondE(c, t, f), st, junk) == if a.Failed? then a else Outcome(if a.v != 0 then t else f, a.st, junk)
  {
    hide Evaluate, Print;
    EvaluatePrinted(c, st, junk);
    EvaluatePrinted(CondE(c, t, f), st, junk);
    if Sem(c, st).Got? {
      EvaluatePrinted(if Sem(c, st).v != 0 then t else f, Sem(c, st).st, junk);
    }
  }

  /** `||` binds less than `&&`, that less than any binary operator, and `?:` less than both. */
  lemma {:induction false} LoosePrecedence(a: Expr, op: Binop, b: Expr, c: Expr, d: Expr, st: Store, junk: Junk)
    requires IsOperand(a) && IsOperand(b) && IsOperand(c) && IsOperand(d)
    ensures var (w, x, y, z) := (Body(a), Body(b), Body(c), Body(d));
            var (andT, orT, q, colon) := ([Op(ARITH_AND)], [Op(ARITH_OR)], [Op(ARITH_QMARK)], [Op(ARITH_COLON)]);
            && Evaluate(w + andT + (x + [Op(op)] + y), st, junk) == Evaluate(w + andT + (LP + (x + [Op(op)] + y) + RP), st, junk)
            && Evaluate(w + orT + (x + andT + y), st, junk) == Evaluate(w + orT + (LP + (x + andT + y) + RP), st, junk)
            && Evaluate(w + orT + x + q + y + colon + z, st, junk) ==
                 Evaluate(LP + (w + orT + x) + RP + q + y + colon + z, st, junk)
  {
    hide Evaluate, Prec, Sem, Print, Body;
    var bin, both, either := Bin(op, b, c), AndE(b, c), OrE(a, b);
    PrintBin(op, b, c);
    PrintParen(bin);
    PrintParen(both);
    PrintParen(either);
    EvaluatePrinted(AndE(a, bin), st, junk);
    EvaluatePrinted(AndE(a, Paren(bin)), st, junk);
    EvaluatePrinted(OrE(a, both), st, junk);
    EvaluatePrinted(OrE(a, Paren(both)), st, junk);
    EvaluatePrinted(CondE(either, c, d), st, junk);
    EvaluatePrinted(CondE(Paren(either), c, d), st, junk);
    ParenMeansNothing(a, bin, both, either, c, d, st);
    PrintAnd(b, c);
    PrintOr(a, b);
    PrintAnd(a, bin);
    PrintAnd(a, Paren(bin));
    PrintOr(a, both);
    PrintOr(a, Paren(both));
    PrintCond(either, c, d);
    PrintCond(Paren(either), c, d);
  }

  lemma {:induction false} ParenMeansNothing(a: Expr, bin: Expr, both: Expr, either: Expr, c: Expr, d: Expr, st: Store)
    ensures Sem(AndE(a, Paren(bin)), st) == Sem(AndE(a, bin), st) && Sem(OrE(a, Paren(both)), st) == Sem(OrE(a, both), st)
    ensures Sem(CondE(Paren(either), c, d), st) == Sem(CondE(either, c, d), st)
  {
  }

  // ---------- Variables ----------

  /** An assignment gives its value, and the variable has it from then on; a read-only variable refuses. */
  lemma {:induction false} AssignmentIs(name: string, a: Intmax, other: string, st: Store, junk: Junk)
    ensures var r := Evaluate([Var(name), Op(ARITH_ASS), Num(a)], st, junk);
            if name in st.readonly then r == Failed(ReadOnly)
            else
              && r.Got? && r.v == a && Evaluate([Var(name)], r.st, junk) == Got(a, r.st)
              && r.st.readonly == st.readonly && r.st.nounset == st.nounset
              && (other != name ==> Lookup(r.st, other) == Lookup(st, other))
  {
    hide Evaluate;
    var e: Expr := AssignE(name, ARITH_ASS, Lit(a));
    EvaluatePrinted(e, st, junk);
    PrintAssign(name, ARITH_ASS, Lit(a));
    assert [Var(name), Op(ARITH_ASS)] + [Num(a)] == [Var(name), Op(ARITH_ASS), Num(a)];
    var r := Sem(e, st);
    if r.Got? {
      EvaluatePrinted(ArithMeaning.Name(name), r.st, junk);
      assert Print(ArithMeaning.Name(name), 12) == [Var(name)];
    }
  }

  /** A variable that does not exist is 0, or an error under `set -u`; a value that is no number is an error. */
  lemma {:induction false} VariableIs(name: string, st: Store, junk: Junk)
    ensures Evaluate([Var(name)], st, junk) ==
              if name !in st.vars then (if st.nounset then Failed(Unbound) else Got(0, st))
              else if st.vars[name].None? then Failed(BadNumber) else Got(st.vars[name].value, st)
  {
    EvaluatePrinted(ArithMeaning.Name(name), st, junk);
    assert Print(ArithMeaning.Name(name), 12) == [Var(name)];
  }

  // ---------- Texts ----------

  /** The binary operators of C as they are written, with their tokens. */
  lemma OperatorTexts()
    ensures OperatorCode("*") == ARITH_MUL && OperatorCode("/") == ARITH_DIV && OperatorCode("%") == ARITH_REM
    ensures OperatorCode("+") == ARITH_ADD && OperatorCode("-") == ARITH_SUB
    ensures OperatorCode("<<") == ARITH_LSHIFT && OperatorCode(">>") == ARITH_RSHIFT
    ensures OperatorCode("<") == ARITH_LT && OperatorCode("<=") == ARITH_LE
    ensures OperatorCode(">") == ARITH_GT && OperatorCode(">=") == ARITH_GE
    ensures OperatorCode("==") == ARITH_EQ && OperatorCode("!=") == ARITH_NE
    ensures OperatorCode("&") == ARITH_BAND && OperatorCode("^") == ARITH_BXOR && OperatorCode("|") == ARITH_BOR
    ensures OperatorCode("&&") == ARITH_AND && OperatorCode("||") == ARITH_OR
    ensures OperatorCode("?") == ARITH_QMARK && OperatorCode(":") == ARITH_COLON
    ensures OperatorCode("!") == ARITH_NOT && OperatorCode("~") == ARITH_BNOT
    ensures OperatorCode("(") == ARITH_LPAREN && OperatorCode(")") == ARITH_RPAREN && OperatorCode("=") == ARITH_ASS
  {
  }

  /** Behind an arithmetic operator, `=` makes the assignment that applies it. */
  lemma CompoundTexts(s: string)
    requires s in {"*", "/", "%", "+", "-", "<<", ">>", "&", "^", "|"}
    ensures IsAssign(OperatorCode(s + "=")) && OperatorCode(s + "=") != ARITH_ASS
    ensures AssignedOp(OperatorCode(s + "=")) == OperatorCode(s)
  {
    assert |s| == 1 ==> s + "=" == [s[0], '='];
    assert "<<" + "=" == "<<=" && ">>" + "=" == ">>=";
  }

  /** `x op= a` is `x = x op a`. */
  lemma {:induction false} CompoundIs(name: string, s: string, a: Intmax, st: Store, junk: Junk)
    requires s in {"*", "/", "%", "+", "-", "<<", ">>", "&", "^", "|"}
    ensures Evaluate([Var(name), Op(OperatorCode(s + "=")), Num(a)], st, junk) ==
            Evaluate([Var(name), Op(ARITH_ASS), Var(name), Op(OperatorCode(s)), Num(a)], st, junk)
  {
    hide Evaluate, Meaning;
    CompoundTexts(s);
    var op: Binop := OperatorCode(s);
    var one, two := AssignE(name, OperatorCode(s + "="), Lit(a)), AssignE(name, ARITH_ASS, Bin(op, ArithMeaning.Name(name), Lit(a)));
    EvaluatePrinted(one, st, junk);
    EvaluatePrinted(two, st, junk);
    SemCompound(name, OperatorCode(s + "="), a, st);
    PrintBin(op, ArithMeaning.Name(name), Lit(a));
    PrintAssign(name, OperatorCode(s + "="), Lit(a));
    PrintAssign(name, ARITH_ASS, Bin(op, ArithMeaning.Name(name), Lit(a)));
    var code := Op(OperatorCode(s + "="));
    assert [Var(name), code] + [Num(a)] == [Var(name), code, Num(a)];
    assert [Var(name), Op(ARITH_ASS)] + ([Var(name)] + [Op(op)] + [Num(a)]) == [Var(name), Op(ARITH_ASS), Var(name), Op(op), Num(a)];
  }

  lemma {:induction false} SemCompound(name: string, code: AssignCode, a: Intmax, st: Store)
    requires ARITH_ASS_MIN <= code < ARITH_ASS_MAX
    ensures Sem(AssignE(name, code, Lit(a)), st) ==
            Sem(AssignE(name, ARITH_ASS, Bin(AssignedOp(code), ArithMeaning.Name(name), Lit(a))), st)
  {
    hide Meaning, SetVar, Lookup;
    var bin := Bin(AssignedOp(code), ArithMeaning.Name(name), Lit(a));
    assert Sem(Lit(a), st) == Got(a, st);
    var x := Lookup(st, name);
    var m := if x.Ok? then Meaning(AssignedOp(code), x.v, a) else x;
    assert Sem(ArithMeaning.Name(name), st) == if x.Ok? then Got(x.v, st) else Failed(x.e);
    assert Sem(bin, st) == if m.Ok? then Got(m.v, st) else Failed(m.e);
  }

  /** The value of a digit. */
  function DigitOf(c: char): nat {
    if '0' <= c <= '9' then c as int - 48
    else if 'a' <= c <= 'f' then c as int - 87
    else if 'A' <= c <= 'F' then c as int - 55
    else 0
  }

  predicate IsHexDigit(c: char) { '0' <= c <= '9' || 'a' <= c <= 'f' || 'A' <= c <= 'F' }

  /** `0x` and hexadecimal digits. */
  lemma HexNumber(c: char, d: char)
    requires IsHexDigit(c) && IsHexDigit(d)
    ensures Number("0x" + [c, d]) == (4, 16 * DigitOf(c) + DigitOf(d))
  {
    var s := "0x" + [c, d];
    assert BaseOf(s) == (16, 2) && s[2..] == [c, d] && s[2..4] == [c, d];
    TwoDigits(c, d, 16);
  }

  /** `0` and octal digits. */
  lemma OctalNumber(c: char, d: char)
    requires '0' <= c <= '7' && '0' <= d <= '7'
    ensures Number("0" + [c, d]) == (3, 8 * DigitOf(c) + DigitOf(d))
  {
    var s := "0" + [c, d];
    assert BaseOf(s) == (8, 0) && s[0..] == s && s == ['0', c, d] && s[0..3] == s;
    ThreeDigits(c, d);
  }

  /** Decimal digits. */
  lemma DecimalNumber(c: char, d: char)
    requires '1' <= c <= '9' && '0' <= d <= '9'
    ensures Number([c, d]) == (2, 10 * DigitOf(c) + DigitOf(d))
  {
    var s := [c, d];
    assert BaseOf(s) == (10, 0) && s[0..] == s && s[0..2] == s;
    TwoDigits(c, d, 10);
  }

  lemma TwoDigits(c: char, d: char, base: nat)
    requires IsDigitOf(c, base) && IsDigitOf(d, base) && base in {10, 16}
    ensures Span([c, d], x => IsDigitOf(x, base)) == 2 && ArithLexer.Value([c, d], base) == base * DigitOf(c) + DigitOf(d)
  {
    assert [c, d][..1] == [c] && [c][..0] == [];
    assert ArithLexer.Value([c], base) == DigitOf(c);
  }

  lemma ThreeDigits(c: char, d: char)
    requires IsDigitOf(c, 8) && IsDigitOf(d, 8)
    ensures Span(['0', c, d], x => IsDigitOf(x, 8)) == 3 && ArithLexer.Value(['0', c, d], 8) == 8 * DigitOf(c) + DigitOf(d)
  {
    assert ['0', c, d][..2] == ['0', c] && ['0', c][..1] == ['0'] && ['0'][..0] == [];
    assert ArithLexer.Value(['0'], 8) == 0 && ArithLexer.Value(['0', c], 8) == DigitOf(c);
  }
}
