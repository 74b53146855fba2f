/** Expression trees, their printed form and their meaning: what `arith` computes for every expression. */
module ArithMeaning {
  import opened IntmaxArith
  import opened Arith
  import opened ArithNoeval

  type AssignCode = c: int | IsAssign(c) witness ARITH_ASS

  type UnaryCode = c: int | IsUnary(c) witness ARITH_ADD

  datatype Expr =
    | Lit(v: Intmax)
    | Name(name: string)
    | Paren(e: Expr)
    | Prefix(unary: UnaryCode, e: Expr)
    | Bin(op: Binop, l: Expr, r: Expr)
    | AndE(l: Expr, r: Expr) | OrE(l: Expr, r: Expr)
    | CondE(c: Expr, t: Expr, f: Expr)
    | AssignE(name: string, code: AssignCode, e: Expr)

  // ---------- Meaning ----------

  function UnaryMeaning(code: UnaryCode, v: Intmax): Intmax {
    if code == ARITH_ADD then v
    else if code == ARITH_SUB then Wrap(-(v as int))
    else if code == ARITH_NOT then Bool(v == 0)
    else -1 - v
  }

  /** Left to right, with C's short cuts; a compound assignment reads its target after its right side. */
  function Sem(e: Expr, st: Store): Result {
    match e
    case Lit(v) => Got(v, st)
    case Name(name) => (match Lookup(st, name) case Ok(v) => Got(v, st) case Err(error) => Failed(error))
    case Paren(e1) => Sem(e1, st)
    case Prefix(code, e1) =>
      var a := Sem(e1, st);
      if a.Failed? then a else Got(UnaryMeaning(code, a.v), a.st)
    case Bin(op, l, r) =>
      var a := Sem(l, st);
      if a.Failed? then a else
      var b := Sem(r, a.st);
      if b.Failed? then b else
      (match Meaning(op, a.v, b.v) case Ok(v) => Got(v, b.st) case Err(error) => Failed(error))
    case AndE(l, r) =>
      var a := Sem(l, st);
      if a.Failed? then a
      else if a.v == 0 then Got(0, a.st)
      else
        var b := Sem(r, a.st);
        if b.Failed? then b else Got(Bool(b.v != 0), b.st)
    case OrE(l, r) =>
      var a := Sem(l, st);
      if a.Failed? then a
      else if a.v != 0 then Got(1, a.st)
      else
        var b := Sem(r, a.st);
        if b.Failed? then b else Got(Bool(b.v != 0), b.st)
    case CondE(c, t, f) =>
      var a := Sem(c, st);
      if a.Failed? then a
      else if a.v != 0 then Sem(t, a.st)
      else Sem(f, a.st)
    case AssignE(name, code, e1) =>
      var b := Sem(e1, st);
      if b.Failed? then b
      else if code == ARITH_ASS then SetVar(b.st, name, b.v)
      else
        var a := Lookup(b.st, name);
        if a.Err? then Failed(a.e) else
        (match Meaning(AssignedOp(code), a.v, b.v) case Ok(v) => SetVar(b.st, name, v) case Err(error) => Failed(error))
  }

  function Combine(op: Binop, a: Result, b: Result, noeval: bool): Result
    requires a.Got?
  {
    if b.Failed? || noeval then b else
    match DoBinop(op, a.v, b.v) case Ok(v) => Got(v, b.st) case Err(error) => Failed(error)
  }

  /** What the evaluator does with the tree in either mode, with 0 for every placeholder. */
  function Run(e: Expr, noeval: bool, st: Store): Result {
    match e
    case Lit(v) => Got(v, st)
    case Name(name) =>
      if noeval then Got(0, st) else
      (match Lookup(st, name) case Ok(v) => Got(v, st) case Err(error) => Failed(error))
    case Paren(e1) => Run(e1, noeval, st)
    case Prefix(code, e1) =>
      var a := Run(e1, noeval, st);
      if a.Failed? then a else Got(Unary(code, a.v), a.st)
    case Bin(op, l, r) =>
      var a := Run(l, noeval, st);
      if a.Failed? then a else Combine(op, a, Run(r, noeval, a.st), noeval)
    case AndE(l, r) =>
      var a := Run(l, noeval, st);
      if a.Failed? then a else
      var b := Run(r, noeval || a.v == 0, a.st);
      if b.Failed? then b else Got(Bool(a.v != 0 && b.v != 0), b.st)
    case OrE(l, r) =>
      var a := Run(l, noeval, st);
      if a.Failed? then a else
      var b := Run(r, noeval || a.v != 0, a.st);
      if b.Failed? then b else Got(Bool(a.v != 0 || b.v != 0), b.st)
    case CondE(c, t, f) =>
      var a := Run(c, noeval, st);
      if a.Failed? then a else
      var b := Run(t, noeval || a.v == 0, a.st);
      if b.Failed? then b else
      var r := Run(f, noeval || a.v != 0, b.st);
      if r.Failed? then r else Got(if a.v != 0 then b.v else r.v, r.st)
    case AssignE(name, code, e1) =>
      var b := Run(e1, noeval, st);
      if b.Failed? || noeval then b else Assign(b.st, name, code, b.v)
  }

  lemma {:induction false} RunNoeval(e: Expr, st: Store)
    ensures Run(e, true, st).Got? && Run(e, true, st).st == st
  {
    match e
    case Lit(_) =>
    case Name(_) =>
    case Paren(e1) => RunNoeval(e1, st);
    case Prefix(_, e1) => RunNoeval(e1, st);
    case Bin(_, l, r) => RunNoeval(l, st); RunNoeval(r, st);
    case AndE(l, r) => RunNoeval(l, st); RunNoeval(r, st);
    case OrE(l, r) => RunNoeval(l, st); RunNoeval(r, st);
    case CondE(c, t, f) => RunNoeval(c, st); RunNoeval(t, st); RunNoeval(f, st);
    case AssignE(_, _, e1) => RunNoeval(e1, st);
  }

  /** The placeholders never reach the result. */
  lemma {:induction false} RunIsSem(e: Expr, st: Store)
    ensures Run(e, false, st) == Sem(e, st)
  {
    match e
    case Lit(_) =>
    case Name(_) =>
    case Paren(e1) => RunIsSem(e1, st);
    case Prefix(code, e1) =>
      RunIsSem(e1, st);
    case Bin(op, l, r) =>
      RunIsSem(l, st);
      var a := Sem(l, st);
      if a.Got? {
        RunIsSem(r, a.st);
        var b := Sem(r, a.st);
        if b.Got? {
          DoBinopMeaning(op, a.v, b.v);
        }
      }
    case AndE(l, r) =>
      RunIsSem(l, st);
      var a := Sem(l, st);
      if a.Got? {
        RunIsSem(r, a.st);
        RunNoeval(r, a.st);
      }
    case OrE(l, r) =>
      RunIsSem(l, st);
      var a := Sem(l, st);
      if a.Got? {
        RunIsSem(r, a.st);
        RunNoeval(r, a.st);
      }
    case CondE(c, t, f) =>
      RunIsSem(c, st);
      var a := Sem(c, st);
      if a.Got? && a.v != 0 {
        RunIsSem(t, a.st);
        if Sem(t, a.st).Got? {
          RunNoeval(f, Sem(t, a.st).st);
        }
      } else if a.Got? {
        RunNoeval(t, a.st);
        RunIsSem(f, a.st);
      }
    case AssignE(name, code, e1) =>
      RunIsSem(e1, st);
      var b := Sem(e1, st);
      if b.Got? && code != ARITH_ASS && Lookup(b.st, name).Ok? {
        DoBinopMeaning(AssignedOp(code), Lookup(b.st, name).v, b.v);
      }
  }

  // ---------- Printed form ----------

  /** Binding strength: 0 for operands, 1 to 8 for binary operators, then `&&`, `||`, `?:` and assignment. */
  function Level(e: Expr): nat {
    match e
    case Bin(op, _, _) => Prec(op) + 1
    case AndE(_, _) => 9
    case OrE(_, _) => 10
    case CondE(_, _, _) => 11
    case AssignE(_, _, _) => 12
    case _ => 0
  }

  /** The tokens of `e` where an expression of strength `lvl` is due; binary operators associate to the left. */
  function Print(e: Expr, lvl: nat): seq<Tok>
    decreases e, 1
  {
    if Level(e) > lvl then [Op(ARITH_LPAREN)] + Body(e) + [Op(ARITH_RPAREN)] else Body(e)
  }

  function Body(e: Expr): seq<Tok>
    decreases e, 0
  {
    match e
    case Lit(v) => [Num(v)]
    case Name(name) => [Var(name)]
    case Paren(e1) => [Op(ARITH_LPAREN)] + Print(e1, 12) + [Op(ARITH_RPAREN)]
    case Prefix(code, e1) => [Op(code)] + Print(e1, 0)
    case Bin(op, l, r) => Print(l, Prec(op) + 1) + [Op(op)] + Print(r, Prec(op))
    case AndE(l, r) => Print(l, 9) + [Op(ARITH_AND)] + Print(r, 8)
    case OrE(l, r) => Print(l, 10) + [Op(ARITH_OR)] + Print(r, 9)
    case CondE(c, t, f) => Print(c, 10) + [Op(ARITH_QMARK)] + Print(t, 12) + [Op(ARITH_COLON)] + Print(f, 11)
    case AssignE(name, code, e1) => [Var(name)] + [Op(code)] + Print(e1, 12)
  }

  // ---------- Evaluating the printed form ----------

  /** One choice of placeholders. */
  function Zero(name: string, rest: seq<Tok>): Intmax { 0 }

  function Lift(r: Result, rest: seq<Tok>): Out {
    if r.Got? then Done(r.v, rest, r.st) else Fail(r.e)
  }

  /** No token that could continue an expression of strength `lvl`. */
  predicate Ends(rest: seq<Tok>, lvl: nat) {
    var code := Head(rest).Code();
    && (IsBinop(code) ==> lvl < Prec(code) + 1)
    && (code == ARITH_AND ==> lvl < 9)
    && (code == ARITH_OR ==> lvl < 10)
    && (code == ARITH_QMARK ==> lvl < 11)
    && !IsAssign(code)
  }

  /** After reading `e`, climbing goes on with the rest. */
  function ClimbOn(r: Result, rest: seq<Tok>, prec: nat, noeval: bool): Out {
    if r.Got? then Climb(r.v, rest, prec, noeval, r.st, Zero) else Fail(r.e)
  }

  function AndOn(r: Result, rest: seq<Tok>, noeval: bool): Out {
    if r.Got? then AndRest(Done(r.v, rest, r.st), noeval, Zero) else Fail(r.e)
  }

  function OrOn(r: Result, rest: seq<Tok>, noeval: bool): Out {
    if r.Got? then OrRest(Done(r.v, rest, r.st), noeval, Zero) else Fail(r.e)
  }

  lemma Glue3(a: seq<Tok>, b: seq<Tok>, c: seq<Tok>, rest: seq<Tok>)
    ensures a + b + c + rest == a + (b + (c + rest))
  {
  }

  lemma Lead(t: Tok, l: seq<Tok>)
    ensures [t] + l != [] && Head([t] + l) == t && Tail([t] + l) == l
  {
  }

  lemma {:induction false} PrimaryPrint(e: Expr, rest: seq<Tok>, noeval: bool, st: Store)
    ensures Primary(Print(e, 0) + rest, noeval, st, Zero) == Lift(Run(e, noeval, st), rest)
    decreases e, if Level(e) > 0 then 1 else 0, 0
  {
    if Level(e) > 0 {
      Parenthesized(e, rest, noeval, st);
    } else {
      match e
      case Lit(v) => Lead(Num(v), rest);
      case Name(name) => Lead(Var(name), rest);
      case Paren(e1) =>
        assert Body(e) + rest == [Op(ARITH_LPAREN)] + (Print(e1, 12) + ([Op(ARITH_RPAREN)] + rest));
        Lead(Op(ARITH_LPAREN), Print(e1, 12) + ([Op(ARITH_RPAREN)] + rest));
        Lead(Op(ARITH_RPAREN), rest);
        AssignPrint(e1, [Op(ARITH_RPAREN)] + rest, noeval, st);
      case Prefix(code, e1) =>
        assert Body(e) + rest == [Op(code)] + (Print(e1, 0) + rest);
        Lead(Op(code), Print(e1, 0) + rest);
        PrimaryPrint(e1, rest, noeval, st);
    }
  }

  lemma {:induction false} Parenthesized(e: Expr, rest: seq<Tok>, noeval: bool, st: Store)
    ensures Primary([Op(ARITH_LPAREN)] + Body(e) + [Op(ARITH_RPAREN)] + rest, noeval, st, Zero)
         == Lift(Run(e, noeval, st), rest)
    decreases e, 0, 7
  {
    var l := Body(e) + ([Op(ARITH_RPAREN)] + rest);
    assert [Op(ARITH_LPAREN)] + Body(e) + [Op(ARITH_RPAREN)] + rest == [Op(ARITH_LPAREN)] + l;
    Lead(Op(ARITH_LPAREN), l);
    Lead(Op(ARITH_RPAREN), rest);
    AssignPrint(e, [Op(ARITH_RPAREN)] + rest, noeval, st);
  }

  /** Operands and binary operators: the climbing loop sees `e` as one value, whatever follows it. */
  lemma {:induction false} OperandPrint(e: Expr, lvl: nat, rest: seq<Tok>, prec: nat, noeval: bool, st: Store)
    requires lvl <= 8 && lvl <= prec
    requires IsBinop(Head(rest).Code()) ==> lvl <= Prec(Head(rest).Code()) + 1
    ensures Operand(Print(e, lvl) + rest, prec, noeval, st, Zero)
         == ClimbOn(Run(e, noeval, st), rest, prec, noeval)
    decreases e, if Level(e) > lvl then 1 else 0, 1
  {
    if Level(e) == 0 || Level(e) > lvl {
      PrimaryPrint(e, rest, noeval, st);
    } else {
      var Bin(op, l, r) := e;
      var k := Prec(op);
      var right := Print(r, k) + rest;
      assert Print(e, lvl) + rest == Print(l, k + 1) + ([Op(op)] + right);
      Lead(Op(op), right);
      OperandPrint(l, k + 1, [Op(op)] + right, prec, noeval, st);
      var a := Run(l, noeval, st);
      if a.Got? {
        OperandPrint(r, k, rest, k, noeval, a.st);
        BinRight(a, op, r, rest, prec, noeval);
      }
    }
  }

  lemma BinRight(a: Result, op: Binop, r: Expr, rest: seq<Tok>, prec: nat, noeval: bool)
    requires a.Got? && Prec(op) < prec
    requires Operand(Print(r, Prec(op)) + rest, Prec(op), noeval, a.st, Zero) == Lift(Run(r, noeval, a.st), rest)
    ensures Climb(a.v, [Op(op)] + (Print(r, Prec(op)) + rest), prec, noeval, a.st, Zero)
         == ClimbOn(Combine(op, a, Run(r, noeval, a.st), noeval), rest, prec, noeval)
  {
    Lead(Op(op), Print(r, Prec(op)) + rest);
  }

  /** `a && r && ...` may be grouped either way. */
  lemma AndRight(a: Result, r: Expr, rest: seq<Tok>, noeval: bool)
    requires a.Got? && Ends(rest, 8)
    requires var noeval' := noeval || a.v == 0;
             Operand(Print(r, 8) + rest, ARITH_MAX_PREC, noeval', a.st, Zero) == Lift(Run(r, noeval', a.st), rest)
    ensures var b := Run(r, noeval || a.v == 0, a.st);
              AndRest(Done(a.v, [Op(ARITH_AND)] + (Print(r, 8) + rest), a.st), noeval, Zero)
              == AndOn(if b.Failed? then b else Got(Bool(a.v != 0 && b.v != 0), b.st), rest, noeval)
  {
    var right, noeval' := Print(r, 8) + rest, noeval || a.v == 0;
    Lead(Op(ARITH_AND), right);
    var b := Run(r, noeval', a.st);
    if b.Got? {
      assert And(right, noeval', a.st, Zero) == AndRest(Done(b.v, rest, b.st), noeval', Zero);
      assert (noeval' || b.v == 0) == (noeval || Bool(a.v != 0 && b.v != 0) == 0);
    }
  }

  lemma OrRight(a: Result, r: Expr, rest: seq<Tok>, noeval: bool)
    requires a.Got? && Ends(rest, 9)
    requires var noeval' := noeval || a.v != 0;
             And(Print(r, 9) + rest, noeval', a.st, Zero) == AndOn(Run(r, noeval', a.st), rest, noeval')
    ensures var b := Run(r, noeval || a.v != 0, a.st);
              OrRest(Done(a.v, [Op(ARITH_OR)] + (Print(r, 9) + rest), a.st), noeval, Zero)
              == OrOn(if b.Failed? then b else Got(Bool(a.v != 0 || b.v != 0), b.st), rest, noeval)
  {
    var right, noeval' := Print(r, 9) + rest, noeval || a.v != 0;
    Lead(Op(ARITH_OR), right);
    var b := Run(r, noeval', a.st);
    if b.Got? {
      assert Or(right, noeval', a.st, Zero) == OrRest(Done(b.v, rest, b.st), noeval', Zero);
      assert (noeval' || b.v != 0) == (noeval || Bool(a.v != 0 || b.v != 0) != 0);
    }
  }

  lemma {:induction false} AndPrint(e: Expr, rest: seq<Tok>, noeval: bool, st: Store)
    requires Ends(rest, 8)
    ensures And(Print(e, 9) + rest, noeval, st, Zero) == AndOn(Run(e, noeval, st), rest, noeval)
    decreases e, if Level(e) > 9 then 1 else 0, 2
  {
    if Level(e) != 9 {
      OperandPrint(e, 8, rest, 8, noeval, st);
    } else {
      var AndE(l, r) := e;
      var right := Print(r, 8) + rest;
      assert Print(e, 9) + rest == Print(l, 9) + ([Op(ARITH_AND)] + right);
      Lead(Op(ARITH_AND), right);
      AndPrint(l, [Op(ARITH_AND)] + right, noeval, st);
      var a := Run(l, noeval, st);
      if a.Got? {
        OperandPrint(r, 8, rest, 8, noeval || a.v == 0, a.st);
        AndRight(a, r, rest, noeval);
      }
    }
  }

  lemma {:induction false} OrPrint(e: Expr, rest: seq<Tok>, noeval: bool, st: Store)
    requires Ends(rest, 9)
    ensures Or(Print(e, 10) + rest, noeval, st, Zero) == OrOn(Run(e, noeval, st), rest, noeval)
    decreases e, if Level(e) > 10 then 1 else 0, 3
  {
    if Level(e) != 10 {
      AndPrint(e, rest, noeval, st);
    } else {
      var OrE(l, r) := e;
      var right := Print(r, 9) + rest;
      assert Print(e, 10) + rest == Print(l, 10) + ([Op(ARITH_OR)] + right);
      Lead(Op(ARITH_OR), right);
      OrPrint(l, [Op(ARITH_OR)] + right, noeval, st);
      var a := Run(l, noeval, st);
      if a.Got? {
        AndPrint(r, rest, noeval || a.v != 0, a.st);
        OrRight(a, r, rest, noeval);
      }
    }
  }

  lemma {:induction false} CondPrint(e: Expr, rest: seq<Tok>, noeval: bool, st: Store)
    requires Ends(rest, 11)
    ensures Cond(Print(e, 11) + rest, noeval, st, Zero) == Lift(Run(e, noeval, st), rest)
    decreases e, if Level(e) > 11 then 1 else 0, 5
  {
    if Level(e) != 11 {
      OrPrint(e, rest, noeval, st);
    } else {
      CondBody(e, rest, noeval, st);
    }
  }

  lemma {:induction false} CondBody(e: Expr, rest: seq<Tok>, noeval: bool, st: Store)
    requires e.CondE? && Ends(rest, 11)
    ensures Cond(Body(e) + rest, noeval, st, Zero) == Lift(Run(e, noeval, st), rest)
    decreases e, 0, 4
  {
    var CondE(c, t, f) := e;
    var last := Print(f, 11) + rest;
    var right := Print(t, 12) + ([Op(ARITH_COLON)] + last);
    assert Body(e) + rest == Print(c, 10) + ([Op(ARITH_QMARK)] + right);
    hide Print, Body, Level, CondRest, Assignment;
    Lead(Op(ARITH_QMARK), right);
    Lead(Op(ARITH_COLON), last);
    OrPrint(c, [Op(ARITH_QMARK)] + right, noeval, st);
    var a := Run(c, noeval, st);
    if a.Got? {
      AssignPrint(t, [Op(ARITH_COLON)] + last, noeval || a.v == 0, a.st);
      var b := Run(t, noeval || a.v == 0, a.st);
      if b.Got? {
        CondPrint(f, rest, noeval || a.v != 0, b.st);
      }
    }
  }

  lemma {:induction false} AssignPrint(e: Expr, rest: seq<Tok>, noeval: bool, st: Store)
    requires Ends(rest, 12)
    ensures Assignment(Print(e, 12) + rest, noeval, st, Zero) == Lift(Run(e, noeval, st), rest)
    decreases e, 0, 6
  {
    if Level(e) != 12 {
      NoAssignment(e, 11, rest);
      CondPrint(e, rest, noeval, st);
    } else {
      var AssignE(name, code, e1) := e;
      var l := Print(e, 12) + rest;
      Glue3([Var(name)], [Op(code)], Print(e1, 12), rest);
      Lead(Var(name), [Op(code)] + (Print(e1, 12) + rest));
      Lead(Op(code), Print(e1, 12) + rest);
      AssignPrint(e1, rest, noeval, st);
    }
  }

  /** Only an assignment starts with a variable and an assignment operator. */
  lemma {:induction false} NoAssignment(e: Expr, lvl: nat, rest: seq<Tok>)
    requires lvl <= 11 && !IsAssign(Head(rest).Code())
    ensures var l := Print(e, lvl) + rest; Head(l).Var? ==> !IsAssign(Head(Tail(l)).Code())
    decreases e
  {
    if Level(e) <= lvl {
      match e
      case Name(name) => Lead(Var(name), rest);
      case Bin(op, l, r) =>
        Glue3(Print(l, Prec(op) + 1), [Op(op)], Print(r, Prec(op)), rest);
        NoAssignment(l, Prec(op) + 1, [Op(op)] + (Print(r, Prec(op)) + rest));
      case AndE(l, r) =>
        Glue3(Print(l, 9), [Op(ARITH_AND)], Print(r, 8), rest);
        NoAssignment(l, 9, [Op(ARITH_AND)] + (Print(r, 8) + rest));
      case OrE(l, r) =>
        Glue3(Print(l, 10), [Op(ARITH_OR)], Print(r, 9), rest);
        NoAssignment(l, 10, [Op(ARITH_OR)] + (Print(r, 9) + rest));
      case CondE(c, t, f) =>
        var right := Print(t, 12) + [Op(ARITH_COLON)] + Print(f, 11);
        assert Body(e) == Print(c, 10) + [Op(ARITH_QMARK)] + right;
        Glue3(Print(c, 10), [Op(ARITH_QMARK)], right, rest);
        NoAssignment(c, 10, [Op(ARITH_QMARK)] + (right + rest));
      case _ =>
    }
  }

  /** `arith` on the printed form of any expression gives its meaning, whatever the placeholders are. */
  lemma EvaluatePrinted(e: Expr, st: Store, junk: Junk)
    ensures Evaluate(Print(e, 12), st, junk) == Sem(e, st)
  {
    AssignPrint(e, [], false, st);
    assert Print(e, 12) + [] == Print(e, 12);
    RunIsSem(e, st);
    EvaluateSame(Print(e, 12), st, junk, Zero);
  }
}
