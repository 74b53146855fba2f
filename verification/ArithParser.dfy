/** The evaluator in its own form: recursive methods that update the lookahead and the variables. */
module ArithParser {
  import opened Chars
  import opened IntmaxArith
  import opened Arith

  /** The tokens from `t` on; Op(0) is delivered when the input has ended. */
  function From(t: Tok, l: seq<Tok>): seq<Tok> {
    if t == Op(0) then [] else [t] + l
  }

  class Parser {
    /** The tokens that `yylex` has not delivered yet. */
    var input: seq<Tok>
    var lastToken: Tok
    var store: Store
    const junk: Junk

    constructor (tokens: seq<Tok>, store: Store, junk: Junk)
      ensures input == tokens && this.store == store && this.junk == junk
    {
      this.input, this.lastToken, this.store, this.junk := tokens, Op(0), store, junk;
    }

    /** `t` is the latest token that `yylex` delivered. */
    ghost predicate Latest(t: Tok)
      reads this
    {
      Op(0) !in input && (t == Op(0) ==> input == [])
    }

    /** A method has done to the parser what `o` says and returned `r`. */
    ghost predicate Did(o: Out, r: Value)
      reads this
    {
      match o
      case Fail(e) => r == Err(e)
      case Done(v, rest, st) => r == Ok(v) && Latest(lastToken) && From(lastToken, input) == rest && store == st
    }

    method Yylex() returns (t: Tok)
      requires Op(0) !in input
      modifies this`input
      ensures Latest(t) && From(t, input) == old(input)
    {
      if input == [] {
        return Op(0);
      }
      t := input[0];
      input := input[1..];
    }

    method Primary(token0: Tok, op0: Tok, noeval: bool) returns (r: Value)
      requires Latest(op0) && (token0 == Op(0) ==> op0 == Op(0))
      modifies this
      ensures Did(Arith.Primary(From(token0, From(op0, old(input))), noeval, old(store), junk), r)
      decreases |From(token0, From(op0, input))|, 0
    {
      ghost var l := From(token0, From(op0, input));
      var token, op := token0, op0;
      while token == Op(ARITH_ADD)
        invariant Latest(op) && (token == Op(0) ==> op == Op(0)) && store == old(store)
        invariant |From(token, From(op, input))| <= |l|
        invariant Arith.Primary(From(token, From(op, input)), noeval, store, junk) == Arith.Primary(l, noeval, store, junk)
        decreases |From(token, From(op, input))|
      {
        token := op;
        op := Yylex();
      }
      if token == Op(ARITH_LPAREN) {
        r := Group(op, noeval);
      } else if token.Num? {
        lastToken := op;
        return Ok(token.v);
      } else if token.Var? {
        lastToken := op;
        return if noeval then Ok(junk(token.name, From(op, input))) else Lookup(store, token.name);
      } else if IsUnary(token.op) {
        var next := Yylex();
        r := Primary(op, next, noeval);
        if r.Ok? {
          r := Ok(Unary(token.op, r.v));
        }
      } else {
        return Err(Syntax);
      }
    }

    /** The rest of a parenthesized expression, with `op` its first token. */
    method Group(op: Tok, noeval: bool) returns (r: Value)
      requires Latest(op)
      modifies this
      ensures Did(Arith.Group(From(op, old(input)), noeval, old(store), junk), r)
      decreases |From(op, input)|, 8
    {
      r := Assignment(op, noeval);
      if r.Err? {
        return;
      }
      if lastToken != Op(ARITH_RPAREN) {
        return Err(Syntax);
      }
      lastToken := Yylex();
    }

    /** The operand behind `op`, with all operators that bind tighter than `op`. */
    method RightOperand(op: Binop, noeval: bool) returns (r: Value)
      requires Op(0) !in input
      modifies this
      ensures Did(Arith.Operand(old(input), Prec(op), noeval, old(store), junk), r)
      decreases |input|, 1
    {
      var token := Yylex();
      var next := Yylex();
      r := Primary(token, next, noeval);
      if r.Err? {
        return;
      }
      var op2 := lastToken.Code();
      if IsBinop(op2) && Prec(op2) < Prec(op) {
        r := Binop2(r.v, op2, Prec(op), noeval);
      }
    }

    method Binop2(a0: Intmax, op0: Binop, prec: nat, noeval: bool) returns (r: Value)
      requires Op(0) !in input
      modifies this
      ensures Did(Arith.Binop2(a0, op0, prec, old(input), noeval, old(store), junk), r)
      decreases |input|, 3
    {
      var a: Intmax, op: Binop := a0, op0;
      ghost var l := input;
      while true
        invariant Op(0) !in input && |input| <= |l|
        invariant Arith.Binop2(a0, op0, prec, l, noeval, old(store), junk) == Arith.Binop2(a, op, prec, input, noeval, store, junk)
        decreases |input|
      {
        r := RightOperand(op, noeval);
        if r.Err? {
          return;
        }
        var b, op2 := r.v, lastToken.Code();
        r := if noeval then Ok(b) else DoBinop(op, a, b);
        if r.Err? {
          return;
        }
        a := r.v;
        if !IsBinop(op2) || Prec(op2) >= prec {
          return;
        }
        op := op2;
      }
    }

    method Binop(token: Tok, op: Tok, noeval: bool) returns (r: Value)
      requires Latest(op) && (token == Op(0) ==> op == Op(0))
      modifies this
      ensures Did(Arith.Operand(From(token, From(op, old(input))), ARITH_MAX_PREC, noeval, old(store), junk), r)
      decreases |From(token, From(op, input))|, 1
    {
      r := Primary(token, op, noeval);
      if r.Err? {
        return;
      }
      if !IsBinop(lastToken.Code()) {
        return;
      }
      r := Binop2(r.v, lastToken.Code(), ARITH_MAX_PREC, noeval);
    }

    method And(token: Tok, op: Tok, noeval: bool) returns (r: Value)
      requires Latest(op) && (token == Op(0) ==> op == Op(0))
      modifies this
      ensures Did(Arith.And(From(token, From(op, old(input))), noeval, old(store), junk), r)
      decreases |From(token, From(op, input))|, 2
    {
      r := Binop(token, op, noeval);
      if r.Err? {
        return;
      }
      if lastToken != Op(ARITH_AND) {
        return;
      }
      var a := r.v;
      var token := Yylex();
      var next := Yylex();
      r := And(token, next, noeval || a == 0);
      if r.Ok? {
        r := Ok(Bool(a != 0 && r.v != 0));
      }
    }

    method Or(token: Tok, op: Tok, noeval: bool) returns (r: Value)
      requires Latest(op) && (token == Op(0) ==> op == Op(0))
      modifies this
      ensures Did(Arith.Or(From(token, From(op, old(input))), noeval, old(store), junk), r)
      decreases |From(token, From(op, input))|, 4
    {
      r := And(token, op, noeval);
      if r.Err? {
        return;
      }
      if lastToken != Op(ARITH_OR) {
        return;
      }
      var a := r.v;
      var token := Yylex();
      var next := Yylex();
      r := Or(token, next, noeval || a != 0);
      if r.Ok? {
        r := Ok(Bool(a != 0 || r.v != 0));
      }
    }

    method Cond(token: Tok, op: Tok, noeval: bool) returns (r: Value)
      requires Latest(op) && (token == Op(0) ==> op == Op(0))
      modifies this
      ensures Did(Arith.Cond(From(token, From(op, old(input))), noeval, old(store), junk), r)
      decreases |From(token, From(op, input))|, 6
    {
      r := Or(token, op, noeval);
      if r.Err? {
        return;
      }
      if lastToken != Op(ARITH_QMARK) {
        return;
      }
      var a := r.v;
      var token := Yylex();
      r := Assignment(token, noeval || a == 0);
      if r.Err? {
        return;
      }
      var b := r.v;
      if lastToken != Op(ARITH_COLON) {
        return Err(Syntax);
      }
      token := Yylex();
      var next := Yylex();
      r := Cond(token, next, noeval || a != 0);
      if r.Ok? && a != 0 {
        r := Ok(b);
      }
    }

    method Assignment(token: Tok, noeval: bool) returns (r: Value)
      requires Latest(token)
      modifies this
      ensures Did(Arith.Assignment(From(token, old(input)), noeval, old(store), junk), r)
      decreases |From(token, input)|, 7
    {
      var op := Yylex();
      if !token.Var? || !IsAssign(op.Code()) {
        r := Cond(token, op, noeval);
        return;
      }
      var next := Yylex();
      r := Assignment(next, noeval);
      if r.Err? || noeval {
        return;
      }
      var v := r.v;
      if op.Code() != ARITH_ASS {
        var was := Lookup(store, token.name);
        if was.Err? {
          return was;
        }
        r := DoBinop(AssignedOp(op.Code()), was.v, v);
        if r.Err? {
          return;
        }
        v := r.v;
      }
      r := StoreVar(token.name, v);
    }

    /** `setvarint` */
    method StoreVar(name: string, v: Intmax) returns (r: Value)
      modifies this`store
      ensures match SetVar(old(store), name, v)
              case Got(w, st) => r == Ok(w) && store == st
              case Failed(e) => r == Err(e)
    {
      if name in store.readonly {
        return Err(ReadOnly);
      }
      store := store.(vars := store.vars[name := Some(v)]);
      r := Ok(v);
    }

    /** `arith`: the value of the whole input and the variables it leaves. */
    method Run() returns (r: Value)
      requires Op(0) !in input
      modifies this
      ensures match Evaluate(old(input), old(store), junk)
              case Got(v, st) => r == Ok(v) && store == st
              case Failed(e) => r == Err(e)
    {
      var token := Yylex();
      r := Assignment(token, false);
      if r.Ok? {
        if lastToken.Code() != 0 {
          r := Err(Syntax);
        }
      }
    }
  }

}
