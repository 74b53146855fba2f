/** The "noeval" mode of the arithmetic evaluator: it reads the same tokens and does nothing else. */
module ArithNoeval {
  import opened IntmaxArith
  import opened Arith

  /**
   * A run `o` without evaluation next to a run `o2` on the same tokens in any mode: `o` fails only on bad
   * syntax, and then so does or would `o2`; otherwise `o` keeps the variables and stops at the same token.
   */
  predicate Alongside(o: Out, st: Store, o2: Out, noeval2: bool, st2: Store) {
    if o.Fail? then o.e == Syntax && o2.Fail? && (noeval2 ==> o2.e == Syntax)
    else
      && o.st == st
      && (o2.Done? ==> o2.rest == o.rest && (noeval2 ==> o2.st == st2))
      && (o2.Fail? ==> !noeval2 && o2.e != Syntax)
  }

  lemma {:induction false} PrimaryAlongside(l: seq<Tok>, st: Store, j: Junk, noeval2: bool, st2: Store, j2: Junk)
    ensures Alongside(Primary(l, true, st, j), st, Primary(l, noeval2, st2, j2), noeval2, st2)
    decreases |l|, 0
  {
    if l != [] && l[0].Op? {
      if l[0].op == ARITH_LPAREN {
        AssignmentAlongside(Tail(l), st, j, noeval2, st2, j2);
      } else if l[0].op in {ARITH_ADD, ARITH_SUB, ARITH_NOT, ARITH_BNOT} {
        PrimaryAlongside(Tail(l), st, j, noeval2, st2, j2);
      }
    }
  }

  lemma {:induction false} Binop2Alongside(a: Intmax, a2: Intmax, op: Binop, prec: nat, l: seq<Tok>,
                                           st: Store, j: Junk, noeval2: bool, st2: Store, j2: Junk)
    ensures Alongside(Binop2(a, op, prec, l, true, st, j), st, Binop2(a2, op, prec, l, noeval2, st2, j2), noeval2, st2)
    decreases |l|, 2
  {
    OperandAlongside(l, Prec(op), st, j, noeval2, st2, j2);
    var o, o2 := Operand(l, Prec(op), true, st, j), Operand(l, Prec(op), noeval2, st2, j2);
    if o.Done? {
      ClimbAlongside(o.v, o.v, o.rest, prec, st, j, true, st, j);
      var v := if o2.Fail? || noeval2 then Err(Syntax) else DoBinop(op, a2, o2.v);
      ClimbAlongside(o.v, if v.Ok? then v.v else if o2.Done? then o2.v else 0, o.rest, prec,
                     st, j, noeval2, if o2.Done? then o2.st else st2, j2);
    }
  }

  lemma {:induction false} ClimbAlongside(a: Intmax, a2: Intmax, l: seq<Tok>, prec: nat,
                                          st: Store, j: Junk, noeval2: bool, st2: Store, j2: Junk)
    ensures Alongside(Climb(a, l, prec, true, st, j), st, Climb(a2, l, prec, noeval2, st2, j2), noeval2, st2)
    decreases |l|, 0
  {
    if l != [] && IsBinop(l[0].Code()) && Prec(l[0].Code()) < prec {
      Binop2Alongside(a, a2, l[0].Code(), prec, Tail(l), st, j, noeval2, st2, j2);
    }
  }

  lemma {:induction false} OperandAlongside(l: seq<Tok>, prec: nat, st: Store, j: Junk, noeval2: bool, st2: Store, j2: Junk)
    ensures Alongside(Operand(l, prec, true, st, j), st, Operand(l, prec, noeval2, st2, j2), noeval2, st2)
    decreases |l|, 1
  {
    PrimaryAlongside(l, st, j, noeval2, st2, j2);
    var o, o2 := Primary(l, true, st, j), Primary(l, noeval2, st2, j2);
    if o.Done? {
      ClimbAlongside(o.v, o.v, o.rest, prec, st, j, true, st, j);
      if o2.Done? {
        ClimbAlongside(o.v, o2.v, o.rest, prec, st, j, noeval2, o2.st, j2);
      }
    }
  }

  lemma {:induction false} AndAlongside(l: seq<Tok>, st: Store, j: Junk, noeval2: bool, st2: Store, j2: Junk)
    ensures Alongside(And(l, true, st, j), st, And(l, noeval2, st2, j2), noeval2, st2)
    decreases |l|, 2
  {
    OperandAlongside(l, ARITH_MAX_PREC, st, j, noeval2, st2, j2);
    var o, o2 := Operand(l, ARITH_MAX_PREC, true, st, j), Operand(l, ARITH_MAX_PREC, noeval2, st2, j2);
    if o.Done? && Head(o.rest) == Op(ARITH_AND) {
      AndAlongside(Tail(o.rest), st, j, true, st, j);
      if o2.Done? {
        AndAlongside(Tail(o.rest), st, j, noeval2 || o2.v == 0, o2.st, j2);
      }
    }
  }

  lemma {:induction false} OrAlongside(l: seq<Tok>, st: Store, j: Junk, noeval2: bool, st2: Store, j2: Junk)
    ensures Alongside(Or(l, true, st, j), st, Or(l, noeval2, st2, j2), noeval2, st2)
    decreases |l|, 3
  {
    AndAlongside(l, st, j, noeval2, st2, j2);
    var o, o2 := And(l, true, st, j), And(l, noeval2, st2, j2);
    if o.Done? && Head(o.rest) == Op(ARITH_OR) {
      OrAlongside(Tail(o.rest), st, j, true, st, j);
      if o2.Done? {
        OrAlongside(Tail(o.rest), st, j, noeval2 || o2.v != 0, o2.st, j2);
      }
    }
  }

  lemma {:induction false} CondAlongside(l: seq<Tok>, st: Store, j: Junk, noeval2: bool, st2: Store, j2: Junk)
    ensures Alongside(Cond(l, true, st, j), st, Cond(l, noeval2, st2, j2), noeval2, st2)
    decreases |l|, 4
  {
    OrAlongside(l, st, j, noeval2, st2, j2);
    var a, a2 := Or(l, true, st, j), Or(l, noeval2, st2, j2);
    if a.Done? && Head(a.rest) == Op(ARITH_QMARK) {
      var l', noeval3 := Tail(a.rest), if a2.Done? then noeval2 || a2.v == 0 else true;
      var st3 := if a2.Done? then a2.st else st;
      AssignmentAlongside(l', st, j, true, st, j);
      AssignmentAlongside(l', st, j, noeval3, st3, j2);
      var b, b2 := Assignment(l', true, st, j), Assignment(l', noeval3, st3, j2);
      if b.Done? && Head(b.rest) == Op(ARITH_COLON) {
        CondAlongside(Tail(b.rest), st, j, true, st, j);
        if a2.Done? && b2.Done? {
          CondAlongside(Tail(b.rest), st, j, noeval2 || a2.v != 0, b2.st, j2);
        }
      }
    }
  }

  lemma {:induction false} AssignmentAlongside(l: seq<Tok>, st: Store, j: Junk, noeval2: bool, st2: Store, j2: Junk)
    ensures Alongside(Assignment(l, true, st, j), st, Assignment(l, noeval2, st2, j2), noeval2, st2)
    decreases |l|, 5
  {
    if Head(l).Var? && IsAssign(Head(Tail(l)).Code()) {
      AssignmentAlongside(Tail(Tail(l)), st, j, noeval2, st2, j2);
    } else {
      CondAlongside(l, st, j, noeval2, st2, j2);
    }
  }

  // ---------- The placeholders are never seen ----------

  lemma {:induction false} PrimarySame(l: seq<Tok>, st: Store, j: Junk, j2: Junk)
    ensures Primary(l, false, st, j) == Primary(l, false, st, j2)
    decreases |l|, 0
  {
    if l != [] && l[0].Op? {
      if l[0].op == ARITH_LPAREN {
        AssignmentSame(Tail(l), st, j, j2);
      } else if IsUnary(l[0].op) {
        PrimarySame(Tail(l), st, j, j2);
      }
    }
  }

  lemma {:induction false} ClimbSame(a: Intmax, l: seq<Tok>, prec: nat, st: Store, j: Junk, j2: Junk)
    ensures Climb(a, l, prec, false, st, j) == Climb(a, l, prec, false, st, j2)
    decreases |l|, 0
  {
    if l != [] && IsBinop(l[0].Code()) && Prec(l[0].Code()) < prec {
      var op, l' := l[0].Code(), Tail(l);
      OperandSame(l', Prec(op), st, j, j2);
      var b := Operand(l', Prec(op), false, st, j);
      if b.Done? {
        var v := DoBinop(op, a, b.v);
        if v.Ok? {
          ClimbSame(v.v, b.rest, prec, b.st, j, j2);
        }
      }
    }
  }

  lemma {:induction false} OperandSame(l: seq<Tok>, prec: nat, st: Store, j: Junk, j2: Junk)
    ensures Operand(l, prec, false, st, j) == Operand(l, prec, false, st, j2)
    decreases |l|, 1
  {
    PrimarySame(l, st, j, j2);
    var o := Primary(l, false, st, j);
    if o.Done? {
      ClimbSame(o.v, o.rest, prec, o.st, j, j2);
    }
  }

  lemma {:induction false} AndSame(l: seq<Tok>, st: Store, j: Junk, j2: Junk)
    ensures And(l, false, st, j) == And(l, false, st, j2)
    decreases |l|, 2
  {
    OperandSame(l, ARITH_MAX_PREC, st, j, j2);
    var o := Operand(l, ARITH_MAX_PREC, false, st, j);
    if o.Done? && Head(o.rest) == Op(ARITH_AND) {
      AndSame(Tail(o.rest), o.st, j, j2);
      AndAlongside(Tail(o.rest), o.st, j, true, o.st, j2);
    }
  }

  lemma {:induction false} OrSame(l: seq<Tok>, st: Store, j: Junk, j2: Junk)
    ensures Or(l, false, st, j) == Or(l, false, st, j2)
    decreases |l|, 3
  {
    AndSame(l, st, j, j2);
    var o := And(l, false, st, j);
    if o.Done? && Head(o.rest) == Op(ARITH_OR) {
      OrSame(Tail(o.rest), o.st, j, j2);
      OrAlongside(Tail(o.rest), o.st, j, true, o.st, j2);
    }
  }

  lemma {:induction false} CondSame(l: seq<Tok>, st: Store, j: Junk, j2: Junk)
    ensures Cond(l, false, st, j) == Cond(l, false, st, j2)
    decreases |l|, 4
  {
    OrSame(l, st, j, j2);
    var a := Or(l, false, st, j);
    if a.Done? && Head(a.rest) == Op(ARITH_QMARK) {
      AssignmentSame(Tail(a.rest), a.st, j, j2);
      AssignmentAlongside(Tail(a.rest), a.st, j, true, a.st, j2);
      var b := Assignment(Tail(a.rest), a.v == 0, a.st, j);
      if b.Done? && Head(b.rest) == Op(ARITH_COLON) {
        CondSame(Tail(b.rest), b.st, j, j2);
        CondAlongside(Tail(b.rest), b.st, j, true, b.st, j2);
      }
    }
  }

  lemma {:induction false} AssignmentSame(l: seq<Tok>, st: Store, j: Junk, j2: Junk)
    ensures Assignment(l, false, st, j) == Assignment(l, false, st, j2)
    decreases |l|, 5
  {
    if Head(l).Var? && IsAssign(Head(Tail(l)).Code()) {
      AssignmentSame(Tail(Tail(l)), st, j, j2);
    } else {
      CondSame(l, st, j, j2);
    }
  }

  /** On every list of tokens, correct or not, the outcome is the same for all placeholders. */
  lemma EvaluateSame(l: seq<Tok>, st: Store, j: Junk, j2: Junk)
    ensures Evaluate(l, st, j) == Evaluate(l, st, j2)
  {
    AssignmentSame(l, st, j, j2);
  }
}
