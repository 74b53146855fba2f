/** The evaluator itself (src/eval.c): what is left to skip is in global flags and counters. */
module ControlFlags {
  import opened Chars
  import opened Control

  const SKIPBREAK := 1
  const SKIPCONT := 2
  const SKIPFUNCNR := 4
  const SKIPFUNCR := 8

  predicate IsSkipFunc(skip: int) { skip == SKIPFUNCNR || skip == SKIPFUNCR }

  /** How an evaluator function leaves: it returns, raises an error, or runs out of fuel. */
  datatype End = Done | Error | OutOfFuel

  /** What is left to skip. */
  datatype Flags = Flags(evalskip: int, skipcount: int, loopnest: int)

  /** The flags and counters show the outcome `o` inside `depth` loops. */
  ghost predicate Shows(f: Flags, o: Outcome, depth: int, end: End) {
    match o
    case Normal => end == Done && f.evalskip == 0 && f.loopnest == depth
    case Breaking(k) => end == Done && f == Flags(SKIPBREAK, k, depth) && k >= 1
    case Continuing(k) => end == Done && f == Flags(SKIPCONT, k, depth) && k >= 1
    case Returning(valued) =>
      end == Done && f.evalskip == (if valued then SKIPFUNCR else SKIPFUNCNR) && f.loopnest == depth
    case Raised => end == Error && f.evalskip == 0
    case Timeout => end == OutOfFuel
  }

  lemma LeaveSame(o: Outcome)
    ensures !o.Breaking? && !o.Continuing? ==> Leave(o) == o && (GoesOn(o) <==> o == Normal)
  {
  }

  lemma ShowsNormal(f: Flags, depth: int)
    requires f.evalskip == 0 && f.loopnest == depth
    ensures Shows(f, Normal, depth, Done)
  {
  }

  class Evaluator {
    var evalskip: int
    var skipcount: int
    var loopnest: int
    var exitstatus: int
    var inputs: seq<int>
    var trace: seq<Event>
    var funcs: map<int, Node>

    constructor ()
      ensures evalskip == 0 && loopnest == 0 && Now() == World(0, [], [], map[])
    {
      evalskip, skipcount, loopnest, exitstatus, inputs, trace, funcs := 0, 0, 0, 0, [], [], map[];
    }

    ghost function Now(): World
      reads this
    {
      World(exitstatus, inputs, trace, funcs)
    }

    ghost function Left(): Flags
      reads this
    {
      Flags(evalskip, skipcount, loopnest)
    }

    /** The evaluator has come to the result `r`. */
    ghost predicate Did(r: Result, depth: int, end: End)
      reads this
    {
      Shows(Left(), r.o, depth, end) && (end != OutOfFuel ==> Now() == r.w)
    }

    method Next() returns (i: int)
      modifies `inputs
      ensures i == Input(old(Now())) && Now() == Rest(old(Now()))
    {
      i := if inputs == [] then 0 else inputs[0];
      inputs := if inputs == [] then [] else inputs[1..];
    }

    /** `skiploop` */
    method SkipLoop(ghost o: Outcome, ghost depth: int) returns (skip: int)
      requires Shows(Left(), o, depth, Done)
      modifies `evalskip, `skipcount
      ensures skip == 0 <==> o == Normal
      ensures skip == 0 || skip == SKIPCONT <==> GoesOn(o)
      ensures IsSkipFunc(skip) <==> o.Returning?
      ensures Shows(Left(), Leave(o), depth, Done) && (GoesOn(o) ==> evalskip == 0)
    {
      skip := evalskip;
      if skip == SKIPBREAK || skip == SKIPCONT {
        skipcount := skipcount - 1;
        if skipcount <= 0 {
          evalskip := 0;
        } else {
          skip := SKIPBREAK;
        }
      }
    }

    /** The end of a loop. */
    method EndLoop(status: int, ghost o: Outcome, ghost depth: int)
      requires Shows(Left(), o, depth + 1, Done)
      modifies `loopnest, `exitstatus
      ensures Did(Result(old(Now()).(status := status), o), depth, Done)
    {
      loopnest := loopnest - 1;
      exitstatus := status;
    }

    /** `breakcmd` */
    method BreakCmd(n: int, continues: bool, ghost fuel: nat) returns (end: End)
      requires evalskip == 0 && loopnest >= 0
      modifies this
      ensures Did(Eval(if continues then Continue(n) else Break(n), old(Now()), old(loopnest), fuel), old(loopnest), end)
    {
      if n <= 0 {
        exitstatus := 2;
        return Error;
      }
      var k := if n > loopnest then loopnest else n;
      if k > 0 {
        evalskip := if continues then SKIPCONT else SKIPBREAK;
        skipcount := k;
      }
      exitstatus := 0;
      end := Done;
    }

    /** `returncmd` */
    method ReturnCmd(value: Option<int>, ghost fuel: nat)
      requires evalskip == 0 && loopnest >= 0
      modifies this
      ensures Did(Eval(Return(value), old(Now()), old(loopnest), fuel), old(loopnest), Done)
    {
      var status;
      if value.Some? {
        status := value.value;
        evalskip := SKIPFUNCR;
      } else {
        status := exitstatus;
        evalskip := SKIPFUNCNR;
      }
      exitstatus := status;
    }

    /** Commands that run nothing else. */
    method EvalLeaf(n: Node, ghost fuel: nat) returns (end: End)
      requires evalskip == 0 && loopnest >= 0 && n.IsLeaf()
      modifies this
      ensures Did(Eval(n, old(Now()), old(loopnest), fuel), old(loopnest), end)
    {
      end := Done;
      match n {
        case Null =>
        case Simple(id) =>
          exitstatus := Next();
          trace := trace + [Ran(id)];
        case Break(k) =>
          end := BreakCmd(k, false, fuel);
        case Continue(k) =>
          end := BreakCmd(k, true, fuel);
        case Return(value) =>
          ReturnCmd(value, fuel);
        case Define(name, body) =>
          funcs := funcs[name := body];
          exitstatus := 0;
        case Raise =>
          exitstatus := 2;
          end := Error;
      }
    }

    /** `evaltree`: every kind of command. */
    method EvalTree(n: Node, fuel: nat) returns (end: End)
      requires evalskip == 0 && loopnest >= 0
      modifies this
      ensures Did(Eval(n, old(Now()), old(loopnest), fuel), old(loopnest), end)
      ensures n.Call? && end == Done ==> evalskip == 0 && loopnest == old(loopnest)
      decreases fuel, n, 1
    {
      hide EvalLoop, EvalFor, EvalCase, EvalText;
      match n {
        case Not(a) =>
          end := EvalTree(a, fuel);
          if end == Done && (evalskip == 0 || evalskip == SKIPBREAK || evalskip == SKIPCONT) {
            exitstatus := if exitstatus == 0 then 1 else 0;
          }
        case Binary(op, a, b) =>
          end := EvalTree(a, fuel);
          if end == Done && !((op == And && exitstatus != 0) || (op == Or && exitstatus == 0) || evalskip != 0) {
            end := EvalTree(b, fuel);
          }
        case If(test, yes, no) =>
          end := EvalIf(test, yes, no, fuel);
        case Loop(until, test, body) =>
          end := LoopTree(until, test, body, fuel);
        case For(words, body) =>
          end := ForTree(words, body, fuel);
        case Case(clauses) =>
          end := CaseTree(clauses, fuel);
        case Call(name) =>
          if name in funcs {
            end := CallFunction(name, fuel);
          } else {
            exitstatus := 127;
            end := Done;
          }
        case Text(commands) =>
          end := EvalString(commands, fuel);
        case Dot(commands) =>
          end := EvalString(commands, fuel);
          if end == Done && IsSkipFunc(evalskip) {
            evalskip := 0;
          }
        case _ =>
          end := EvalLeaf(n, fuel);
      }
    }

    /** NIF */
    method EvalIf(test: Node, yes: Node, no: Node, fuel: nat) returns (end: End)
      requires evalskip == 0 && loopnest >= 0
      modifies this
      ensures Did(Eval(If(test, yes, no), old(Now()), old(loopnest), fuel), old(loopnest), end)
      decreases fuel, If(test, yes, no), 0
    {
      hide EvalLoop, EvalFor, EvalCase, EvalText;
      end := EvalTree(test, fuel);
      if end != Done || evalskip != 0 {
        return;
      }
      if exitstatus == 0 {
        end := EvalTree(yes, fuel);
      } else if no != Null {
        end := EvalTree(no, fuel);
      } else {
        exitstatus := 0;
      }
    }

    lemma DidTimeout(w: World, depth: int)
      ensures Did(Result(w, Timeout), depth, OutOfFuel)
    {
    }

    /** Running a part of a loop, and `skiploop` behind it. */
    method InLoop(n: Node, ghost depth: nat, fuel: nat) returns (end: End, skip: int)
      requires evalskip == 0 && loopnest == depth + 1
      modifies this
      ensures var r := Eval(n, old(Now()), depth + 1, fuel);
              if end != Done then (r.o.Raised? || r.o.Timeout?) && Did(r, depth, end)
              else
                && Now() == r.w && Shows(Left(), Leave(r.o), depth + 1, Done) && loopnest == depth + 1
                && !r.o.Raised? && !r.o.Timeout? && (skip == 0 <==> r.o == Normal)
                && (skip == 0 || skip == SKIPCONT <==> GoesOn(r.o)) && (GoesOn(r.o) ==> evalskip == 0)
                && (IsSkipFunc(skip) <==> r.o.Returning?)
      decreases fuel, n, 2
    {
      hide Eval;
      ghost var r := Eval(n, Now(), depth + 1, fuel);
      skip := 0;
      end := EvalTree(n, fuel);
      if end == Done {
        skip := SkipLoop(r.o, depth + 1);
      }
    }

    /** One turn of `evalloop`: whether another follows, and the status of the loop so far. */
    method LoopTurn(until: bool, test: Node, body: Node, ghost depth: nat, status: int, fuel: nat)
      returns (end: End, more: bool, status': int, ghost o: Outcome)
      requires evalskip == 0 && loopnest == depth + 1
      modifies this
      ensures end == Done ==> loopnest == depth + 1 && (more ==> evalskip == 0)
      ensures var turn := EvalTurn(until, test, body, old(Now()), depth, status, fuel);
              if end != Done then turn.Ends? && Did(turn.r, depth, end)
              else if more then turn == Again(Now(), status')
              else turn == Ends(Result(Now().(status := status'), o)) && Shows(Left(), o, depth + 1, Done)
      decreases fuel, Loop(until, test, body), 3
    {
      hide Eval, EvalTurn, Shows, Leave, GoesOn, IsSkipFunc, Did;
      ghost var t := Eval(test, Now(), depth + 1, fuel);
      TurnSkips(until, test, body, Now(), depth, status, fuel);
      TurnTests(until, test, body, Now(), depth, status, fuel);
      LeaveSame(t.o);
      var skip;
      status', more, o := status, false, Normal;
      end, skip := InLoop(test, depth, fuel);
      if end != Done {
        return;
      }
      o := Leave(t.o);
      if IsSkipFunc(skip) {
        status' := exitstatus;
      }
      if skip != 0 {
        more := skip == SKIPCONT;
      } else if (exitstatus == 0) != until {
        ghost var b := Eval(body, Now(), depth + 1, fuel);
        LeaveSame(b.o);
        end, skip := InLoop(body, depth, fuel);
        if end == Done {
          status', o := exitstatus, Leave(b.o);
          more := skip == 0 || skip == SKIPCONT;
        }
      }
    }

    /** `evalloop` */
    method LoopTree(until: bool, test: Node, body: Node, fuel: nat) returns (end: End)
      requires evalskip == 0 && loopnest >= 0
      modifies this
      ensures Did(EvalLoop(until, test, body, old(Now()), old(loopnest), 0, fuel), old(loopnest), end)
      decreases fuel, body, 3
    {
      hide Eval, EvalLoop, EvalTurn, Shows, Did;
      var status := 0;
      var left: nat := fuel;
      var more := true;
      ghost var w, depth: nat := Now(), loopnest;
      ghost var o := Normal;
      loopnest := loopnest + 1;
      while more
        invariant loopnest == depth + 1 && depth == old(loopnest) && left <= fuel && (more ==> evalskip == 0)
        invariant more ==>
                    EvalLoop(until, test, body, w, depth, 0, fuel) == EvalLoop(until, test, body, Now(), depth, status, left)
        invariant !more ==>
                    && EvalLoop(until, test, body, w, depth, 0, fuel) == Result(Now().(status := status), o)
                    && Shows(Left(), o, depth + 1, Done)
        decreases more, left
      {
        LoopStep(until, test, body, Now(), depth, status, left);
        if left == 0 {
          DidTimeout(Now(), depth);
          return OutOfFuel;
        }
        left := left - 1;
        end, more, status, o := LoopTurn(until, test, body, depth, status, left);
        if end != Done {
          return;
        }
      }
      EndLoop(status, o, depth);
      end := Done;
    }

    /** `evalfor` */
    method ForTree(words: seq<int>, body: Node, fuel: nat) returns (end: End)
      requires evalskip == 0 && loopnest >= 0
      modifies this
      ensures Did(EvalFor(words, body, old(Now()), old(loopnest), 0, fuel), old(loopnest), end)
      decreases fuel, body, 3
    {
      hide Eval, EvalFor, Shows, Leave, GoesOn;
      var status := 0;
      var list := words;
      ghost var w, depth: nat := Now(), loopnest;
      ghost var o := Normal;
      loopnest := loopnest + 1;
      ShowsNormal(Left(), depth + 1);
      while list != []
        invariant evalskip == 0 && loopnest == depth + 1 && depth == old(loopnest)
        invariant o == Normal && Shows(Left(), o, depth + 1, Done)
        invariant EvalFor(words, body, w, depth, 0, fuel) == EvalFor(list, body, Now(), depth, status, fuel)
        decreases |list|
      {
        ForStep(list, body, Now(), depth, status, fuel);
        trace := trace + [Assigned(list[0])];
        o := Leave(Eval(body, Now(), depth + 1, fuel).o);
        LeaveSame(Eval(body, Now(), depth + 1, fuel).o);
        var skip;
        end, skip := InLoop(body, depth, fuel);
        if end != Done {
          return;
        }
        status := exitstatus;
        list := list[1..];
        if skip != 0 && skip != SKIPCONT {
          break;
        }
        ShowsNormal(Left(), depth + 1);
        o := Normal;
      }
      ForStep([], body, Now(), depth, status, fuel);
      EndLoop(status, o, depth);
      end := Done;
    }

    /** `evalcase` */
    method CaseTree(clauses: Clauses, fuel: nat) returns (end: End)
      requires evalskip == 0 && loopnest >= 0
      modifies this
      ensures var w, depth := old(Now()), old(loopnest);
              Did(if Input(w) < 0 then Result(Rest(w).(status := 0), Normal)
                  else EvalCase(clauses, Input(w), Rest(w), depth, 0, fuel), depth, end)
      decreases fuel, clauses
    {
      hide Eval;
      var skip := Next();
      var status := 0;
      end := Done;
      if skip >= 0 {
        var cp := clauses;
        ghost var w, depth: nat := Now(), loopnest;
        while cp.Clause? && skip > 0
          invariant evalskip == 0 && loopnest == depth == old(loopnest) && Now() == w && skip >= 0
          invariant EvalCase(clauses, Input(old(Now())), w, depth, 0, fuel) == EvalCase(cp, skip, w, depth, 0, fuel)
          invariant cp == clauses || cp < clauses
          decreases cp
        {
          cp, skip := cp.rest, skip - 1;
        }
        while cp.Clause?
          invariant end == Done && evalskip == 0 && loopnest == depth == old(loopnest)
          invariant EvalCase(clauses, Input(old(Now())), w, depth, 0, fuel) == EvalCase(cp, 0, Now(), depth, status, fuel)
          invariant cp == clauses || cp < clauses
          decreases cp
        {
          if cp.body != Null {
            end := EvalTree(cp.body, fuel);
            if end != Done {
              return;
            }
            status := exitstatus;
            if evalskip != 0 {
              break;
            }
          }
          if !cp.falls {
            break;
          }
          cp := cp.rest;
        }
      }
      exitstatus := status;
    }

    /** `evalfun` */
    method CallFunction(name: int, fuel: nat) returns (end: End)
      requires evalskip == 0 && loopnest >= 0 && name in funcs
      modifies this
      ensures Did(Eval(Call(name), old(Now()), old(loopnest), fuel), old(loopnest), end)
      ensures end == Done ==> evalskip == 0 && loopnest == old(loopnest)
      decreases fuel, Call(name), 0
    {
      CallContains(name, Now(), loopnest, 0, fuel);
      if fuel == 0 {
        return OutOfFuel;
      }
      hide EvalLoop, EvalFor, EvalCase, EvalText;
      var saveloopnest := loopnest;
      loopnest := 0;
      end := EvalTree(funcs[name], fuel - 1);
      loopnest := saveloopnest;
      if IsSkipFunc(evalskip) {
        evalskip := 0;
      }
    }

    /** `evalstring`, and the loop that reads a file: commands until the end, or until something is to be skipped. */
    method EvalString(commands: Nodes, fuel: nat) returns (end: End)
      requires evalskip == 0 && loopnest >= 0
      modifies this
      ensures Did(EvalText(commands, old(Now()), old(loopnest), 0, fuel), old(loopnest), end)
      decreases fuel, commands
    {
      hide Eval;
      var status := 0;
      var rest := commands;
      ghost var w, depth: nat := Now(), loopnest;
      while rest.Nodes?
        invariant evalskip == 0 && loopnest == depth == old(loopnest)
        invariant EvalText(commands, w, depth, 0, fuel) == EvalText(rest, Now(), depth, status, fuel)
        invariant rest == commands || rest < commands
        decreases rest
      {
        NullDoesNothing(Now(), depth, fuel);
        end := EvalTree(rest.head, fuel);
        if end != Done {
          return;
        }
        if rest.head != Null {
          status := exitstatus;
        }
        if evalskip != 0 {
          break;
        }
        rest := rest.tail;
      }
      exitstatus := status;
      end := Done;
    }

    /** A command of the main loop: whatever it does, nothing is left to skip behind it. */
    method TopLevel(n: Node, fuel: nat) returns (end: End)
      requires evalskip == 0 && loopnest == 0
      modifies this
      ensures var r := Eval(n, old(Now()), 0, fuel);
              if r.o == Timeout then end == OutOfFuel else end != OutOfFuel && Now() == r.w && (end == Error <==> r.o == Raised)
      ensures end != OutOfFuel ==> evalskip == 0 && loopnest == 0
    {
      hide Eval;
      AlwaysPending(n, Now(), 0, fuel);
      end := EvalTree(n, fuel);
      if end == Error {
        evalskip, loopnest := 0, 0;
      } else if IsSkipFunc(evalskip) {
        evalskip := 0;
      }
    }
  }
}
