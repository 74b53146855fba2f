/** Control flow of commands: loops, `break`, `continue`, `return` and functions (src/eval.c), as outcomes. */
module Control {
  import opened Chars

  datatype Operator = And | Or | Semi

  /** Commands. `Null` is the missing command; `Text` is what `eval` reads, `Dot` a file read by `.`. */
  datatype Node =
    | Null
    | Simple(id: int)
    | Break(n: int)
    | Continue(n: int)
    | Return(value: Option<int>)
    | Not(command: Node)
    | Binary(op: Operator, first: Node, second: Node)
    | If(test: Node, yes: Node, no: Node)
    | Loop(until: bool, test: Node, body: Node)
    | For(words: seq<int>, body: Node)
    | Case(clauses: Clauses)
    | Define(name: int, body: Node)
    | Call(name: int)
    | Text(commands: Nodes)
    | Dot(commands: Nodes)
    | Raise
  {
    predicate IsLeaf() { Null? || Simple? || Break? || Continue? || Return? || Define? || Raise? }
  }

  datatype Nodes = NoNodes | Nodes(head: Node, tail: Nodes)

  datatype Clauses = NoClauses | Clause(body: Node, falls: bool, rest: Clauses)

  /** What commands do: programs take their statuses, and `case` its choices, from `inputs`. */
  datatype Event = Ran(id: int) | Assigned(word: int)

  datatype World = World(status: int, inputs: seq<int>, trace: seq<Event>, funcs: map<int, Node>)

  function Input(w: World): int {
    if w.inputs == [] then 0 else w.inputs[0]
  }

  function Rest(w: World): World {
    w.(inputs := if w.inputs == [] then [] else w.inputs[1..])
  }

  /** How a command ends. `Breaking(k)` still has `k` loops to leave; `Timeout` has used up its fuel. */
  datatype Outcome = Normal | Breaking(k: int) | Continuing(k: int) | Returning(valued: bool) | Raised | Timeout

  datatype Result = Result(w: World, o: Outcome)

  /** What is left of an outcome outside the loop that it ends. */
  function Leave(o: Outcome): Outcome {
    match o
    case Breaking(k) => if k > 1 then Breaking(k - 1) else Normal
    case Continuing(k) => if k > 1 then Continuing(k - 1) else Normal
    case _ => o
  }

  /** The next turn of a loop follows. */
  predicate GoesOn(o: Outcome) { o == Normal || (o.Continuing? && o.k <= 1) }

  function Min(a: int, b: int): int { if a < b then a else b }

  /** The meaning of a command inside `depth` loops of the current function. */
  function Eval(n: Node, w: World, depth: nat, fuel: nat): Result
    decreases fuel, n, 0
  {
    match n
    case Null => Result(w, Normal)
    case Simple(id) => Result(Rest(w).(status := Input(w), trace := w.trace + [Ran(id)]), Normal)
    case Break(k) =>
      if k <= 0 then Result(w.(status := 2), Raised)
      else Result(w.(status := 0), if depth > 0 then Breaking(Min(k, depth)) else Normal)
    case Continue(k) =>
      if k <= 0 then Result(w.(status := 2), Raised)
      else Result(w.(status := 0), if depth > 0 then Continuing(Min(k, depth)) else Normal)
    case Return(value) => Result(w.(status := if value.Some? then value.value else w.status), Returning(value.Some?))
    case Not(a) =>
      var r := Eval(a, w, depth, fuel);
      if r.o.Normal? || r.o.Breaking? || r.o.Continuing?
      then Result(r.w.(status := if r.w.status == 0 then 1 else 0), r.o) else r
    case Binary(op, a, b) =>
      var r := Eval(a, w, depth, fuel);
      if r.o != Normal || (op == And && r.w.status != 0) || (op == Or && r.w.status == 0) then r
      else Eval(b, r.w, depth, fuel)
    case If(test, yes, no) =>
      var r := Eval(test, w, depth, fuel);
      if r.o != Normal then r
      else if r.w.status == 0 then Eval(yes, r.w, depth, fuel)
      else if no != Null then Eval(no, r.w, depth, fuel)
      else Result(r.w.(status := 0), Normal)
    case Loop(until, test, body) => EvalLoop(until, test, body, w, depth, 0, fuel)
    case For(words, body) => EvalFor(words, body, w, depth, 0, fuel)
    case Case(clauses) => if Input(w) < 0 then Result(Rest(w).(status := 0), Normal)
                          else EvalCase(clauses, Input(w), Rest(w), depth, 0, fuel)
    case Define(name, body) => Result(w.(status := 0, funcs := w.funcs[name := body]), Normal)
    case Call(name) =>
      if name !in w.funcs then Result(w.(status := 127), Normal)
      else if fuel == 0 then Result(w, Timeout)
      else Returned(Eval(w.funcs[name], w, 0, fuel - 1))
    case Text(commands) => EvalText(commands, w, depth, 0, fuel)
    case Dot(commands) => Returned(EvalText(commands, w, depth, 0, fuel))
    case Raise => Result(w.(status := 2), Raised)
  }

  /** `return` ends at a function or a file. */
  function Returned(r: Result): Result {
    if r.o.Returning? then Result(r.w, Normal) else r
  }

  /** One turn of a loop: another follows, or the loop ends. */
  datatype Turn = Again(w: World, status: int) | Ends(r: Result)

  /** A turn of `while` or `until`; `status` is what the loop returns if its test ends it. */
  function EvalTurn(until: bool, test: Node, body: Node, w: World, depth: nat, status: int, fuel: nat): Turn
    decreases fuel, Loop(until, test, body), 0
  {
    var t := Eval(test, w, depth + 1, fuel);
    match t.o
    case Normal => if (t.w.status == 0) == until then Ends(Result(t.w.(status := status), Normal))
                   else BodyTurn(body, t.w, depth, fuel)
    case Breaking(k) => Ends(Result(t.w.(status := status), Leave(t.o)))
    case Continuing(k) => if k <= 1 then Again(t.w, status) else Ends(Result(t.w.(status := status), Leave(t.o)))
    case Returning(_) => Ends(t)
    case Raised => Ends(t)
    case Timeout => Ends(t)
  }

  function BodyTurn(body: Node, w: World, depth: nat, fuel: nat): Turn
    decreases fuel, body, 1
  {
    var b := Eval(body, w, depth + 1, fuel);
    if GoesOn(b.o) then Again(b.w, b.w.status) else Ends(Result(b.w, Leave(b.o)))
  }

  function EvalLoop(until: bool, test: Node, body: Node, w: World, depth: nat, status: int, fuel: nat): Result
    decreases fuel, body, 1
  {
    if fuel == 0 then Result(w, Timeout)
    else
      match EvalTurn(until, test, body, w, depth, status, fuel - 1)
      case Again(w', status') => EvalLoop(until, test, body, w', depth, status', fuel - 1)
      case Ends(r) => r
  }

  /** A turn whose test is skipped out of, or fails. */
  lemma TurnSkips(until: bool, test: Node, body: Node, w: World, depth: nat, status: int, fuel: nat)
    ensures var t := Eval(test, w, depth + 1, fuel);
            t.o != Normal ==>
              EvalTurn(until, test, body, w, depth, status, fuel) ==
                if GoesOn(t.o) then Again(t.w, status)
                else if t.o.Raised? || t.o.Timeout? then Ends(t)
                else Ends(Result(if t.o.Returning? then t.w else t.w.(status := status), Leave(t.o)))
  {
    hide Eval;
  }

  /** A turn whose test is answered. */
  lemma TurnTests(until: bool, test: Node, body: Node, w: World, depth: nat, status: int, fuel: nat)
    ensures var t := Eval(test, w, depth + 1, fuel);
            t.o == Normal ==>
              EvalTurn(until, test, body, w, depth, status, fuel) ==
                if (t.w.status == 0) == until then Ends(Result(t.w.(status := status), Normal))
                else BodyTurn(body, t.w, depth, fuel)
  {
    hide Eval;
  }

  lemma LoopStep(until: bool, test: Node, body: Node, w: World, depth: nat, status: int, fuel: nat)
    ensures EvalLoop(until, test, body, w, depth, status, fuel) ==
              if fuel == 0 then Result(w, Timeout)
              else
                match EvalTurn(until, test, body, w, depth, status, fuel - 1)
                case Again(w', status') => EvalLoop(until, test, body, w', depth, status', fuel - 1)
                case Ends(r) => r
  {
    hide Eval, EvalTurn;
  }

  function EvalFor(words: seq<int>, body: Node, w: World, depth: nat, status: int, fuel: nat): Result
    decreases fuel, body, |words| + 1
  {
    if words == [] then Result(w.(status := status), Normal)
    else
      var b := Eval(body, w.(trace := w.trace + [Assigned(words[0])]), depth + 1, fuel);
      if GoesOn(b.o) then EvalFor(words[1..], body, b.w, depth, b.w.status, fuel) else Result(b.w, Leave(b.o))
  }

  lemma ForStep(words: seq<int>, body: Node, w: World, depth: nat, status: int, fuel: nat)
    ensures EvalFor(words, body, w, depth, status, fuel) ==
              if words == [] then Result(w.(status := status), Normal)
              else
                var b := Eval(body, w.(trace := w.trace + [Assigned(words[0])]), depth + 1, fuel);
                if GoesOn(b.o) then EvalFor(words[1..], body, b.w, depth, b.w.status, fuel) else Result(b.w, Leave(b.o))
  {
    hide Eval;
  }

  lemma NullDoesNothing(w: World, depth: nat, fuel: nat)
    ensures Eval(Null, w, depth, fuel) == Result(w, Normal)
  {
  }

  /** The clause number `skip`, and those that it falls through to. */
  function EvalCase(clauses: Clauses, skip: nat, w: World, depth: nat, status: int, fuel: nat): Result
    decreases fuel, clauses
  {
    if clauses.NoClauses? then Result(w.(status := status), Normal)
    else if skip > 0 then EvalCase(clauses.rest, skip - 1, w, depth, status, fuel)
    else if clauses.body == Null then
      if clauses.falls then EvalCase(clauses.rest, 0, w, depth, status, fuel) else Result(w.(status := status), Normal)
    else
      var r := Eval(clauses.body, w, depth, fuel);
      if r.o != Normal || !clauses.falls then r else EvalCase(clauses.rest, 0, r.w, depth, r.w.status, fuel)
  }

  /** Commands read one after the other; `status` is that of the last one that was not empty. */
  function EvalText(commands: Nodes, w: World, depth: nat, status: int, fuel: nat): Result
    decreases fuel, commands
  {
    if commands.NoNodes? then Result(w.(status := status), Normal)
    else
      var r := Eval(commands.head, w, depth, fuel);
      if r.o != Normal then r
      else EvalText(commands.tail, r.w, depth, if commands.head == Null then status else r.w.status, fuel)
  }

  // ---------- What always holds ----------

  /** A `break` or `continue` on its way out has 1 to `depth` loops to leave. */
  predicate Pending(o: Outcome, depth: nat) {
    (o.Breaking? || o.Continuing?) ==> 1 <= o.k <= depth
  }

  lemma {:induction false} AlwaysPending(n: Node, w: World, depth: nat, fuel: nat)
    ensures Pending(Eval(n, w, depth, fuel).o, depth)
    decreases fuel, n, 0
  {
    match n
    case Not(a) => AlwaysPending(a, w, depth, fuel);
    case Binary(op, a, b) =>
      AlwaysPending(a, w, depth, fuel);
      AlwaysPending(b, Eval(a, w, depth, fuel).w, depth, fuel);
    case If(test, yes, no) =>
      AlwaysPending(test, w, depth, fuel);
      AlwaysPending(yes, Eval(test, w, depth, fuel).w, depth, fuel);
      AlwaysPending(no, Eval(test, w, depth, fuel).w, depth, fuel);
    case Loop(until, test, body) => LoopPending(until, test, body, w, depth, 0, fuel);
    case For(words, body) => ForPending(words, body, w, depth, 0, fuel);
    case Case(clauses) =>
      if Input(w) >= 0 {
        CasePending(clauses, Input(w), Rest(w), depth, 0, fuel);
      }
    case Call(name) =>
      if name in w.funcs && fuel > 0 {
        AlwaysPending(w.funcs[name], w, 0, fuel - 1);
      }
    case Text(commands) => TextPending(commands, w, depth, 0, fuel);
    case Dot(commands) => TextPending(commands, w, depth, 0, fuel);
    case _ =>
  }

  lemma {:induction false} LoopPending(until: bool, test: Node, body: Node, w: World, depth: nat, status: int, fuel: nat)
    ensures Pending(EvalLoop(until, test, body, w, depth, status, fuel).o, depth)
    decreases fuel, body, 1
  {
    if fuel > 0 {
      TurnPending(until, test, body, w, depth, status, fuel - 1);
      var turn := EvalTurn(until, test, body, w, depth, status, fuel - 1);
      if turn.Again? {
        LoopPending(until, test, body, turn.w, depth, turn.status, fuel - 1);
      }
    }
  }

  lemma {:induction false} TurnPending(until: bool, test: Node, body: Node, w: World, depth: nat, status: int, fuel: nat)
    ensures var turn := EvalTurn(until, test, body, w, depth, status, fuel); turn.Ends? ==> Pending(turn.r.o, depth)
    decreases fuel, Loop(until, test, body), 0
  {
    hide Eval, EvalTurn;
    TurnSkips(until, test, body, w, depth, status, fuel);
    TurnTests(until, test, body, w, depth, status, fuel);
    var t := Eval(test, w, depth + 1, fuel);
    AlwaysPending(test, w, depth + 1, fuel);
    if t.o == Normal {
      AlwaysPending(body, t.w, depth + 1, fuel);
    }
  }

  lemma {:induction false} ForPending(words: seq<int>, body: Node, w: World, depth: nat, status: int, fuel: nat)
    ensures Pending(EvalFor(words, body, w, depth, status, fuel).o, depth)
    decreases fuel, body, |words| + 1
  {
    if words != [] {
      var w' := w.(trace := w.trace + [Assigned(words[0])]);
      var b := Eval(body, w', depth + 1, fuel);
      AlwaysPending(body, w', depth + 1, fuel);
      ForPending(words[1..], body, b.w, depth, b.w.status, fuel);
    }
  }

  lemma {:induction false} CasePending(clauses: Clauses, skip: nat, w: World, depth: nat, status: int, fuel: nat)
    ensures Pending(EvalCase(clauses, skip, w, depth, status, fuel).o, depth)
    decreases fuel, clauses
  {
    if clauses.Clause? {
      if skip > 0 {
        CasePending(clauses.rest, skip - 1, w, depth, status, fuel);
      } else {
        var r := Eval(clauses.body, w, depth, fuel);
        AlwaysPending(clauses.body, w, depth, fuel);
        CasePending(clauses.rest, 0, w, depth, status, fuel);
        CasePending(clauses.rest, 0, r.w, depth, r.w.status, fuel);
      }
    }
  }

  lemma {:induction false} TextPending(commands: Nodes, w: World, depth: nat, status: int, fuel: nat)
    ensures Pending(EvalText(commands, w, depth, status, fuel).o, depth)
    decreases fuel, commands
  {
    if commands.Nodes? {
      var r := Eval(commands.head, w, depth, fuel);
      AlwaysPending(commands.head, w, depth, fuel);
      TextPending(commands.tail, r.w, depth, if commands.head == Null then status else r.w.status, fuel);
    }
  }

  /** Nothing that is to be skipped crosses a function call, whatever the function is and wherever it is called. */
  lemma CallContains(name: int, w: World, depth: nat, other: nat, fuel: nat)
    ensures Eval(Call(name), w, depth, fuel) == Eval(Call(name), w, other, fuel)
    ensures Eval(Call(name), w, depth, fuel).o in {Normal, Raised, Timeout}
  {
    if name in w.funcs && fuel > 0 {
      AlwaysPending(w.funcs[name], w, 0, fuel - 1);
    }
  }

  /** What may stand around a command. */
  datatype Around =
    | InFor(word: int, more: seq<int>)
    | InBody(until: bool, test: Node)
    | InTest(until: bool, body: Node)
    | Behind(first: Node, op: Operator)
    | Before(op: Operator, second: Node)
    | InThen(test: Node, no: Node)
    | InElse(test: Node, yes: Node)
  {
    predicate IsLoop() { InFor? || InBody? || InTest? }
  }

  function Within(a: Around, inner: Node): Node {
    match a
    case InFor(word, more) => For([word] + more, inner)
    case InBody(until, test) => Loop(until, test, inner)
    case InTest(until, body) => Loop(until, inner, body)
    case Behind(first, op) => Binary(op, first, inner)
    case Before(op, second) => Binary(op, inner, second)
    case InThen(test, no) => If(test, inner, no)
    case InElse(test, yes) => If(test, yes, inner)
  }

  /** `inner` with all of `around` around it, the outermost first. */
  function Nested(around: seq<Around>, inner: Node): Node {
    if around == [] then inner else Within(around[0], Nested(around[1..], inner))
  }

  function Loops(around: seq<Around>): nat {
    if around == [] then 0 else (if around[0].IsLoop() then 1 else 0) + Loops(around[1..])
  }

  /** What is known where the inner command is first run, if it is run in the first turn of each loop. */
  datatype Arrival = Nowhere | Here(w: World, fuel: nat)

  function Arrive(a: Around, w: World, depth: nat, fuel: nat): Arrival {
    match a
    case InFor(word, _) => Here(w.(trace := w.trace + [Assigned(word)]), fuel)
    case InBody(until, test) =>
      if fuel == 0 then Nowhere
      else
        var t := Eval(test, w, depth + 1, fuel - 1);
        if t.o == Normal && (t.w.status == 0) != until then Here(t.w, fuel - 1) else Nowhere
    case InTest(_, _) => if fuel == 0 then Nowhere else Here(w, fuel - 1)
    case Behind(first, op) =>
      var r := Eval(first, w, depth, fuel);
      if r.o != Normal || (op == And && r.w.status != 0) || (op == Or && r.w.status == 0) then Nowhere else Here(r.w, fuel)
    case Before(_, _) => Here(w, fuel)
    case InThen(test, _) =>
      var r := Eval(test, w, depth, fuel);
      if r.o == Normal && r.w.status == 0 then Here(r.w, fuel) else Nowhere
    case InElse(test, _) =>
      var r := Eval(test, w, depth, fuel);
      if r.o == Normal && r.w.status != 0 then Here(r.w, fuel) else Nowhere
  }

  function ArriveAll(around: seq<Around>, w: World, depth: nat, fuel: nat): Arrival
    decreases |around|
  {
    if around == [] then Here(w, fuel)
    else
      var h := Arrive(around[0], w, depth, fuel);
      if h.Nowhere? then Nowhere
      else ArriveAll(around[1..], h.w, if around[0].IsLoop() then depth + 1 else depth, h.fuel)
  }

  /** A break passes through what is around it: it leaves a loop, and nothing behind it is run. */
  lemma BreakPasses(a: Around, inner: Node, w: World, depth: nat, fuel: nat)
    requires Arrive(a, w, depth, fuel).Here? && inner != Null
    requires var h := Arrive(a, w, depth, fuel);
             var b := Eval(inner, h.w, if a.IsLoop() then depth + 1 else depth, h.fuel);
             b.o.Breaking? && b.w.status == 0
    ensures var h := Arrive(a, w, depth, fuel);
            var b := Eval(inner, h.w, if a.IsLoop() then depth + 1 else depth, h.fuel);
            Eval(Within(a, inner), w, depth, fuel) == Result(b.w, if a.IsLoop() then Leave(b.o) else b.o)
  {
    match a
    case InFor(word, more) => ForStep([word] + more, inner, w, depth, 0, fuel);
    case InBody(until, test) =>
      LoopStep(until, test, inner, w, depth, 0, fuel);
      TurnTests(until, test, inner, w, depth, 0, fuel - 1);
    case InTest(until, body) =>
      LoopStep(until, inner, body, w, depth, 0, fuel);
      TurnSkips(until, inner, body, w, depth, 0, fuel - 1);
    case _ =>
  }

  /**
   * `break k` leaves exactly k loops, or all there are, whatever else is in them and around it: inside at most k
   * loops, nothing behind it is run, and what is left of it concerns the loops farther out.
   */
  lemma {:induction false} BreakLeaves(around: seq<Around>, k: int, w: World, depth: nat, fuel: nat)
    requires k > 0 && ArriveAll(around, w, depth, fuel).Here? && depth + Loops(around) > 0
    requires var n := Min(k, depth + Loops(around));
             n > Loops(around) || (n == Loops(around) && around[0].IsLoop())
    ensures var left := Min(k, depth + Loops(around)) - Loops(around);
            Eval(Nested(around, Break(k)), w, depth, fuel) ==
              Result(ArriveAll(around, w, depth, fuel).w.(status := 0), if left > 0 then Breaking(left) else Normal)
    decreases |around|
  {
    hide Eval;
    if around == [] {
      BreakHere(k, w, depth, fuel);
    } else {
      var a, rest := around[0], around[1..];
      var h := Arrive(a, w, depth, fuel);
      BreakLeaves(rest, k, h.w, if a.IsLoop() then depth + 1 else depth, h.fuel);
      NestedSome(rest, k);
      BreakPasses(a, Nested(rest, Break(k)), w, depth, fuel);
    }
  }

  lemma NestedSome(around: seq<Around>, k: int)
    ensures Nested(around, Break(k)) != Null
  {
  }

  lemma BreakHere(k: int, w: World, depth: nat, fuel: nat)
    requires k > 0
    ensures Eval(Break(k), w, depth, fuel) ==
              Result(w.(status := 0), if depth > 0 then Breaking(Min(k, depth)) else Normal)
  {
  }

  // ---------- Fuel only bounds the search ----------

  /** A command that ends does the same with more fuel. */
  lemma {:induction false} MoreFuel(n: Node, w: World, depth: nat, fuel: nat, more: nat)
    requires fuel <= more && Eval(n, w, depth, fuel).o != Timeout
    ensures Eval(n, w, depth, more) == Eval(n, w, depth, fuel)
    decreases fuel, n, 0
  {
    hide EvalLoop, EvalFor, EvalCase, EvalText;
    match n
    case Not(a) => MoreFuel(a, w, depth, fuel, more);
    case Binary(op, a, b) =>
      MoreFuel(a, w, depth, fuel, more);
      var r := Eval(a, w, depth, fuel);
      if !(r.o != Normal || (op == And && r.w.status != 0) || (op == Or && r.w.status == 0)) {
        MoreFuel(b, r.w, depth, fuel, more);
      }
    case If(test, yes, no) =>
      MoreFuel(test, w, depth, fuel, more);
      var r := Eval(test, w, depth, fuel);
      if r.o == Normal {
        if r.w.status == 0 {
          MoreFuel(yes, r.w, depth, fuel, more);
        } else if no != Null {
          MoreFuel(no, r.w, depth, fuel, more);
        }
      }
    case Loop(until, test, body) => MoreLoop(until, test, body, w, depth, 0, fuel, more);
    case For(words, body) => MoreFor(words, body, w, depth, 0, fuel, more);
    case Case(clauses) =>
      if Input(w) >= 0 {
        MoreCase(clauses, Input(w), Rest(w), depth, 0, fuel, more);
      }
    case Call(name) =>
      if name in w.funcs {
        MoreFuel(w.funcs[name], w, 0, fuel - 1, more - 1);
      }
    case Text(commands) => MoreText(commands, w, depth, 0, fuel, more);
    case Dot(commands) => MoreText(commands, w, depth, 0, fuel, more);
    case _ =>
  }

  lemma {:induction false} MoreLoop(until: bool, test: Node, body: Node, w: World, depth: nat, status: int, fuel: nat, more: nat)
    requires fuel <= more && EvalLoop(until, test, body, w, depth, status, fuel).o != Timeout
    ensures EvalLoop(until, test, body, w, depth, status, more) == EvalLoop(until, test, body, w, depth, status, fuel)
    decreases fuel, body, 1
  {
    hide Eval, EvalTurn, EvalLoop;
    LoopStep(until, test, body, w, depth, status, fuel);
    LoopStep(until, test, body, w, depth, status, more);
    MoreTurn(until, test, body, w, depth, status, fuel - 1, more - 1);
    var turn := EvalTurn(until, test, body, w, depth, status, fuel - 1);
    if turn.Again? {
      MoreLoop(until, test, body, turn.w, depth, turn.status, fuel - 1, more - 1);
    }
  }

  lemma {:induction false} MoreTurn(until: bool, test: Node, body: Node, w: World, depth: nat, status: int, fuel: nat, more: nat)
    requires fuel <= more
    requires var turn := EvalTurn(until, test, body, w, depth, status, fuel); turn.Ends? ==> turn.r.o != Timeout
    ensures EvalTurn(until, test, body, w, depth, status, more) == EvalTurn(until, test, body, w, depth, status, fuel)
    decreases fuel, Loop(until, test, body), 0
  {
    hide Eval;
    MoreFuel(test, w, depth + 1, fuel, more);
    var t := Eval(test, w, depth + 1, fuel);
    if t.o == Normal && (t.w.status == 0) != until {
      MoreFuel(body, t.w, depth + 1, fuel, more);
    }
  }

  lemma {:induction false} MoreFor(words: seq<int>, body: Node, w: World, depth: nat, status: int, fuel: nat, more: nat)
    requires fuel <= more && EvalFor(words, body, w, depth, status, fuel).o != Timeout
    ensures EvalFor(words, body, w, depth, status, more) == EvalFor(words, body, w, depth, status, fuel)
    decreases fuel, body, |words| + 1
  {
    if words != [] {
      var w' := w.(trace := w.trace + [Assigned(words[0])]);
      MoreFuel(body, w', depth + 1, fuel, more);
      var b := Eval(body, w', depth + 1, fuel);
      if GoesOn(b.o) {
        MoreFor(words[1..], body, b.w, depth, b.w.status, fuel, more);
      }
    }
  }

  lemma {:induction false} MoreCase(clauses: Clauses, skip: nat, w: World, depth: nat, status: int, fuel: nat, more: nat)
    requires fuel <= more && EvalCase(clauses, skip, w, depth, status, fuel).o != Timeout
    ensures EvalCase(clauses, skip, w, depth, status, more) == EvalCase(clauses, skip, w, depth, status, fuel)
    decreases fuel, clauses
  {
    if clauses.Clause? {
      if skip > 0 {
        MoreCase(clauses.rest, skip - 1, w, depth, status, fuel, more);
      } else {
        if clauses.body != Null {
          MoreFuel(clauses.body, w, depth, fuel, more);
          var r := Eval(clauses.body, w, depth, fuel);
          if r.o == Normal && clauses.falls {
            MoreCase(clauses.rest, 0, r.w, depth, r.w.status, fuel, more);
          }
        } else if clauses.falls {
          MoreCase(clauses.rest, 0, w, depth, status, fuel, more);
        }
      }
    }
  }

  lemma {:induction false} MoreText(commands: Nodes, w: World, depth: nat, status: int, fuel: nat, more: nat)
    requires fuel <= more && EvalText(commands, w, depth, status, fuel).o != Timeout
    ensures EvalText(commands, w, depth, status, more) == EvalText(commands, w, depth, status, fuel)
    decreases fuel, commands
  {
    if commands.Nodes? {
      MoreFuel(commands.head, w, depth, fuel, more);
      var r := Eval(commands.head, w, depth, fuel);
      if r.o == Normal {
        MoreText(commands.tail, r.w, depth, if commands.head == Null then status else r.w.status, fuel, more);
      }
    }
  }
}
