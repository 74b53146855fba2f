/** What programs of loops, choices, functions and skips do, as the events that are seen (src/eval.c). */
module ControlLaws {
  import opened Control
  import opened Chars

  function Events(ids: seq<int>): seq<Event> {
    seq(|ids|, i requires 0 <= i < |ids| => Ran(ids[i]))
  }

  function Words(words: seq<int>): seq<Event> {
    seq(|words|, i requires 0 <= i < |words| => Assigned(words[i]))
  }

  // ---------- Lists and choices ----------

  /** A simple command has the status that its program gives, and is seen once. */
  lemma SimpleRuns(id: int, status: int, rest: seq<int>, w: World, depth: nat, fuel: nat)
    requires w.inputs == [status] + rest
    ensures Eval(Simple(id), w, depth, fuel) ==
              Result(World(status, rest, w.trace + [Ran(id)], w.funcs), Normal)
  {
  }

  /** `a && b` runs b exactly if a succeeds, `a || b` exactly if a fails, and `a; b` always. */
  lemma ListRuns(op: Operator, a: int, b: int, s: int, t: int, w: World, depth: nat, fuel: nat)
    requires w.inputs == [s, t]
    ensures var runs := op.Semi? || (op.And? && s == 0) || (op.Or? && s != 0);
            Eval(Binary(op, Simple(a), Simple(b)), w, depth, fuel) ==
              if runs then Result(World(t, [], w.trace + [Ran(a), Ran(b)], w.funcs), Normal)
              else Result(World(s, [t], w.trace + [Ran(a)], w.funcs), Normal)
  {
    assert w.inputs[1..] == [t] && [t][1..] == [];
    assert w.trace + [Ran(a)] + [Ran(b)] == w.trace + [Ran(a), Ran(b)];
  }

  /** `! a` succeeds exactly if a fails. */
  lemma NotRuns(a: int, s: int, w: World, depth: nat, fuel: nat)
    requires w.inputs == [s]
    ensures Eval(Not(Simple(a)), w, depth, fuel) ==
              Result(World(if s == 0 then 1 else 0, [], w.trace + [Ran(a)], w.funcs), Normal)
  {
  }

  /** `if` runs one branch, by the status of its test, and without one to run it succeeds. */
  lemma IfRuns(a: int, b: int, c: int, s: int, t: int, w: World, depth: nat, fuel: nat)
    requires w.inputs == [s, t]
    ensures Eval(If(Simple(a), Simple(b), Simple(c)), w, depth, fuel) ==
              Result(World(t, [], w.trace + [Ran(a), Ran(if s == 0 then b else c)], w.funcs), Normal)
    ensures s != 0 ==>
              Eval(If(Simple(a), Simple(b), Null), w, depth, fuel) ==
                Result(World(0, [t], w.trace + [Ran(a)], w.funcs), Normal)
  {
    assert w.inputs[1..] == [t] && [t][1..] == [];
    assert w.trace + [Ran(a)] + [Ran(if s == 0 then b else c)] == w.trace + [Ran(a), Ran(if s == 0 then b else c)];
  }

  /** The clauses of a `case` with one command each. */
  function Chosen(ids: seq<int>, falls: seq<bool>): Clauses
    requires |ids| == |falls|
  {
    if ids == [] then NoClauses else Clause(Simple(ids[0]), falls[0], Chosen(ids[1..], falls[1..]))
  }

  /** The clause that is chosen runs, and those it falls through to, up to the first that does not fall through. */
  lemma {:induction false} CaseRuns(ids: seq<int>, falls: seq<bool>, first: nat, last: nat, statuses: seq<int>,
                                    w: World, depth: nat, fuel: nat)
    requires |ids| == |falls| && first <= last < |ids| && |statuses| == last + 1 - first
    requires (forall i :: first <= i < last ==> falls[i]) && (falls[last] ==> last + 1 == |ids|)
    requires w.inputs == [first] + statuses
    ensures Eval(Case(Chosen(ids, falls)), w, depth, fuel) ==
              Result(World(statuses[last - first], [], w.trace + Events(ids[first..last + 1]), w.funcs), Normal)
  {
    hide Eval, EvalCase;
    CaseIs(Chosen(ids, falls), w, depth, fuel);
    assert w.inputs[1..] == statuses;
    SkipClauses(ids, falls, first, Rest(w), depth, fuel);
    assert ids[first..][..last + 1 - first] == ids[first..last + 1];
    RunClauses(ids[first..], falls[first..], last - first, statuses, Rest(w), depth, 0, fuel);
  }

  /** No clause is chosen. */
  lemma CaseMisses(clauses: Clauses, choice: int, rest: seq<int>, w: World, depth: nat, fuel: nat)
    requires w.inputs == [choice] + rest && choice < 0
    ensures Eval(Case(clauses), w, depth, fuel) == Result(World(0, rest, w.trace, w.funcs), Normal)
  {
  }

  lemma CaseIs(clauses: Clauses, w: World, depth: nat, fuel: nat)
    requires Input(w) >= 0
    ensures Eval(Case(clauses), w, depth, fuel) == EvalCase(clauses, Input(w), Rest(w), depth, 0, fuel)
  {
    hide EvalCase;
  }

  lemma {:induction false} SkipClauses(ids: seq<int>, falls: seq<bool>, first: nat, w: World, depth: nat, fuel: nat)
    requires |ids| == |falls| && first < |ids|
    ensures EvalCase(Chosen(ids, falls), first, w, depth, 0, fuel) == EvalCase(Chosen(ids[first..], falls[first..]), 0, w, depth, 0, fuel)
    decreases first
  {
    hide Eval;
    if first == 0 {
      assert ids[0..] == ids && falls[0..] == falls;
    } else {
      SkipClauses(ids[1..], falls[1..], first - 1, w, depth, fuel);
      assert ids[1..][first - 1..] == ids[first..] && falls[1..][first - 1..] == falls[first..];
    }
  }

  lemma {:induction false} RunClauses(ids: seq<int>, falls: seq<bool>, last: nat, statuses: seq<int>,
                                      w: World, depth: nat, status: int, fuel: nat)
    requires |ids| == |falls| && last < |ids| && |statuses| == last + 1
    requires (forall i :: 0 <= i < last ==> falls[i]) && (falls[last] ==> last + 1 == |ids|)
    requires w.inputs == statuses
    ensures EvalCase(Chosen(ids, falls), 0, w, depth, status, fuel) ==
              Result(World(statuses[last], [], w.trace + Events(ids[..last + 1]), w.funcs), Normal)
    decreases last
  {
    hide Eval;
    assert w.inputs == [statuses[0]] + statuses[1..];
    SimpleRuns(ids[0], statuses[0], statuses[1..], w, depth, fuel);
    var w' := Eval(Simple(ids[0]), w, depth, fuel).w;
    if last == 0 {
      assert w.trace + [Ran(ids[0])] == w.trace + Events(ids[..1]);
    } else {
      RunClauses(ids[1..], falls[1..], last - 1, statuses[1..], w', depth, statuses[0], fuel);
      assert w.trace + [Ran(ids[0])] + Events(ids[1..][..last]) == w.trace + Events(ids[..last + 1]);
    }
  }

  // ---------- Loops ----------

  /** Every turn of a `while` or `until` is its test and its body, each seen once. */
  function Turns(test: int, body: int, n: nat): seq<Event> {
    if n == 0 then [] else [Ran(test), Ran(body)] + Turns(test, body, n - 1)
  }

  /** What the programs of a loop say: its test lets it go on in front of every body. */
  function Statuses(goes: int, bodies: seq<int>): seq<int> {
    if bodies == [] then [] else [goes, bodies[0]] + Statuses(goes, bodies[1..])
  }

  /**
   * `while` goes on as long as its test succeeds, `until` as long as it fails; the status is that of the last body,
   * or zero.
   */
  lemma {:induction false} LoopRuns(until: bool, test: int, body: int, goes: int, bodies: seq<int>, ends: int,
                                    w: World, depth: nat, fuel: nat)
    requires if until then goes != 0 && ends == 0 else goes == 0 && ends != 0
    requires w.inputs == Statuses(goes, bodies) + [ends] && fuel > |bodies|
    ensures Eval(Loop(until, Simple(test), Simple(body)), w, depth, fuel) ==
              Result(World(if bodies == [] then 0 else bodies[|bodies| - 1], [],
                           w.trace + Turns(test, body, |bodies|) + [Ran(test)], w.funcs), Normal)
  {
    hide EvalLoop;
    LoopTurns(until, test, body, goes, bodies, ends, w, depth, 0, fuel);
  }

  lemma {:induction false} LoopTurns(until: bool, test: int, body: int, goes: int, bodies: seq<int>, ends: int,
                                     w: World, depth: nat, status: int, fuel: nat)
    requires if until then goes != 0 && ends == 0 else goes == 0 && ends != 0
    requires w.inputs == Statuses(goes, bodies) + [ends] && fuel > |bodies|
    ensures EvalLoop(until, Simple(test), Simple(body), w, depth, status, fuel) ==
              Result(World(if bodies == [] then status else bodies[|bodies| - 1], [],
                           w.trace + Turns(test, body, |bodies|) + [Ran(test)], w.funcs), Normal)
    decreases bodies
  {
    hide Eval, EvalLoop, EvalTurn;
    LoopStep(until, Simple(test), Simple(body), w, depth, status, fuel);
    TurnTests(until, Simple(test), Simple(body), w, depth, status, fuel - 1);
    if bodies == [] {
      assert w.inputs == [ends] + [];
      SimpleRuns(test, ends, [], w, depth + 1, fuel - 1);
      assert w.trace + [] + [Ran(test)] == w.trace + [Ran(test)];
    } else {
      var rest := [bodies[0]] + (Statuses(goes, bodies[1..]) + [ends]);
      assert w.inputs == [goes] + rest;
      SimpleRuns(test, goes, rest, w, depth + 1, fuel - 1);
      var t := Eval(Simple(test), w, depth + 1, fuel - 1).w;
      SimpleRuns(body, bodies[0], rest[1..], t, depth + 1, fuel - 1);
      var b := Eval(Simple(body), t, depth + 1, fuel - 1).w;
      LoopTurns(until, test, body, goes, bodies[1..], ends, b, depth, bodies[0], fuel - 1);
      assert w.trace + [Ran(test)] + [Ran(body)] + Turns(test, body, |bodies| - 1) + [Ran(test)]
          == w.trace + Turns(test, body, |bodies|) + [Ran(test)];
    }
  }

  /** A body that shows nothing itself and ends with the outcome `o` and the status `status`, wherever it is run. */
  ghost predicate Quiet(body: Node, f: map<int, Node>, o: Outcome, status: int, depth: nat, fuel: nat) {
    forall w: World | w.funcs == f ::
      Eval(body, w, depth, fuel) == Result(w.(status := status), o)
  }

  /** A `for` whose body does nothing, or goes on with the next word, runs all its words in their order. */
  lemma {:induction false} ForAll(words: seq<int>, body: Node, o: Outcome, s: int, w: World, depth: nat, status: int, fuel: nat)
    requires Quiet(body, w.funcs, o, s, depth + 1, fuel) && o in {Normal, Continuing(1)}
    ensures EvalFor(words, body, w, depth, status, fuel) ==
              Result(World(if words == [] then status else s, w.inputs, w.trace + Words(words), w.funcs), Normal)
    decreases |words|
  {
    hide Eval, EvalFor, Quiet;
    ForStep(words, body, w, depth, status, fuel);
    if words == [] {
      assert w.trace + Words([]) == w.trace;
    } else {
      var w' := w.(trace := w.trace + [Assigned(words[0])]);
      QuietOne(body, o, s, w', depth + 1, fuel);
      ForAll(words[1..], body, o, s, w'.(status := s), depth, s, fuel);
      assert w.trace + [Assigned(words[0])] + Words(words[1..]) == w.trace + Words(words);
    }
  }

  lemma QuietOne(body: Node, o: Outcome, s: int, w: World, depth: nat, fuel: nat)
    requires Quiet(body, w.funcs, o, s, depth, fuel)
    ensures Eval(body, w, depth, fuel) == Result(w.(status := s), o)
  {
    hide Eval;
  }

  // ---------- Skips ----------

  /** `break` and `continue` of `k` loops. */
  function Skip(continues: bool, k: int): Node {
    if continues then Continue(k) else Break(k)
  }

  /** Outside all loops, `break` and `continue` do nothing. */
  lemma SkipOutside(continues: bool, k: int, w: World, fuel: nat)
    requires k > 0
    ensures Eval(Skip(continues, k), w, 0, fuel) == Result(w.(status := 0), Normal)
  {
  }

  /** A number that is not positive is an error. */
  lemma SkipNumber(continues: bool, k: int, w: World, depth: nat, fuel: nat)
    requires k <= 0
    ensures Eval(Skip(continues, k), w, depth, fuel) == Result(w.(status := 2), Raised)
  {
  }

  /** In a function they do not see the loops around its call: `f() { break; }; for i in ...; do f; done` runs all words. */
  lemma SkipInFunction(continues: bool, k: int, name: int, words: seq<int>, w: World, depth: nat, fuel: nat)
    requires k > 0 && fuel > 0 && name in w.funcs && w.funcs[name] == Skip(continues, k)
    ensures Eval(For(words, Call(name)), w, depth, fuel) ==
              Result(World(0, w.inputs, w.trace + Words(words), w.funcs), Normal)
  {
    hide EvalFor;
    forall v: World | v.funcs == w.funcs
      ensures Eval(Call(name), v, depth + 1, fuel) == Result(v.(status := 0), Normal)
    {
      SkipOutside(continues, k, v, fuel - 1);
    }
    ForAll(words, Call(name), Normal, 0, w, depth, 0, fuel);
  }

  /** `for i in ...; do continue; rest; done` assigns every word and never runs the rest. */
  lemma ContinueRuns(words: seq<int>, rest: Node, w: World, depth: nat, fuel: nat)
    ensures Eval(For(words, Binary(Semi, Continue(1), rest)), w, depth, fuel) ==
              Result(World(0, w.inputs, w.trace + Words(words), w.funcs), Normal)
  {
    hide EvalFor;
    var body := Binary(Semi, Continue(1), rest);
    forall v: World | v.funcs == w.funcs
      ensures Eval(body, v, depth + 1, fuel) == Result(v.(status := 0), Continuing(1))
    {
    }
    ForAll(words, body, Continuing(1), 0, w, depth, 0, fuel);
  }

  /** The events of a loop over `words` that shows `inner` in each turn. */
  function Each(words: seq<int>, inner: Event): seq<Event> {
    if words == [] then [] else [Assigned(words[0]), inner] + Each(words[1..], inner)
  }

  /** `continue 2` goes on with the next word of the outer loop; nothing behind it in either loop is run. */
  lemma {:induction false} ContinueTwo(words: seq<int>, first: int, more: seq<int>, a: Node, b: Node, w: World, depth: nat, fuel: nat)
    ensures var inner := For([first] + more, Binary(Semi, Continue(2), a));
            Eval(For(words, Binary(Semi, inner, b)), w, depth, fuel) ==
              Result(World(0, w.inputs, w.trace + Each(words, Assigned(first)), w.funcs), Normal)
  {
    hide EvalFor;
    ContinueTurns(words, first, more, a, b, w, depth, 0, fuel);
  }

  lemma {:induction false} ContinueTurns(words: seq<int>, first: int, more: seq<int>, a: Node, b: Node,
                                         w: World, depth: nat, status: int, fuel: nat)
    ensures var inner := For([first] + more, Binary(Semi, Continue(2), a));
            EvalFor(words, Binary(Semi, inner, b), w, depth, status, fuel) ==
              Result(World(if words == [] then status else 0, w.inputs, w.trace + Each(words, Assigned(first)), w.funcs), Normal)
    decreases |words|
  {
    hide Eval, EvalFor;
    var inner := For([first] + more, Binary(Semi, Continue(2), a));
    ForStep(words, Binary(Semi, inner, b), w, depth, status, fuel);
    if words == [] {
      assert w.trace + [] == w.trace;
    } else {
      var w' := w.(trace := w.trace + [Assigned(words[0])]);
      ContinueInner(first, more, a, b, w', depth + 1, fuel);
      var w'' := World(0, w.inputs, w'.trace + [Assigned(first)], w.funcs);
      ContinueTurns(words[1..], first, more, a, b, w'', depth, 0, fuel);
      assert w.trace + [Assigned(words[0])] + [Assigned(first)] + Each(words[1..], Assigned(first))
          == w.trace + Each(words, Assigned(first));
    }
  }

  lemma ContinueInner(first: int, more: seq<int>, a: Node, b: Node, w: World, depth: nat, fuel: nat)
    requires depth > 0
    ensures var inner := For([first] + more, Binary(Semi, Continue(2), a));
            Eval(Binary(Semi, inner, b), w, depth, fuel) ==
              Result(World(0, w.inputs, w.trace + [Assigned(first)], w.funcs), Continuing(1))
  {
    hide EvalFor;
    ForStep([first] + more, Binary(Semi, Continue(2), a), w, depth, 0, fuel);
  }

  /** `return` leaves all loops of its function, and no command behind the call is left out. */
  lemma ReturnLeaves(value: Option<int>, name: int, first: int, more: seq<int>, a: Node, b: Node, after: int, s: int,
                     w: World, depth: nat, fuel: nat)
    requires fuel > 0 && name in w.funcs && w.inputs == [s]
    requires w.funcs[name] == Binary(Semi, For([first] + more, Binary(Semi, Return(value), a)), b)
    ensures Eval(Call(name), w, depth, fuel) ==
              Result(World(if value.Some? then value.value else w.status, w.inputs, w.trace + [Assigned(first)], w.funcs), Normal)
    ensures Eval(Binary(Semi, Call(name), Simple(after)), w, depth, fuel) ==
              Result(World(s, [], w.trace + [Assigned(first), Ran(after)], w.funcs), Normal)
  {
    hide EvalFor;
    var body := Binary(Semi, Return(value), a);
    var w' := w.(trace := w.trace + [Assigned(first)]);
    ForStep([first] + more, body, w, 0, 0, fuel - 1);
    assert Eval(body, w', 1, fuel - 1) == Eval(Return(value), w', 1, fuel - 1);
    assert Eval(w.funcs[name], w, 0, fuel - 1) == Eval(For([first] + more, body), w, 0, fuel - 1);
    assert [s][1..] == [];
    assert w.trace + [Assigned(first)] + [Ran(after)] == w.trace + [Assigned(first), Ran(after)];
  }

  /** A file read by `.` ends a `return` as well; `eval` does not, and a `break` leaves the loops around both. */
  lemma ReadCommands(value: Option<int>, k: int, rest: Nodes, w: World, depth: nat, fuel: nat)
    requires k > 0 && depth > 0
    ensures var status := if value.Some? then value.value else w.status;
            && Eval(Dot(Nodes(Return(value), rest)), w, depth, fuel) == Result(w.(status := status), Normal)
            && Eval(Text(Nodes(Return(value), rest)), w, depth, fuel) == Result(w.(status := status), Returning(value.Some?))
    ensures var left := Breaking(if k < depth then k else depth);
            && Eval(Dot(Nodes(Break(k), rest)), w, depth, fuel) == Result(w.(status := 0), left)
            && Eval(Text(Nodes(Break(k), rest)), w, depth, fuel) == Result(w.(status := 0), left)
  {
    assert EvalText(Nodes(Return(value), rest), w, depth, 0, fuel) == Eval(Return(value), w, depth, fuel);
    assert EvalText(Nodes(Break(k), rest), w, depth, 0, fuel) == Eval(Break(k), w, depth, fuel);
  }

  /** A function runs its latest body; a name that is no function is not found. */
  lemma DefineThenCall(name: int, id: int, s: int, w: World, depth: nat, fuel: nat)
    requires fuel > 0 && w.inputs == [s]
    ensures Eval(Binary(Semi, Define(name, Simple(id)), Call(name)), w, depth, fuel) ==
              Result(World(s, [], w.trace + [Ran(id)], w.funcs[name := Simple(id)]), Normal)
    ensures name !in w.funcs ==> Eval(Call(name), w, depth, fuel) == Result(w.(status := 127), Normal)
  {
    var w' := w.(status := 0, funcs := w.funcs[name := Simple(id)]);
    assert w'.inputs == [s] + [];
    SimpleRuns(id, s, [], w', 0, fuel - 1);
    assert Eval(Call(name), w', depth, fuel) == Returned(Eval(Simple(id), w', 0, fuel - 1));
  }

  /** An error ends everything around it. */
  lemma RaiseEnds(a: Node, name: int, words: seq<int>, w: World, depth: nat, fuel: nat)
    requires fuel > 0 && words != [] && name in w.funcs && w.funcs[name] == Binary(Semi, Raise, a)
    ensures Eval(Binary(Semi, For(words, Call(name)), a), w, depth, fuel) ==
              Result(World(2, w.inputs, w.trace + [Assigned(words[0])], w.funcs), Raised)
  {
    hide EvalFor;
    var w' := w.(trace := w.trace + [Assigned(words[0])]);
    ForStep(words, Call(name), w, depth, 0, fuel);
    assert Eval(w.funcs[name], w', 0, fuel - 1) == Eval(Raise, w', 0, fuel - 1);
  }
}
