/** Commands with redirections (src/eval.c) on the descriptor table of the shell. */
module RedirEval {
  import opened Redir
  import opened RedirStack

  /** What a command keeps that starts with `d` frames: nothing is leaked and no outer frame is touched. */
  ghost predicate Within(a: State, b: State, d: nat) {
    && Good(b) && Extra(b.fds, b.owner) == Extra(a.fds, a.owner)
    && d <= |a.frames| && d <= |b.frames| && b.frames[..d] == a.frames[..d]
    && Keeps(a.frames, d, a.fds, b.fds)
  }

  /** Descriptors 0 to 9 once the frames from `d` on are undone. */
  function LowUndone(a: State, d: nat): Table {
    map i | 0 <= i < 10 && Undone(a, d, i).Some? :: Undone(a, d, i).value
  }

  lemma LowNow(a: State)
    ensures LowUndone(a, |a.frames|) == Low(a.fds)
  {
  }

  lemma LowSame(a: State, b: State, d: nat)
    requires forall i :: 0 <= i < 10 ==> Undone(b, d, i) == Undone(a, d, i)
    ensures LowUndone(b, d) == LowUndone(a, d)
  {
    hide Where;
  }

  lemma WithinTrans(a: State, b: State, c: State, d: nat)
    requires Within(a, b, d) && Within(b, c, d)
    ensures Within(a, c, d)
  {
    hide Fits, Extra;
    forall k, i | Slot(a.frames, k, i) && k < d
      ensures Value(c.fds, a.frames[k][i]) == Value(a.fds, a.frames[k][i])
    {
      assert a.frames[..d][k] == b.frames[..d][k];
      assert Slot(b.frames, k, i);
    }
  }

  lemma UnwoundWithin(a: State, b: State, stop: nat, drop: bool, d: nat)
    requires Unwound(a, b, stop, drop) && d <= stop
    ensures Within(a, b, d) && (!drop ==> LowUndone(b, d) == LowUndone(a, d)) && (drop ==> Low(b.fds) == Low(a.fds))
  {
    hide Fits, Extra, Where, LowUndone;
    assert b.frames[..d] == a.frames[..d];
    forall k, i | Slot(a.frames, k, i) && k < d
      ensures Value(b.fds, a.frames[k][i]) == Value(a.fds, a.frames[k][i])
    {
      assert Slot(b.frames, k, i) && a.frames[k] == b.frames[k];
    }
    if !drop {
      LowSame(a, b, d);
    }
  }

  /** An empty frame changes nothing. */
  lemma PushScope(a: State, b: State)
    requires Good(a) && b == a.(frames := a.frames + [NO_SAVES])
    ensures Good(b) && Within(a, b, |a.frames|) && LowUndone(b, |a.frames|) == Low(a.fds) && LastNoted(b, true) == {}
  {
    hide Where;
    var d := |a.frames|;
    forall i | 0 <= i < 10
      ensures Undone(b, d, i) == Undone(a, d, i)
    {
      WherePush(a.frames, d, i);
    }
    LowSame(a, b, d);
    LowNow(a);
    assert Good(b) by {
      forall k, i | Slot(b.frames, k, i)
        ensures b.frames[k][i] == EMPTY || Slot(a.frames, k, i)
      {
        assert k == d ==> b.frames[k] == NO_SAVES;
      }
    }
  }

  /** Redirecting in the last frame, which is frame `d`. */
  lemma RedirectScope(a: State, b: State, d: nat)
    requires |a.frames| == d + 1 && Steady(a, b, true)
    ensures Within(a, b, d) && LowUndone(b, d) == LowUndone(a, d)
  {
    hide Fits, Extra, Where, LowUndone;
    LowSame(a, b, d);
  }

  /** What undoing frame `d` adds to undoing the frames above it. */
  lemma UndoScope(a: State, b: State, d: nat)
    requires Good(a) && |a.frames| == d + 1 && Within(a, b, d + 1)
    ensures LowUndone(b, d) == Restore(LowUndone(b, d + 1), LowUndone(a, d), LastNoted(a, true))
  {
    hide Fits, Extra, Noted;
    assert b.frames[d] == b.frames[..d + 1][d] == a.frames[d];
    NotedSlots(a.frames[d]);
    forall i | 0 <= i < 10
      ensures Undone(b, d, i) == if i in LastNoted(a, true) then Undone(a, d, i) else Undone(b, d + 1, i)
    {
      assert Slot(a.frames, d, i);
    }
  }

  lemma NotedSlots(frame: Frame)
    ensures forall i :: 0 <= i < 10 ==> (i in Noted(frame) <==> frame[i] != EMPTY)
  {
  }

  /** What is known when the redirections `list` have been tried in a frame of their own, from state `a` on. */
  ghost predicate Entered(a: State, list: seq<Redirection>, ok: bool, c: State) {
    var e := Effect(list, Low(a.fds), {}, true);
    && Within(a, c, |a.frames|) && |c.frames| == |a.frames| + 1 && Low(c.fds) == e.fds && ok == e.ok
    && LowUndone(c, |a.frames|) == Low(a.fds) && LastNoted(c, true) == e.noted
  }

  lemma EnterScope(a: State, p: State, list: seq<Redirection>, ok: bool, c: State)
    requires Good(a) && p == a.(frames := a.frames + [NO_SAVES]) && Steady(p, c, true)
    requires Outcome(Low(c.fds), LastNoted(c, true), ok) == Effect(list, Low(p.fds), LastNoted(p, true), true)
    ensures Entered(a, list, ok, c)
  {
    hide Steady, Fits, Within, LowUndone, Effect, Low, LastNoted;
    PushScope(a, p);
    RedirectScope(p, c, |a.frames|);
    SteadyGood(p, c, true);
    WithinTrans(a, p, c, |a.frames|);
  }

  /** Leaving the frame of `list` behind, with whatever is above it. */
  lemma LeaveScope(a: State, list: seq<Redirection>, ok: bool, c: State, b: State)
    requires Entered(a, list, ok, c) && Within(c, b, |c.frames|)
    ensures Within(a, b, |a.frames|)
    ensures LowUndone(b, |a.frames|) ==
              Restore(LowUndone(b, |a.frames| + 1), Low(a.fds), Effect(list, Low(a.fds), {}, true).noted)
  {
    var d := |a.frames|;
    assert Within(c, b, d + 1) && Within(a, c, d);
    UndoScope(c, b, d);
    WithinTrans(a, c, b, d);
  }

  lemma WithinRefl(a: State)
    requires Good(a)
    ensures Within(a, a, |a.frames|)
  {
  }

  lemma WithinGood(a: State, b: State, d: nat)
    requires Within(a, b, d)
    ensures Good(b) && d <= |b.frames|
  {
  }

  /** A command has run from `a` to `b` and did what it means; frames that it left behind are still to be undone. */
  ghost predicate Ran(n: Node, a: State, b: State, raised: bool) {
    var m := Meaning(n, Low(a.fds));
    && Within(a, b, |a.frames|) && LowUndone(b, |a.frames|) == m.fds && raised == m.raised
    && (!raised ==> |b.frames| == |a.frames|)
  }

  /** `redirectsafe(redir, REDIR_PUSH)` behind `pushredir(redir)`. */
  method Enter(sh: Shell, list: seq<Redirection>) returns (stop: nat, ok: bool)
    requires sh.Valid() && LegalList(list)
    modifies sh
    ensures sh.Valid() && stop == |old(sh.redirlist)|
    ensures list == [] ==> ok && sh.Now() == old(sh.Now())
    ensures list != [] ==> Entered(old(sh.Now()), list, ok, sh.Now())
  {
    hide Fits, Steady, Entered, Effect, Low, LastNoted;
    ghost var a := sh.Now();
    stop := sh.PushRedir(list);
    ok := true;
    if list != [] {
      ghost var p := sh.Now();
      ok := sh.Redirect(list, true);
      SteadyGood(p, sh.Now(), true);
      EnterScope(a, p, list, ok, sh.Now());
    }
  }

  /** Running a body inside the redirections `list`, with everything still in place. */
  ghost predicate Inside(list: seq<Redirection>, body: Node, a: State, b: State, ok: bool, raised: bool) {
    var e := Effect(list, Low(a.fds), {}, true);
    var m := if e.ok then Meaning(body, e.fds) else Meant(e.fds, false);
    && Within(a, b, |a.frames|) && LowUndone(b, |a.frames|) == Restore(m.fds, Low(a.fds), e.noted)
    && ok == e.ok && raised == m.raised
    && (!raised ==> |b.frames| == if list == [] then |a.frames| else |a.frames| + 1)
    && (list != [] ==> |b.frames| > |a.frames|)
  }

  lemma InsideBody(list: seq<Redirection>, body: Node, a: State, c: State, b: State, raised: bool)
    requires Good(a) && Ran(body, c, b, raised)
    requires if list == [] then c == a else Entered(a, list, true, c)
    ensures Inside(list, body, a, b, true, raised)
  {
    hide Meaning, Within, LowUndone;
    if list != [] {
      LeaveScope(a, list, true, c, b);
      WithinGood(c, b, |c.frames|);
    }
  }

  lemma InsideFailed(list: seq<Redirection>, body: Node, a: State, c: State)
    requires Good(a) && Good(c) && Entered(a, list, false, c) && list != []
    ensures Inside(list, body, a, c, false, false)
  {
    hide Meaning, Within, LowUndone;
    WithinRefl(c);
    LeaveScope(a, list, false, c, c);
    LowNow(c);
  }

  /** `evaltree`, as far as it concerns descriptors. */
  method Eval(sh: Shell, n: Node) returns (raised: bool)
    requires sh.Valid() && LegalNode(n)
    modifies sh
    ensures Ran(n, old(sh.Now()), sh.Now(), raised)
    decreases n, 1
  {
    hide Fits, Low, LowUndone, Within, Restore, Effect, Inside, Unwound;
    ghost var a := sh.Now();
    WithinRefl(a);
    LowNow(a);
    match n {
      case Quiet =>
        raised := false;
      case Raise =>
        raised := true;
      case Seq(first, second) =>
        raised := Eval(sh, first);
        if !raised {
          ghost var b := sh.Now();
          WithinGood(a, b, |a.frames|);
          LowNow(b);
          raised := Eval(sh, second);
          WithinTrans(a, b, sh.Now(), |a.frames|);
        }
      case Redirected(list, body) =>
        raised := EvalRedirected(sh, list, body);
      case Builtin(list, body, special, fails, catches) =>
        raised := EvalBuiltin(sh, list, body, special, fails, catches);
      case Exec(list, special) =>
        raised := EvalExec(sh, list, special);
    }
  }

  /** NREDIR: a compound command with redirections. */
  method EvalRedirected(sh: Shell, list: seq<Redirection>, body: Node) returns (raised: bool)
    requires sh.Valid() && LegalList(list) && LegalNode(body)
    modifies sh
    ensures Ran(Redirected(list, body), old(sh.Now()), sh.Now(), raised)
    decreases body, 2
  {
    hide Fits, Low, LowUndone, Within, Restore, Effect, Entered, Unwound, LegalNode;
    ghost var a := sh.Now();
    var stop, ok := Enter(sh, list);
    ghost var c := sh.Now();
    raised := false;
    if ok {
      raised := Eval(sh, body);
      InsideBody(list, body, a, c, sh.Now(), raised);
      if raised {
        return;
      }
    } else {
      InsideFailed(list, body, a, c);
    }
    ghost var b := sh.Now();
    WithinGood(a, b, |a.frames|);
    if list != [] {
      sh.PopRedir(false);
      UnwoundWithin(b, sh.Now(), |a.frames|, false, |a.frames|);
      UnwoundGood(b, sh.Now(), |a.frames|, false);
      WithinTrans(a, b, sh.Now(), |a.frames|);
    }
  }

  /** A builtin that may run commands, such as `eval`, with redirections of its own. */
  method EvalBuiltin(sh: Shell, list: seq<Redirection>, body: Node, special: bool, fails: bool, catches: bool)
    returns (raised: bool)
    requires sh.Valid() && LegalList(list) && LegalNode(body)
    modifies sh
    ensures Ran(Builtin(list, body, special, fails, catches), old(sh.Now()), sh.Now(), raised)
    decreases body, 2
  {
    hide Fits, Low, LowUndone, Within, Restore, Effect, Entered, Unwound, LegalNode;
    ghost var a := sh.Now();
    var stop, ok := Enter(sh, list);
    ghost var c := sh.Now();
    raised := false;
    if ok {
      raised := Eval(sh, body);
      InsideBody(list, body, a, c, sh.Now(), raised);
      raised := (raised || fails) && !catches;
      if raised {
        return;
      }
    } else {
      InsideFailed(list, body, a, c);
      if special {
        return true;
      }
    }
    ghost var b := sh.Now();
    WithinGood(a, b, |a.frames|);
    if list != [] {
      sh.PopRedir(false);
      UnwoundWithin(b, sh.Now(), |b.frames| - 1, false, |a.frames|);
      UnwoundGood(b, sh.Now(), |b.frames| - 1, false);
      WithinTrans(a, b, sh.Now(), |a.frames|);
    }
    ghost var p := sh.Now();
    sh.UnwindRedir(stop, false);
    UnwoundWithin(p, sh.Now(), |a.frames|, false, |a.frames|);
    UnwoundGood(p, sh.Now(), |a.frames|, false);
    WithinTrans(a, p, sh.Now(), |a.frames|);
  }

  /** `exec` without a command: what its redirections did stays, unless one failed and the error is fatal. */
  method EvalExec(sh: Shell, list: seq<Redirection>, special: bool) returns (raised: bool)
    requires sh.Valid() && LegalList(list)
    modifies sh
    ensures Ran(Exec(list, special), old(sh.Now()), sh.Now(), raised)
  {
    hide Fits, Low, LowUndone, Within, Restore, Unwound;
    ghost var a := sh.Now();
    WithinRefl(a);
    LowNow(a);
    var stop, ok := Enter(sh, list);
    ghost var c := sh.Now();
    raised := !ok && special;
    if raised {
      InsideFailed(list, Quiet, a, c);
      return;
    }
    if list != [] {
      sh.PopRedir(true);
      UnwoundWithin(c, sh.Now(), |a.frames|, true, |a.frames|);
      UnwoundGood(c, sh.Now(), |a.frames|, true);
      WithinTrans(a, c, sh.Now(), |a.frames|);
    }
    ghost var p := sh.Now();
    LowNow(p);
    sh.UnwindRedir(stop, false);
    UnwoundWithin(p, sh.Now(), |a.frames|, false, |a.frames|);
    UnwoundGood(p, sh.Now(), |a.frames|, false);
    WithinTrans(a, p, sh.Now(), |a.frames|);
  }

  /**
   * A command at the top level; an error that reaches it unwinds all redirections. Descriptors 0 to 9 are then
   * what the command means, no saved descriptor is left, and without `exec` the whole table is as it was.
   */
  method Toplevel(sh: Shell, n: Node) returns (raised: bool)
    requires sh.Valid() && sh.redirlist == [] && LegalNode(n)
    modifies sh
    ensures sh.Valid() && sh.redirlist == [] && raised == Meaning(n, Low(old(sh.fds))).raised
    ensures Low(sh.fds) == Meaning(n, Low(old(sh.fds))).fds
    ensures forall f :: f >= 10 ==> Value(sh.fds, f) == Value(old(sh.fds), f)
    ensures NoExec(n) ==> sh.fds == old(sh.fds)
  {
    ghost var a := sh.Now();
    raised := Eval(sh, n);
    ghost var b := sh.Now();
    WithinGood(a, b, 0);
    if raised {
      sh.UnwindRedir(0, false);
      UnwoundWithin(b, sh.Now(), 0, false, 0);
      WithinTrans(a, b, sh.Now(), 0);
    }
    LowNow(sh.Now());
    NothingSaved(a, sh.Now());
    if NoExec(n) {
      Restores(n, Low(a.fds));
      AllBack(a, sh.Now());
    }
  }

  lemma NothingSaved(a: State, b: State)
    requires Good(a) && Within(a, b, 0) && a.frames == [] == b.frames
    ensures forall f :: f >= 10 ==> Value(b.fds, f) == Value(a.fds, f)
  {
    forall f | f >= 10
      ensures Value(b.fds, f) == Value(a.fds, f)
    {
      assert f !in a.owner && f !in b.owner;
      assert Value(Extra(b.fds, b.owner), f) == Value(Extra(a.fds, a.owner), f);
    }
  }

  lemma AllBack(a: State, b: State)
    requires Good(a) && Good(b) && Low(b.fds) == Low(a.fds)
    requires forall f :: f >= 10 ==> Value(b.fds, f) == Value(a.fds, f)
    ensures b.fds == a.fds
  {
    forall f
      ensures Value(b.fds, f) == Value(a.fds, f)
    {
      assert f < 0 ==> f !in a.fds && f !in b.fds;
      assert 0 <= f < 10 ==> Value(Low(b.fds), f) == Value(Low(a.fds), f);
    }
    SameTable(b.fds, a.fds);
  }
}
