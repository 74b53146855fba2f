/** Local scopes as a whole (src/var.c), and the commands that open and close them (src/eval.c). */
module VarEval {
  import opened Chars
  import opened Vars
  import opened VarState
  import opened VarScopes
  import opened VarStack

  // ---------- Scopes come and go ----------

  lemma PushScope(a: State, p: State)
    requires Good(a) && Tidy(a) && p == a.(frames := a.frames + [[]])
    ensures Good(p) && Tidy(p) && Keeps(a, p, |a.frames|)
    ensures EnvOf(p) == Env(Shown(a), map[])
  {
    PushGood(a, p);
    assert p.frames[..|a.frames|] == a.frames == a.frames[..|a.frames|];
    assert Shown(p) == Shown(a);
  }

  /** An empty scope at the end changes no fact about the others. */
  lemma EmptyScope(frames: seq<Frame>, name: string, k: nat)
    requires k <= |frames|
    ensures TopIn(frames + [[]], name, k) == TopIn(frames, name, k)
    ensures TopIn(frames + [[]], name, |frames| + 1) == TopIn(frames, name, |frames|)
  {
    TopInSame(frames + [[]], frames, name, k);
    TopInSame(frames + [[]], frames, name, |frames|);
  }

  lemma PushFits(a: State, p: State, k: nat, name: string, id: nat)
    requires Good(a) && p == a.(frames := a.frames + [[]])
    ensures name in a.table ==> EntryFits(p, name)
    ensures Recorded(p, k, name) ==> SavedFits(p, k, name)
    ensures id in a.owner ==> OwnerFits(p, id)
  {
    hide Good, Find;
    EmptyScope(a.frames, name, if k <= |a.frames| then k else 0);
    EmptyFind(name);
    if name in a.table {
      GoodEntry(a, name);
    }
    if Recorded(a, k, name) {
      GoodSaved(a, k, name);
    }
    if id in a.owner {
      GoodOwner(a, id);
    }
  }

  lemma EmptyFind(name: string)
    ensures Find([], name).None?
  {
  }

  lemma PushGood(a: State, p: State)
    requires Good(a) && p == a.(frames := a.frames + [[]])
    ensures Good(p)
  {
    hide Good, EntryFits, SavedFits, OwnerFits, Find, TopIn;
    forall id
      ensures id in p.heap ==> id in p.owner
      ensures id in p.owner ==> OwnerFits(p, id)
    {
      GoodHeap(a, id);
      PushFits(a, p, 0, [], id);
    }
    forall name
      ensures name in p.table ==> EntryFits(p, name)
    {
      PushFits(a, p, 0, name, 0);
    }
    forall k, name | Recorded(p, k, name)
      ensures SavedFits(p, k, name)
    {
      PushFits(a, p, k, name, 0);
    }
    forall k | 0 <= k < |p.frames|
      ensures Distinct(p.frames[k])
    {
      if k < |a.frames| {
        GoodDistinct(a, k);
      }
    }
    Assemble(p);
  }

  lemma DropFits(a: State, c: State, k: nat, name: string, id: nat)
    requires Good(a) && a.frames != [] && Top(a) == [] && c == a.(frames := a.frames[..|a.frames| - 1])
    ensures name in a.table ==> EntryFits(c, name)
    ensures Recorded(c, k, name) ==> SavedFits(c, k, name)
    ensures id in a.owner ==> OwnerFits(c, id)
  {
    hide Good, Find;
    assert a.frames == c.frames + [[]];
    EmptyScope(c.frames, name, if k <= |c.frames| then k else 0);
    EmptyFind(name);
    if name in a.table {
      GoodEntry(a, name);
      EmptyScope(c.frames, name, |c.frames|);
    }
    if Recorded(c, k, name) {
      assert Recorded(a, k, name);
      GoodSaved(a, k, name);
    }
    if id in a.owner {
      GoodOwner(a, id);
      EmptyFind(a.owner[id].name);
    }
  }

  lemma DropGood(a: State, c: State)
    requires Good(a) && a.frames != [] && Top(a) == [] && c == a.(frames := a.frames[..|a.frames| - 1])
    ensures Good(c)
  {
    hide Good, EntryFits, SavedFits, OwnerFits, Find, TopIn;
    forall id
      ensures id in c.heap ==> id in c.owner
      ensures id in c.owner ==> OwnerFits(c, id)
    {
      GoodHeap(a, id);
      DropFits(a, c, 0, [], id);
    }
    forall name
      ensures name in c.table ==> EntryFits(c, name)
    {
      DropFits(a, c, 0, name, 0);
    }
    forall k, name | Recorded(c, k, name)
      ensures SavedFits(c, k, name)
    {
      DropFits(a, c, k, name, 0);
    }
    forall k | 0 <= k < |c.frames|
      ensures Distinct(c.frames[k])
    {
      GoodDistinct(a, k);
    }
    Assemble(c);
  }

  /** An empty scope restores nothing. */
  lemma DropScope(a: State, c: State)
    requires Good(a) && Tidy(a) && a.frames != [] && Top(a) == [] && c == a.(frames := a.frames[..|a.frames| - 1])
    ensures Good(c) && Tidy(c) && Keeps(a, c, |c.frames|) && EnvOf(a) == Env(Shown(c), map[])
  {
    DropGood(a, c);
    assert c.frames[..|c.frames|] == c.frames;
    assert Shown(c) == Shown(a);
  }

  // ---------- Leaving a scope ----------

  /** What is visible behind a scope. */
  function Behind(env: Env, keep: bool): View {
    if keep then Kept(env.view, env.saved) else Overlay(env.view, env.saved)
  }

  lemma PopSame(env: Env, name: string, keep: bool)
    requires name in env.saved && (keep ==> name in env.view)
    ensures Behind(PopName(env, name, keep), keep) == Behind(env, keep)
  {
    hide Overlay, Kept, KeptOne, Put, PopName;
    var e := PopName(env, name, keep);
    PopNameIs(env, name, keep);
    forall other
      ensures Get(Behind(e, keep), other) == Get(Behind(env, keep), other)
    {
      OverlayGet(env.view, env.saved, other);
      OverlayGet(e.view, e.saved, other);
      KeptGet(env.view, env.saved, other);
      KeptGet(e.view, e.saved, other);
      PutGet(env.view, name, if keep then KeptOne(env.view[name], env.saved[name]) else env.saved[name], other);
    }
    SameView(Behind(e, keep), Behind(env, keep));
  }

  lemma PopNameIs(env: Env, name: string, keep: bool)
    requires name in env.saved && (keep ==> name in env.view)
    ensures PopName(env, name, keep) ==
              Env(Put(env.view, name, if keep then KeptOne(env.view[name], env.saved[name]) else env.saved[name]),
                  env.saved - {name})
  {
  }

  lemma BehindNothing(view: View, keep: bool)
    ensures Behind(Env(view, map[]), keep) == view
  {
    forall name
      ensures Get(Behind(Env(view, map[]), keep), name) == Get(view, name)
    {
      OverlayGet(view, map[], name);
      KeptGet(view, map[], name);
    }
    SameView(Behind(Env(view, map[]), keep), view);
  }

  /** A state between the start `a` of `poplocalvars` and its end. */
  ghost predicate Midway(a: State, b: State, view: View, keep: bool) {
    && Good(b) && Tidy(b) && a.frames != [] && |b.frames| == |a.frames| && Keeps(a, b, |a.frames| - 1)
    && Behind(EnvOf(b), keep) == view
  }

  lemma LeavingStep(a: State, b: State, c: State, view: View, keep: bool)
    requires Midway(a, b, view, keep) && Top(b) != []
    requires Stepped(b, c, PopName(EnvOf(b), Top(b)[0].name, keep))
    ensures Midway(a, c, view, keep) && EnvOf(c) == PopName(EnvOf(b), Top(b)[0].name, keep)
  {
    hide Good, Tidy, SavedAt, Shown, Keeps, Behind;
    HeadSaved(b);
    GetShown(b, Top(b)[0].name);
    PopSame(EnvOf(b), Top(b)[0].name, keep);
    KeepsTrans(a, b, c, |a.frames| - 1);
  }

  /** A variable that can be left makes no difference to the others. */
  lemma StuckStep(env: Env, name: string, keep: bool)
    requires name in env.saved && (keep ==> name in env.view) && !Sticks(env, name, keep)
    ensures Stuck(PopName(env, name, keep), keep) <==> Stuck(env, keep)
  {
    hide KeptOne;
    var e := PopName(env, name, keep);
    PopNameIs(env, name, keep);
    forall other | other in e.saved
      ensures other in env.saved && Sticks(e, other, keep) == Sticks(env, other, keep)
    {
    }
    forall other | other in env.saved && Sticks(env, other, keep)
      ensures other in e.saved
    {
    }
    StuckIs(env, keep);
    StuckIs(e, keep);
  }

  lemma StuckIs(env: Env, keep: bool)
    ensures Stuck(env, keep) <==> exists name :: name in env.saved && Sticks(env, name, keep)
  {
    if keep {
    } else if Stuck(env, keep) {
      var name :| name in env.saved && env.saved[name].None? && !IsVarName(name);
      assert Sticks(env, name, keep);
    }
  }

  lemma NotStuck(a: State, keep: bool)
    requires a.frames != [] && Top(a) == []
    ensures !Stuck(EnvOf(a), keep)
  {
    assert SavedAt(a, |a.frames| - 1) == map[];
  }

  lemma LeavingEnd(a: State, b: State, c: State, view: View, keep: bool)
    requires Midway(a, b, view, keep) && Top(b) == [] && c == b.(frames := b.frames[..|b.frames| - 1])
    ensures Good(c) && Tidy(c) && Keeps(a, c, |c.frames|) && Shown(c) == view
  {
    hide Good, Tidy, SavedAt, Shown, Keeps, Behind;
    DropScope(b, c);
    BehindNothing(Shown(c), keep);
    KeepsTrans(a, b, c, |c.frames|);
  }

  /** `pushlocalvars` */
  method PushLocalVars(sh: Shell) returns (stop: nat)
    requires sh.Valid()
    modifies sh`localvars
    ensures stop == |old(sh.localvars)| && sh.localvars == old(sh.localvars) + [[]] && sh.Valid()
    ensures Keeps(old(sh.Now()), sh.Now(), stop) && EnvOf(sh.Now()) == Env(Shown(old(sh.Now())), map[])
  {
    stop := |sh.localvars|;
    ghost var a := sh.Now();
    hide Good, Tidy, Keeps, Shown, SavedAt;
    sh.localvars := sh.localvars + [[]];
    PushScope(a, sh.Now());
  }

  /** The records from number `k` on of the scope that is being left are still there, and so are their entries. */
  predicate Remaining(was: Frame, now: Frame, k: nat, before: map<string, Var>, table: map<string, Var>) {
    && k <= |was| && now == was[k..]
    && forall i :: k <= i < |was| ==> was[i].name in before && was[i].name in table && table[was[i].name] == before[was[i].name]
  }

  lemma RemainingStep(was: Frame, now: Frame, k: nat, before: map<string, Var>, mid: map<string, Var>, table: map<string, Var>,
                      ok: bool)
    requires Remaining(was, now, k, before, mid) && now != [] && Distinct(was) && OthersSame(mid, table, now[0].name, ok)
    ensures Remaining(was, now[1..], k + 1, before, table)
  {
    forall i | k + 1 <= i < |was|
      ensures was[i].name in table && table[was[i].name] == before[was[i].name]
    {
      DistinctAt(was, k, i);
      assert was[i].name in mid - {now[0].name};
      assert (mid - {now[0].name})[was[i].name] == (table - {now[0].name})[was[i].name];
    }
  }

  lemma {:induction false} DistinctAt(frame: Frame, i: nat, j: nat)
    requires Distinct(frame) && i < j < |frame|
    ensures frame[i].name != frame[j].name
  {
    if i == 0 {
      FindAt(frame[1..], j - 1);
    } else {
      DistinctAt(frame[1..], i - 1, j - 1);
    }
  }

  lemma {:induction false} FindAt(frame: Frame, j: nat)
    requires j < |frame|
    ensures Find(frame, frame[j].name).Some?
  {
    if frame[0].name != frame[j].name {
      FindAt(frame[1..], j - 1);
    }
  }

  lemma RemainingStart(a: State)
    requires Good(a) && a.frames != []
    ensures Remaining(Top(a), Top(a), 0, a.table, a.table) && Distinct(Top(a))
  {
    hide Good;
    GoodDistinct(a, |a.frames| - 1);
    forall i | 0 <= i < |Top(a)|
      ensures Top(a)[i].name in a.table
    {
      FindAt(Top(a), i);
      assert Recorded(a, |a.frames| - 1, Top(a)[i].name);
      GoodSaved(a, |a.frames| - 1, Top(a)[i].name);
    }
  }

  /** A scope has been left up to record `k`, whose variable should have gone and is still there. */
  ghost predicate HalfLeft(was: Frame, k: nat, before: map<string, Var>, table: map<string, Var>, stuck: set<string>) {
    && k < |was| && stuck == {was[k].name} && !IsVarName(was[k].name) && was[k].name in table
    && Remaining(was, was[k + 1..], k + 1, before, table)
  }

  /**
   * `poplocalvars`. It fails at the first record whose variable has to be unset and cannot be. By then the scope is
   * gone, and so are the records behind this one: their variables keep what they have.
   */
  method PopLocalVars(sh: Shell, keep: bool) returns (ok: bool)
    requires sh.Valid() && sh.localvars != []
    modifies sh`table, sh`localvars, sh`heap, sh`owner, sh`stuck
    ensures ok == !Stuck(EnvOf(old(sh.Now())), keep) && |sh.localvars| == |old(sh.localvars)| - 1
    ensures ok ==>
              && sh.Valid() && Keeps(old(sh.Now()), sh.Now(), |sh.localvars|)
              && Shown(sh.Now()) == Behind(EnvOf(old(sh.Now())), keep)
    ensures !ok ==> exists k :: HalfLeft(Top(old(sh.Now())), k, old(sh.table), sh.table, sh.stuck)
  {
    hide Good, Tidy, Keeps, Shown, Stepped, EnvOf, Behind, Stuck, Sticks, PopName, Remaining, Distinct, OthersSame;
    ghost var a := sh.Now();
    ghost var view := Behind(EnvOf(a), keep);
    LeavingStart(a, keep);
    RemainingStart(a);
    ghost var k := 0;
    while sh.localvars[|sh.localvars| - 1] != []
      invariant sh.localvars != [] && sh.Valid() && |sh.localvars| == |a.frames|
      invariant Midway(a, sh.Now(), view, keep) && Stuck(EnvOf(sh.Now()), keep) == Stuck(EnvOf(a), keep)
      invariant Remaining(Top(a), sh.localvars[|sh.localvars| - 1], k, a.table, sh.table)
      decreases |sh.localvars[|sh.localvars| - 1]|
    {
      ghost var b := sh.Now();
      var name := sh.localvars[|sh.localvars| - 1][0].name;
      if keep {
        ok := sh.PopKeep();
      } else {
        ok := sh.PopBack();
      }
      RemainingIs(Top(a), Top(b), k, a.table, b.table);
      RemainingStep(Top(a), Top(b), k, a.table, b.table, sh.table, ok);
      if !ok {
        StickingIs(b, keep);
        OthersKept(b.table, sh.table, name);
        sh.stuck := {name};
        sh.localvars := sh.localvars[..|sh.localvars| - 1];
        assert HalfLeft(Top(old(sh.Now())), k, old(sh.table), sh.table, sh.stuck);
        return;
      }
      LeavingStep(a, b, sh.Now(), view, keep);
      PoppedIs(b, keep);
      StuckStep(EnvOf(b), name, keep);
      k := k + 1;
    }
    ghost var b := sh.Now();
    NotStuck(b, keep);
    sh.localvars := sh.localvars[..|sh.localvars| - 1];
    LeavingEnd(a, b, sh.Now(), view, keep);
    ok := true;
  }

  lemma RemainingIs(was: Frame, now: Frame, k: nat, before: map<string, Var>, table: map<string, Var>)
    requires Remaining(was, now, k, before, table)
    ensures k <= |was| && now == was[k..]
  {
  }

  lemma OthersKept(was: map<string, Var>, now: map<string, Var>, name: string)
    requires OthersSame(was, now, name, false)
    ensures name in now
  {
  }

  lemma PoppedIs(b: State, keep: bool)
    requires Good(b) && b.frames != [] && Top(b) != []
    ensures Top(b)[0].name in EnvOf(b).saved && Top(b)[0].name in EnvOf(b).view
  {
    hide Good, Find;
    HeadSaved(b);
    GetShown(b, Top(b)[0].name);
  }

  lemma StickingIs(b: State, keep: bool)
    requires CanPop(b, keep) && Sticks(EnvOf(b), Top(b)[0].name, keep)
    ensures Stuck(EnvOf(b), keep) && !IsVarName(Top(b)[0].name)
  {
    StuckIs(EnvOf(b), keep);
  }

  lemma LeavingStart(a: State, keep: bool)
    requires Good(a) && Tidy(a) && a.frames != []
    ensures Midway(a, a, Behind(EnvOf(a), keep), keep)
  {
  }

  lemma SteppedGood(a: State, b: State, env: Env)
    requires Stepped(a, b, env)
    ensures Good(b) && Tidy(b) && |b.frames| == |a.frames|
  {
  }

  /** What `local x=1; local a-b=1` makes of an empty scope. */
  const TWO_RECORDS: Frame := [Saved("a-b", VUNSET, Static([]), -1), Saved("x", VUNSET, Static([]), -1)]

  lemma TwoStuck(b: State)
    requires b.frames == [TWO_RECORDS] && "a-b" in b.table
    ensures Stuck(EnvOf(b), false)
  {
    assert "a-b"[1] == '-' && !IsInName('-');
    var saved := SavedAt(b, 0);
    assert Find(TWO_RECORDS, "a-b") == Some(TWO_RECORDS[0]);
    assert "a-b" in saved && saved["a-b"].None?;
  }

  lemma OneFrame(before: seq<Frame>, now: seq<Frame>, r: Saved)
    requires |before| == 1 && now == WithTop(before, [r] + before[0])
    ensures now == [[r] + before[0]] && (before[0] == [] ==> now == [[r]])
    ensures before[0] == TWO_RECORDS[1..] && r == TWO_RECORDS[0] ==> now == [TWO_RECORDS]
  {
    assert TWO_RECORDS == [TWO_RECORDS[0]] + TWO_RECORDS[1..] && [r] + [] == [r];
  }

  lemma FirstHalf(k: nat, before: map<string, Var>, table: map<string, Var>, stuck: set<string>)
    requires HalfLeft(TWO_RECORDS, k, before, table, stuck)
    ensures stuck != {} && "a-b" in table && "x" in before && "x" in table && table["x"] == before["x"]
  {
    assert IsVarName("x");
    assert TWO_RECORDS[1].name == "x";
  }

  /** Behind `local x=1; local a-b=1`, the local `x` is still there, in a scope that is gone. */
  method LeavesHalf() returns (sh: Shell)
    ensures !sh.Valid() && sh.localvars == []
    ensures "x" in sh.table && sh.table["x"].local == 0 && sh.table["x"].flags.strfixed && "a-b" in sh.table
  {
    hide Good, Tidy, Stepped, LocalIn, Stuck, Keeps, Shown, HalfLeft, EntryFits;
    sh := new Shell();
    var stop := PushLocalVars(sh);
    ghost var p := sh.Now();
    assert p.frames == [[]];
    var ok := sh.MkLocal("x", Some("1"));
    ghost var a := sh.Now();
    SteppedGood(p, a, LocalIn(EnvOf(p), "x", Some("1"), sh.aflag).env);
    LocalIsFixed(a, "x");
    OneFrame(p.frames, a.frames, TWO_RECORDS[1]);
    assert p.table - {"x"} == map[] && ("a-b" in a.table ==> "a-b" in a.table - {"x"});
    ok := sh.MkLocal("a-b", Some("1"));
    ghost var b := sh.Now();
    SteppedGood(a, b, LocalIn(EnvOf(a), "a-b", Some("1"), sh.aflag).env);
    OneFrame(a.frames, b.frames, TWO_RECORDS[0]);
    assert "x" in a.table - {"a-b"} && (a.table - {"a-b"})["x"] == (b.table - {"a-b"})["x"];
    TwoStuck(b);
    ok := PopLocalVars(sh, false);
    ghost var k :| HalfLeft(Top(b), k, b.table, sh.table, sh.stuck);
    FirstHalf(k, b.table, sh.table, sh.stuck);
  }

  lemma LocalIsFixed(a: State, name: string)
    requires Good(a) && name in a.table && a.table[name].local >= 0
    ensures a.table[name].flags.strfixed
  {
    GoodEntry(a, name);
  }

  // ---------- Undoing several scopes ----------

  lemma ShownUndoneGet(s: State, d: nat, name: string)
    requires Good(s)
    ensures Get(ShownUndone(s, d), name) == Undone(s, d, name)
  {
    hide Good, Restores, Find;
    UndoneKnown(s, d, name);
  }

  lemma {:induction false} UndoneKnown(s: State, d: nat, name: string)
    requires Good(s)
    ensures name !in s.table ==> Undone(s, d, name).None?
    decreases |s.frames| - d
  {
    hide Good, Restores, Find;
    if d < |s.frames| {
      if Find(s.frames[d], name).Some? {
        assert Recorded(s, d, name);
        GoodSaved(s, d, name);
      } else {
        UndoneKnown(s, d + 1, name);
      }
    }
  }

  lemma UndoneNow(s: State)
    requires Good(s)
    ensures ShownUndone(s, |s.frames|) == Shown(s)
  {
    forall name
      ensures Get(ShownUndone(s, |s.frames|), name) == Get(Shown(s), name)
    {
      ShownUndoneGet(s, |s.frames|, name);
    }
    SameView(ShownUndone(s, |s.frames|), Shown(s));
  }

  /** What undoing scope `d` adds to undoing the scopes above it. */
  lemma UndoScope(s: State, d: nat)
    requires Good(s) && d < |s.frames|
    ensures ShownUndone(s, d) == Overlay(ShownUndone(s, d + 1), SavedAt(s, d))
  {
    hide Good, Overlay, Restores, Find;
    forall name
      ensures Get(ShownUndone(s, d), name) == Get(Overlay(ShownUndone(s, d + 1), SavedAt(s, d)), name)
    {
      OverlayGet(ShownUndone(s, d + 1), SavedAt(s, d), name);
      ShownUndoneGet(s, d, name);
      ShownUndoneGet(s, d + 1, name);
      if Recorded(s, d, name) {
        GoodSaved(s, d, name);
      }
    }
    SameView(ShownUndone(s, d), Overlay(ShownUndone(s, d + 1), SavedAt(s, d)));
  }

  /** Saved records that are kept restore the same. */
  lemma KeepsSaved(a: State, b: State, depth: nat, d: nat)
    requires Good(a) && Good(b) && Keeps(a, b, depth) && d < depth
    ensures SavedAt(b, d) == SavedAt(a, d)
  {
    hide Good, Find, Restores;
    assert b.frames[d] == b.frames[..depth][d] == a.frames[d];
    forall name | Find(a.frames[d], name).Some?
      ensures name in a.table && name in b.table
      ensures Restores(b, Find(a.frames[d], name).value) == Restores(a, Find(a.frames[d], name).value)
    {
      assert Recorded(a, d, name) && Recorded(b, d, name);
      GoodSaved(a, d, name);
      GoodSaved(b, d, name);
    }
  }

  /** Undoing the last scope first, and then the others. */
  lemma {:induction false} UndoLast(a: State, b: State, d: nat)
    requires Good(a) && Good(b) && a.frames != [] && |b.frames| == |a.frames| - 1 && d <= |b.frames|
    requires Keeps(a, b, |b.frames|) && Shown(b) == Behind(EnvOf(a), false)
    ensures ShownUndone(b, d) == ShownUndone(a, d)
    decreases |a.frames| - d
  {
    hide Good, Keeps, Overlay, ShownUndone, SavedAt, Shown;
    UndoScope(a, d);
    if d == |b.frames| {
      UndoneNow(a);
      UndoneNow(b);
    } else {
      UndoScope(b, d);
      KeepsSaved(a, b, |b.frames|, d);
      UndoLast(a, b, d + 1);
    }
  }

  /** What is visible when scopes are left one by one, the last first, each keeping its changes. */
  function KeptFrom(view: View, saves: seq<map<string, Option<Seen>>>): View {
    if saves == [] then view else KeptFrom(Kept(view, saves[|saves| - 1]), saves[..|saves| - 1])
  }

  /** What the scopes from `d` on will restore. */
  function SavesFrom(s: State, d: nat): seq<map<string, Option<Seen>>>
    requires d <= |s.frames|
  {
    seq(|s.frames| - d, i requires 0 <= i < |s.frames| - d => SavedAt(s, d + i))
  }

  /** Behind the scopes from `d` on. */
  function BehindAll(s: State, d: nat, keep: bool): View
    requires d <= |s.frames|
  {
    if keep then KeptFrom(Shown(s), SavesFrom(s, d)) else ShownUndone(s, d)
  }

  lemma SavesLast(a: State, b: State, d: nat)
    requires Good(a) && Good(b) && a.frames != [] && |b.frames| == |a.frames| - 1 && d <= |b.frames|
    requires Keeps(a, b, |b.frames|)
    ensures var saves := SavesFrom(a, d);
            saves != [] && saves[|saves| - 1] == SavedAt(a, |b.frames|) && SavesFrom(b, d) == saves[..|saves| - 1]
  {
    hide Good, Keeps, SavedAt;
    var saves := SavesFrom(a, d);
    forall i | 0 <= i < |b.frames| - d
      ensures SavesFrom(b, d)[i] == saves[..|saves| - 1][i]
    {
      KeepsSaved(a, b, |b.frames|, d + i);
    }
    assert SavesFrom(b, d) == saves[..|saves| - 1];
  }

  lemma KeepLast(a: State, b: State, d: nat)
    requires Good(a) && Good(b) && a.frames != [] && |b.frames| == |a.frames| - 1 && d <= |b.frames|
    requires Keeps(a, b, |b.frames|) && Shown(b) == Behind(EnvOf(a), true)
    ensures KeptFrom(Shown(b), SavesFrom(b, d)) == KeptFrom(Shown(a), SavesFrom(a, d))
  {
    hide Good, Keeps, Kept, SavedAt, Shown, SavesFrom;
    SavesLast(a, b, d);
  }

  /** One of the scopes that are to be left, the last first, each keeping its changes, cannot be. */
  ghost predicate StuckFrom(view: View, saves: seq<map<string, Option<Seen>>>) {
    saves != [] &&
    var last := |saves| - 1;
    Stuck(Env(view, saves[last]), true) || StuckFrom(Kept(view, saves[last]), saves[..last])
  }

  /** One of the scopes from `d` on cannot be undone. */
  ghost predicate Rejecting(s: State, d: nat) {
    exists k :: d <= k < |s.frames| && Unremovable(SavedAt(s, k))
  }

  /** One of the scopes from `d` on cannot be left. */
  ghost predicate Sticking(s: State, d: nat, keep: bool)
    requires d <= |s.frames|
  {
    if keep then StuckFrom(Shown(s), SavesFrom(s, d)) else Rejecting(s, d)
  }

  lemma StickLast(a: State, b: State, d: nat, keep: bool)
    requires Good(a) && Good(b) && a.frames != [] && |b.frames| == |a.frames| - 1 && d <= |b.frames|
    requires Keeps(a, b, |b.frames|) && Shown(b) == Behind(EnvOf(a), keep) && !Stuck(EnvOf(a), keep)
    ensures Sticking(a, d, keep) == Sticking(b, d, keep)
  {
    hide Good, Keeps, Kept, SavedAt, Shown, SavesFrom, Unremovable;
    if keep {
      hide Stuck;
      SavesLast(a, b, d);
    } else {
      RejectingLast(a, b, d);
    }
  }

  lemma RejectingLast(a: State, b: State, d: nat)
    requires Good(a) && Good(b) && a.frames != [] && |b.frames| == |a.frames| - 1 && d <= |b.frames|
    requires Keeps(a, b, |b.frames|) && !Unremovable(SavedAt(a, |b.frames|))
    ensures Rejecting(a, d) == Rejecting(b, d)
  {
    hide Good, Keeps, SavedAt, Unremovable;
    forall k | d <= k < |b.frames|
      ensures SavedAt(a, k) == SavedAt(b, k)
    {
      KeepsSaved(a, b, |b.frames|, k);
    }
  }

  lemma StickNow(a: State, d: nat, keep: bool)
    requires a.frames != [] && d < |a.frames| && Stuck(EnvOf(a), keep)
    ensures Sticking(a, d, keep)
  {
    hide SavedAt, Shown, Kept;
    if keep {
      assert SavesFrom(a, d)[|a.frames| - d - 1] == SavedAt(a, |a.frames| - 1);
    }
  }

  lemma UnwindLast(a: State, b: State, d: nat, keep: bool)
    requires Good(a) && Good(b) && a.frames != [] && |b.frames| == |a.frames| - 1 && d <= |b.frames|
    requires Keeps(a, b, |b.frames|) && Shown(b) == Behind(EnvOf(a), keep)
    ensures BehindAll(b, d, keep) == BehindAll(a, d, keep)
  {
    hide Good, Keeps, Kept, SavedAt, Shown, Behind, ShownUndone, EnvOf, KeptFrom, SavesFrom;
    if keep {
      KeepLast(a, b, d);
    } else {
      UndoLast(a, b, d);
    }
  }

  lemma BehindNone(s: State, keep: bool)
    requires Good(s)
    ensures BehindAll(s, |s.frames|, keep) == Shown(s)
  {
    hide Good;
    UndoneNow(s);
  }

  /** `unwindlocalvars`, up to an error in one of the scopes. */
  method UnwindLocalVars(sh: Shell, stop: nat, keep: bool) returns (ok: bool)
    requires sh.Valid() && stop <= |sh.localvars|
    modifies sh`table, sh`localvars, sh`heap, sh`owner, sh`stuck
    ensures ok == !Sticking(old(sh.Now()), stop, keep) && ok == !sh.Broken()
    ensures ok ==>
              && sh.Valid() && |sh.localvars| == stop && Keeps(old(sh.Now()), sh.Now(), stop)
              && Shown(sh.Now()) == BehindAll(old(sh.Now()), stop, keep)
  {
    hide Good, Tidy, Keeps, Shown, BehindAll, EnvOf, Behind, Sticking, Stuck, Remaining;
    ghost var a := sh.Now();
    KeepsRefl(a, stop);
    while |sh.localvars| != stop
      invariant sh.Valid() && stop <= |sh.localvars|
      invariant Keeps(a, sh.Now(), stop) && BehindAll(sh.Now(), stop, keep) == BehindAll(a, stop, keep)
      invariant Sticking(sh.Now(), stop, keep) == Sticking(a, stop, keep)
      decreases |sh.localvars|
    {
      ghost var b := sh.Now();
      ok := PopLocalVars(sh, keep);
      if !ok {
        StickNow(b, stop, keep);
        return;
      }
      UnwindLast(b, sh.Now(), stop, keep);
      StickLast(b, sh.Now(), stop, keep);
      KeepsLess(b, sh.Now(), |sh.localvars|, stop);
      KeepsTrans(a, b, sh.Now(), stop);
    }
    BehindNone(sh.Now(), keep);
    StickNone(sh.Now(), keep);
    ok := true;
  }

  lemma StickNone(s: State, keep: bool)
    ensures !Sticking(s, |s.frames|, keep)
  {
  }

  lemma KeepsRefl(a: State, depth: nat)
    requires depth <= |a.frames|
    ensures Keeps(a, a, depth)
  {
  }

  // ---------- Commands ----------

  /** A command has run from `a` to `b` and did what it means; scopes that it left behind are still to be undone. */
  ghost predicate Ran(n: Node, a: State, b: State, all: bool, raised: bool)
    requires a.frames != []
  {
    var m, d := Meaning(n, EnvOf(a), all), |a.frames| - 1;
    && Good(b) && Tidy(b) && Keeps(a, b, d) && d < |b.frames| && raised == m.raised
    && SavedAt(b, d) == m.env.saved && ShownUndone(b, d + 1) == m.env.view
    && (!raised ==> |b.frames| == d + 1) && (Rejecting(b, d + 1) <==> Pending(n, EnvOf(a), all))
  }

  lemma {:induction false} SteppedRan(n: Node, a: State, b: State, all: bool)
    requires a.frames != [] && Stepped(a, b, Meaning(n, EnvOf(a), all).env)
    requires n.Quiet? || n.Set? || n.Mark? || n.Local?
    ensures Ran(n, a, b, all, Meaning(n, EnvOf(a), all).raised)
  {
    hide Good, Tidy, Meaning, SavedAt, ShownUndone, Shown, Keeps;
    UndoneNow(b);
  }

  lemma {:induction false} RanSeq(first: Node, second: Node, a: State, b: State, c: State, all: bool, raised: bool)
    requires a.frames != [] && Ran(first, a, b, all, false) && b.frames != [] && Ran(second, b, c, all, raised)
    ensures Ran(Seq(first, second), a, c, all, raised)
  {
    hide Good, Tidy, SavedAt, ShownUndone, Shown, Keeps;
    UndoneNow(b);
    KeepsTrans(a, b, c, |a.frames| - 1);
    SeqMeans(first, second, EnvOf(a), all);
    hide Meaning;
  }

  lemma {:induction false} SeqMeans(first: Node, second: Node, env: Env, all: bool)
    ensures var m := Meaning(first, env, all);
            && Meaning(Seq(first, second), env, all) == (if m.raised then m else Meaning(second, m.env, all))
            && Pending(Seq(first, second), env, all) ==
                 if m.raised then Pending(first, env, all) else Pending(second, m.env, all)
  {
    hide SetIn, MarkIn, LocalIn, Overlay, Kept;
  }

  /** A scope whose body raised an error: it will be undone with the others. */
  lemma {:induction false} RanRaised(n: Node, body: Node, a: State, p: State, b: State, all: bool)
    requires Good(a) && a.frames != [] && |p.frames| == |a.frames| + 1 && n in {Scope(body), Keeping(body)}
    requires Good(p) && Keeps(a, p, |a.frames|) && EnvOf(p) == Env(Shown(a), map[]) && Ran(body, p, b, all, true)
    ensures Ran(n, a, b, all, true)
  {
    hide Good, Tidy, SavedAt, ShownUndone, Shown, Keeps, Overlay;
    var d := |a.frames| - 1;
    KeepsTrans(a, p, b, d + 1);
    KeepsSaved(a, b, d + 1, d);
    KeepsLess(a, b, d + 1, d);
    UndoScope(b, d + 1);
    RejectingStep(b, d + 1);
    ScopeMeans(n, body, EnvOf(a), all);
    hide Meaning, Pending, Rejecting, Unremovable;
  }

  lemma {:induction false} ScopeMeans(n: Node, body: Node, env: Env, all: bool)
    requires n in {Scope(body), Keeping(body)}
    ensures var m := Meaning(body, Env(env.view, map[]), all);
            && Meaning(n, env, all) == Meant(Env(Behind(m.env, n == Keeping(body) && !m.raised), env.saved), m.raised)
            && Pending(n, env, all) ==
                 (m.raised && (Unremovable(m.env.saved) || Pending(body, Env(env.view, map[]), all)))
  {
    hide Unremovable;
  }

  lemma RejectingStep(s: State, d: nat)
    requires d < |s.frames|
    ensures Rejecting(s, d) == (Unremovable(SavedAt(s, d)) || Rejecting(s, d + 1))
  {
    hide SavedAt, Unremovable;
  }

  /** A scope that has ended. */
  lemma {:induction false} RanScope(n: Node, body: Node, a: State, p: State, b: State, c: State, all: bool)
    requires Good(a) && a.frames != [] && |p.frames| == |a.frames| + 1 && n in {Scope(body), Keeping(body)}
    requires Good(p) && Keeps(a, p, |a.frames|) && EnvOf(p) == Env(Shown(a), map[]) && Ran(body, p, b, all, false)
    requires Good(c) && Tidy(c) && |c.frames| == |b.frames| - 1 && Keeps(b, c, |c.frames|)
    requires b.frames != [] && Shown(c) == Behind(EnvOf(b), n == Keeping(body))
    ensures Ran(n, a, c, all, false)
  {
    hide Good, Tidy, SavedAt, ShownUndone, Shown, Keeps, Behind;
    var d := |a.frames| - 1;
    KeepsTrans(a, p, b, d + 1);
    KeepsTrans(a, b, c, d + 1);
    KeepsSaved(a, c, d + 1, d);
    KeepsLess(a, c, d + 1, d);
    UndoneNow(b);
    UndoneNow(c);
    ScopeMeans(n, body, EnvOf(a), all);
    hide Meaning, Pending;
  }

  lemma RanGood(n: Node, a: State, b: State, all: bool, raised: bool)
    requires a.frames != [] && Ran(n, a, b, all, raised)
    ensures Good(b) && Tidy(b) && |b.frames| >= |a.frames| && (!raised ==> |b.frames| == |a.frames|)
    ensures raised == Meaning(n, EnvOf(a), all).raised
    ensures Rejecting(b, |a.frames|) == Pending(n, EnvOf(a), all)
  {
  }

  lemma LocalBreaks(a: State, name: string, value: Option<string>, all: bool)
    requires Good(a) && a.frames != []
    ensures Breaks(Local(name, value), EnvOf(a), all) <==>
              value.None? && !IsVarName(name) && !IsOptions(name, value) && name !in a.table
  {
    hide Good;
    InSaved(a, name);
  }

  /** A command whose error has been caught. */
  lemma {:induction false} RanTry(body: Node, a: State, b: State, c: State, all: bool, raised: bool)
    requires Good(a) && a.frames != [] && Ran(body, a, b, all, raised) && Good(c) && Tidy(c)
    requires |c.frames| == |a.frames| && Keeps(b, c, |a.frames|) && Shown(c) == ShownUndone(b, |a.frames|)
    ensures Ran(Try(body), a, c, all, false)
  {
    hide Good, Tidy, SavedAt, ShownUndone, Shown, Keeps;
    var d := |a.frames| - 1;
    KeepsSaved(b, c, d + 1, d);
    KeepsLess(b, c, d + 1, d);
    KeepsTrans(a, b, c, d);
    UndoneNow(c);
    TryMeans(body, EnvOf(a), all);
    hide Meaning;
  }

  lemma {:induction false} TryMeans(body: Node, env: Env, all: bool)
    ensures Meaning(Try(body), env, all) == Meant(Meaning(body, env, all).env, false) && !Pending(Try(body), env, all)
  {
  }

  /** A command has run, or has broken the scopes; that is not followed any further. */
  ghost predicate RanOrBroke(n: Node, a: State, sh: Shell, raised: bool)
    reads sh
    requires a.frames != []
  {
    if Breaks(n, EnvOf(a), sh.aflag) then raised && sh.Broken()
    else !sh.Broken() && Ran(n, a, sh.Now(), sh.aflag, raised)
  }

  lemma {:induction false} BreaksIn(n: Node, env: Env, all: bool)
    ensures n.Seq? ==>
              var m := Meaning(n.first, env, all);
              Breaks(n, env, all) == (Breaks(n.first, env, all) || (!m.raised && Breaks(n.second, m.env, all)))
    ensures n.Scope? || n.Keeping? ==>
              var m := Meaning(n.body, Env(env.view, map[]), all);
              Breaks(n, env, all) == (Breaks(n.body, Env(env.view, map[]), all) || (!m.raised && Stuck(m.env, n.Keeping?)))
    ensures n.Try? ==> Breaks(n, env, all) == (Breaks(n.body, env, all) || Pending(n.body, env, all))
    ensures n.Quiet? || n.Set? || n.Mark? ==> !Breaks(n, env, all)
  {
    hide Meaning, Stuck, Pending;
  }

  lemma {:induction false} RanEnvOf(n: Node, a: State, b: State, all: bool)
    requires a.frames != [] && Ran(n, a, b, all, false)
    ensures b.frames != [] && EnvOf(b) == Meaning(n, EnvOf(a), all).env && !Meaning(n, EnvOf(a), all).raised
  {
    hide Good, Tidy, Meaning, SavedAt, ShownUndone, Shown, Keeps;
    UndoneNow(b);
  }

  /** Commands in a local scope. */
  method Eval(sh: Shell, n: Node) returns (raised: bool)
    requires sh.Valid() && sh.localvars != []
    modifies sh`table, sh`localvars, sh`heap, sh`owner, sh`loose, sh`stuck
    ensures RanOrBroke(n, old(sh.Now()), sh, raised)
    decreases n, 0
  {
    hide Good, Tidy, Ran, Stepped, Settled, EnvOf, SetNamed, MarkIn, LocalIn, Keeps, Overlay, Kept, Breaks;
    ghost var a := sh.Now();
    BreaksIn(n, EnvOf(a), sh.aflag);
    match n {
      case Quiet =>
        raised := false;
        Stay(a);
        SteppedRan(n, a, a, sh.aflag);
      case Set(name, value) =>
        var ok := sh.SetVar(name, value, NONE);
        SetRan(n, a, sh.Now(), sh.aflag);
        raised := !ok;
      case Mark(name, readonly) =>
        var ok := sh.MarkVar(name, readonly);
        SetRan(n, a, sh.Now(), sh.aflag);
        raised := !ok;
      case Local(name, value) =>
        LocalBreaks(a, name, value, sh.aflag);
        var ok := sh.MkLocal(name, value);
        if !sh.Broken() {
          LocalRan(name, value, a, sh.Now(), sh.aflag);
        }
        raised := !ok;
      case Seq(first, second) =>
        raised := Eval(sh, first);
        if sh.Broken() {
          return;
        }
        ghost var b := sh.Now();
        RanGood(first, a, b, sh.aflag, raised);
        if raised {
          RanFirst(first, second, a, b, sh.aflag);
        } else {
          RanEnvOf(first, a, b, sh.aflag);
          raised := Eval(sh, second);
          if !sh.Broken() {
            RanSeq(first, second, a, b, sh.Now(), sh.aflag, raised);
          }
        }
      case Scope(body) =>
        raised := EvalScope(sh, n, body, false);
      case Keeping(body) =>
        raised := EvalScope(sh, n, body, true);
      case Try(body) =>
        var stop := |sh.localvars|;
        raised := Eval(sh, body);
        if sh.Broken() {
          return;
        }
        ghost var b := sh.Now();
        RanGood(body, a, b, sh.aflag, raised);
        KeepsRefl(b, stop);
        UndoneNow(b);
        BehindUndoes(b, stop);
        if raised {
          var ok := UnwindLocalVars(sh, stop, false);
          if !ok {
            return;
          }
        }
        RanTry(body, a, b, sh.Now(), sh.aflag, raised);
        raised := false;
    }
  }

  lemma {:induction false} SetRan(n: Node, a: State, b: State, all: bool)
    requires a.frames != [] && (n.Set? || n.Mark?) && Settled(a, b, Meaning(n, EnvOf(a), all).env)
    ensures Ran(n, a, b, all, Meaning(n, EnvOf(a), all).raised)
  {
    hide Meaning, Ran;
    SettledIs(a, b, Meaning(n, EnvOf(a), all).env);
    SteppedRan(n, a, b, all);
  }

  lemma {:induction false} LocalRan(name: string, value: Option<string>, a: State, b: State, all: bool)
    requires a.frames != [] && Stepped(a, b, LocalIn(EnvOf(a), name, value, all).env)
    ensures var m := LocalIn(EnvOf(a), name, value, all); Ran(Local(name, value), a, b, all, m.raised)
  {
    hide Ran, LocalIn;
    SteppedRan(Local(name, value), a, b, all);
  }

  lemma Stay(a: State)
    requires Good(a) && Tidy(a) && a.frames != []
    ensures Stepped(a, a, EnvOf(a))
  {
    Stays(a);
  }

  lemma {:induction false} RanFirst(first: Node, second: Node, a: State, b: State, all: bool)
    requires a.frames != [] && Ran(first, a, b, all, true)
    ensures Ran(Seq(first, second), a, b, all, true)
  {
    SeqMeans(first, second, EnvOf(a), all);
    hide Meaning;
  }

  /** A function call or the assignments in front of a command: a scope of its own around `body`. */
  method EvalScope(sh: Shell, ghost n: Node, body: Node, keep: bool) returns (raised: bool)
    requires sh.Valid() && sh.localvars != [] && n == if keep then Keeping(body) else Scope(body)
    modifies sh`table, sh`localvars, sh`heap, sh`owner, sh`loose, sh`stuck
    ensures RanOrBroke(n, old(sh.Now()), sh, raised)
    decreases body, 1
  {
    hide Good, Tidy, Ran, EnvOf, Keeps, Shown, Breaks;
    ghost var a := sh.Now();
    var stop := PushLocalVars(sh);
    ghost var p := sh.Now();
    BreaksIn(n, EnvOf(a), sh.aflag);
    assert EnvOf(a).view == Shown(a) by {
      EnvShows(a);
    }
    raised := Eval(sh, body);
    if sh.Broken() {
      return;
    }
    ghost var b := sh.Now();
    RanGood(body, p, b, sh.aflag, raised);
    if raised {
      RanRaised(n, body, a, p, b, sh.aflag);
      return;
    }
    RanEnvOf(body, p, b, sh.aflag);
    var ok := PopLocalVars(sh, keep);
    if !ok {
      return true;
    }
    RanScope(n, body, a, p, b, sh.Now(), sh.aflag);
  }

  /** No two variables have one allocated text. */
  ghost predicate Unshared(s: State) {
    forall n1, n2 | n1 in s.table && n2 in s.table && s.table[n1].text.Heap? ::
      s.table[n1].text == s.table[n2].text ==> n1 == n2
  }

  lemma EnvShows(a: State)
    ensures EnvOf(a).view == Shown(a)
  {
  }

  /** Undoing, as one of two ways of leaving. */
  lemma BehindUndoes(s: State, d: nat)
    requires d <= |s.frames|
    ensures BehindAll(s, d, false) == ShownUndone(s, d) && Sticking(s, d, false) == Rejecting(s, d)
  {
  }

  /**
   * A command at the top level, in a scope of its own. The scopes stay sound exactly if they do not break, which
   * `Vars.BreaksIsMeets` says in terms of the names that `local` comes to; what happens behind that is not followed.
   * Otherwise there is no scope left behind the command, whether or not it raised an error, the variables are what
   * it means, with all local ones restored, and every text still allocated belongs to one variable.
   */
  method Toplevel(sh: Shell, n: Node) returns (raised: bool)
    requires sh.Valid() && sh.localvars == []
    modifies sh`table, sh`localvars, sh`heap, sh`owner, sh`loose, sh`stuck
    ensures sh.Valid() <==> !BreaksInScope(n, Shown(old(sh.Now())), sh.aflag)
    ensures sh.Valid() ==>
              var m := Meaning(n, Env(Shown(old(sh.Now())), map[]), sh.aflag);
              && sh.localvars == [] && Shown(sh.Now()) == Overlay(m.env.view, m.env.saved) && raised == m.raised
              && (forall id :: id in sh.heap <==> exists name :: name in sh.table && sh.table[name].text == Heap(id))
              && Unshared(sh.Now())
  {
    hide Good, Tidy, Ran, EnvOf, Keeps, Shown, Overlay, ShownUndone, Breaks, BreaksInScope, Rejecting, Unremovable;
    var stop := PushLocalVars(sh);
    ghost var p := sh.Now();
    InScope(n, Shown(old(sh.Now())), sh.aflag);
    raised := Eval(sh, n);
    if sh.Broken() {
      return;
    }
    ghost var b := sh.Now();
    RanGood(n, p, b, sh.aflag, raised);
    RanEnv(n, p, b, sh.aflag, raised);
    UndoScope(b, 0);
    RejectingStep(b, 0);
    BehindUndoes(b, 0);
    var ok := UnwindLocalVars(sh, stop, false);
    if ok {
      NoLeak(sh.Now());
    }
  }

  lemma {:induction false} RanEnv(n: Node, a: State, b: State, all: bool, raised: bool)
    requires a.frames != [] && Ran(n, a, b, all, raised)
    ensures var m, d := Meaning(n, EnvOf(a), all), |a.frames| - 1;
            d < |b.frames| && SavedAt(b, d) == m.env.saved && ShownUndone(b, d + 1) == m.env.view && raised == m.raised
  {
  }

  lemma NoLeak(s: State)
    requires Good(s) && s.frames == []
    ensures forall id :: id in s.heap <==> exists name :: name in s.table && s.table[name].text == Heap(id)
    ensures Unshared(s)
  {
    hide Good;
    forall id
      ensures id in s.heap <==> exists name :: name in s.table && s.table[name].text == Heap(id)
    {
      GoodHeap(s, id);
      if id in s.owner {
        GoodOwner(s, id);
      }
      forall name | name in s.table && s.table[name].text == Heap(id)
        ensures id in s.owner
      {
        GoodEntry(s, name);
      }
    }
    forall n1, n2 | n1 in s.table && n2 in s.table && s.table[n1].text.Heap? && s.table[n1].text == s.table[n2].text
      ensures n1 == n2
    {
      GoodEntry(s, n1);
      GoodEntry(s, n2);
    }
  }
}
