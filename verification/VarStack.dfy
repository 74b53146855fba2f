/** Variables of the shell and their local scopes (src/var.c), changed step by step. */
module VarStack {
  import opened Chars
  import opened Vars
  import opened VarState
  import opened VarScopes

  function Fresh(used: set<nat>, from: nat): (id: nat)
    ensures id >= from && id !in used
    decreases |used|
  {
    if from !in used then from
    else
      var id := Fresh(used - {from}, from + 1);
      assert id != from;
      id
  }

  /** The environment in the last scope, if there is one. */
  function EnvOf(s: State): Env {
    Env(Shown(s), if s.frames == [] then map[] else SavedAt(s, |s.frames| - 1))
  }

  /** The environment when `name` has left the last scope. */
  function PopName(env: Env, name: string, keep: bool): Env {
    if name !in env.saved || (keep && name !in env.view) then env
    else Env(Put(env.view, name, if keep then KeptOne(env.view[name], env.saved[name]) else env.saved[name]),
             env.saved - {name})
  }

  /** A step in the last scope that means `env`. */
  ghost predicate Stepped(a: State, b: State, env: Env) {
    Moved(a, b, env.view, env.saved) && Tidy(b)
  }

  /** A step, in a scope or outside all, that gives variables new values and leaves what scopes restore alone. */
  ghost predicate Settled(a: State, b: State, env: Env) {
    && Good(b) && Tidy(b) && b.frames == a.frames && Keeps(a, b, |a.frames|) && Shown(b) == env.view
    && (a.frames != [] ==> Stepped(a, b, env))
  }

  lemma ChangedSettled(a: State, b: State, name: string, seen: Option<Seen>)
    requires Changed(a, b, name, seen) && Good(a) && Tidy(b)
    ensures Settled(a, b, EnvOf(a).(view := Put(Shown(a), name, seen)))
  {
    hide Good, Tidy, Keeps, Moved, SavedAt;
    if a.frames != [] {
      ChangedMoved(a, b, name, seen);
    }
  }

  lemma StaysSettled(a: State)
    requires Good(a) && Tidy(a)
    ensures Settled(a, a, EnvOf(a))
  {
    hide Good, Tidy;
  }

  lemma SettledIs(a: State, b: State, env: Env)
    requires Settled(a, b, env)
    ensures Good(b) && Tidy(b) && b.frames == a.frames && (a.frames != [] ==> Stepped(a, b, env))
  {
  }

  lemma ChangedMoved(a: State, b: State, name: string, seen: Option<Seen>)
    requires Changed(a, b, name, seen) && a.frames != [] && Good(a)
    ensures Moved(a, b, Put(Shown(a), name, seen), SavedAt(a, |a.frames| - 1))
  {
    hide Restores, Find, EntryFits, OwnerFits;
    var top := |a.frames| - 1;
    KeepsLess(a, b, |a.frames|, top);
    forall other | Find(a.frames[top], other).Some?
      ensures other in a.table && other in b.table
      ensures Restores(b, Find(a.frames[top], other).value) == Restores(a, Find(a.frames[top], other).value)
    {
      assert Recorded(a, top, other) && Recorded(b, top, other);
    }
  }

  lemma MovedTrans(a: State, b: State, c: State, v1: View, s1: map<string, Option<Seen>>, v2: View, s2: map<string, Option<Seen>>)
    requires Moved(a, b, v1, s1) && Moved(b, c, v2, s2)
    ensures Moved(a, c, v2, s2)
  {
    hide Good, Keeps;
    KeepsTrans(a, b, c, |a.frames| - 1);
  }

  lemma TidyAfter(a: State, name: string, seen: Seen, id: nat)
    requires Tidy(a) && !Nothing(seen.flags)
    ensures Tidy(Stored(a, name, seen, id))
  {
  }

  lemma TidyDropped(a: State, name: string)
    requires Tidy(a.(table := a.table - {name}))
    ensures Tidy(Dropped(a, name))
  {
  }

  /** An entry that owns its text owns one that has been allocated. */
  predicate Owns(s: State, name: string) {
    name in s.table && !s.table[name].flags.textfixed && s.table[name].text.Heap? ==> s.table[name].text.id in s.heap
  }

  lemma GoodOwns(s: State, name: string)
    requires Good(s)
    ensures Owns(s, name)
  {
    if name in s.table && !s.table[name].flags.textfixed && s.table[name].text.Heap? {
      OwnText(s, name, s.table[name].text.id);
    }
  }

  /** What an assignment does to the state. */
  ghost predicate DidSet(a: State, b: State, name: string, o: Outcome, ok: bool, id: nat) {
    && (ok <==> o.Now?)
    && (!ok ==> b == a)
    && (ok && o.seen.None? ==> b == if name in a.table then Dropped(a, name) else a)
    && (ok && o.seen.Some? ==> id !in a.heap && b == Stored(a, name, o.seen.value, id))
  }

  lemma GetShown(s: State, name: string)
    ensures Get(Shown(s), name) ==
              if name in s.table then Some(Seen(s.table[name].flags, Content(s.heap, s.table[name].text))) else None
  {
  }

  class Shell {
    var table: map<string, Var>
    var localvars: seq<Frame>
    var heap: map<nat, string>
    var aflag: bool
    ghost var owner: map<nat, Owner>
    /** The scopes, counted from the outermost, with a record whose variable was never entered. */
    var loose: set<nat>
    /** The variables that a scope was left over, because their names are rejected when they are to be unset. */
    var stuck: set<string>

    ghost function Now(): State
      reads this
    {
      State(table, localvars, heap, owner)
    }

    ghost predicate Valid()
      reads this
    {
      Good(Now()) && Tidy(Now()) && !Broken()
    }

    predicate Broken()
      reads this
    {
      loose != {} || stuck != {}
    }

    constructor ()
      ensures Valid() && table == map[] && localvars == []
    {
      table, localvars, heap, aflag, owner, loose, stuck := map[], [], map[], false, map[], {}, {};
    }

    /** `ckfree`, for a text: it must be allocated. */
    method Free(id: nat)
      requires id in heap
      modifies `heap, `owner
      ensures heap == old(heap) - {id} && owner == old(owner) - {id}
    {
      heap := heap - {id};
      owner := owner - {id};
    }

    /** `setvareq`; its text is allocated here, where `setvar` has allocated it already. */
    method SetVarEq(name: string, given: Flags, value: string) returns (ok: bool, ghost id: nat)
      requires !given.textfixed && Owns(Now(), name)
      modifies `table, `heap, `owner
      ensures DidSet(old(Now()), Now(), name, Assigned(Get(Shown(old(Now())), name), given, value, aflag), ok, id)
    {
      hide Shown, Content, Nothing, Joined;
      GetShown(Now(), name);
      var flags := given;
      var s := Fresh(heap.Keys, 0);
      id := s;
      if aflag && !given.unset {
        flags := flags.(exported := true);
      }
      var local := -1;
      if name in table {
        var vp := table[name];
        if vp.flags.readonly {
          return false, id;
        }
        if !vp.flags.textfixed && vp.text.Heap? {
          Free(vp.text.id);
        }
        flags := Joined(flags, vp.flags);
        if given.unset && !given.exported && !given.readonly {
          if !flags.strfixed {
            table := table - {name};
            return true, id;
          }
          flags := flags.(exported := false, readonly := false);
        }
        local := vp.local;
      } else if Nothing(flags) {
        return true, id;
      }
      heap := heap[s := value];
      owner := owner[s := Owner(name, -1)];
      table := table[name := Var(flags, Heap(s), local)];
      ok := true;
    }

    /** `setvar` */
    method SetVar(name: string, value: Option<string>, flags: Flags) returns (ok: bool)
      requires Valid() && !flags.textfixed
      modifies `table, `heap, `owner
      ensures var m := SetNamed(EnvOf(old(Now())), name, flags.(unset := flags.unset || value.None?, nosave := true),
                                if value.Some? then value.value else [], aflag);
              ok == !m.raised && Settled(old(Now()), Now(), m.env)
    {
      hide Good, Tidy, EnvOf, SetIn, Settled, Shown;
      ghost var a := Now();
      StaysSettled(a);
      if !IsVarName(name) {
        return false;
      }
      var given := flags.(unset := flags.unset || value.None?, nosave := true);
      GoodOwns(a, name);
      ghost var id;
      ok, id := SetVarEq(name, given, if value.Some? then value.value else []);
      SetMeans(a, Now(), name, given, if value.Some? then value.value else [], aflag, ok, id);
    }

    /** `export name` or `readonly name`: one turn of the loop of `exportcmd` without a value. */
    method MarkVar(name: string, readonly: bool) returns (ok: bool)
      requires Valid()
      modifies `table, `heap, `owner
      ensures var m := MarkIn(EnvOf(old(Now())), name, readonly, aflag);
              ok == !m.raised && Settled(old(Now()), Now(), m.env)
    {
      hide Good, SetIn, Shown, SavedAt, Settled, Changed, Flagged;
      ghost var a := Now();
      GetShown(a, name);
      if name in table {
        var vp := table[name];
        FlagsChanged(a, name, MarkFlags(vp.flags, readonly));
        table := table[name := vp.(flags := MarkFlags(vp.flags, readonly))];
        FlaggedIs(a, name, MarkFlags(vp.flags, readonly), Now());
        ChangedSettled(a, Now(), name, Some(Seen(MarkFlags(vp.flags, readonly), Content(a.heap, vp.text))));
        return true;
      }
      ok := SetVar(name, None, MarkFlags(NONE, readonly));
    }

    /**
     * `mklocal` for a variable that does not exist. The record is in the scope before the variable is set; when
     * `setvar` rejects the name it stays there, and nothing has been said of its variable.
     */
    method MkNew(name: string, value: Option<string>) returns (ok: bool)
      requires Valid() && localvars != [] && name !in table && !IsOptions(name, value)
      modifies `table, `localvars, `heap, `owner, `loose
      ensures if value.None? && !IsVarName(name) then !ok && loose == {|localvars| - 1} && Now() == old(Now())
              else
                var m := LocalIn(EnvOf(old(Now())), name, value, aflag);
                && loose == {} && ok == !m.raised && Stepped(old(Now()), Now(), m.env)
                && OthersSame(old(table), table, name, false) && table[name].local == |localvars| - 1
                && localvars == WithTop(old(localvars), [Saved(name, VUNSET, Static([]), -1)] + Top(old(Now())))
    {
      hide Good, Tidy, SetIn, Shown, SavedAt, Moved, Stepped, Content;
      ghost var a := Now();
      var top := |localvars| - 1;
      InSaved(a, name);
      GetShown(a, name);
      if value.None? && !IsVarName(name) {
        loose := {top};
        return false;
      }
      localvars := localvars[top := [Saved(name, VUNSET, Static([]), -1)] + localvars[top]];
      ghost var id;
      var given := if value.Some? then NONE.(strfixed := true) else VUNSET.(strfixed := true, nosave := true);
      GetShown(Now(), name);
      ok, id := SetVarEq(name, given, if value.Some? then value.value else []);
      table := table[name := table[name].(local := top)];
      FoundMeans(a, name, given, if value.Some? then value.value else [], aflag, id, Now());
    }

    /** The record that `mklocal` makes of a variable that exists, unless it is local here already. */
    method NoteVar(name: string)
      requires Valid() && localvars != [] && name in table
      modifies `table, `localvars, `owner
      ensures Stepped(old(Now()), Now(), Noted(EnvOf(old(Now())), name))
    {
      hide Good, Shown, SavedAt, Moved;
      ghost var a := Now();
      var top, vp := |localvars| - 1, table[name];
      InSaved(a, name);
      if vp.local != top {
        localvars := localvars[top := [Saved(name, vp.flags, vp.text, vp.local)] + localvars[top]];
        table := table[name := vp.(flags := vp.flags.(strfixed := true, textfixed := true), local := top)];
        if vp.text.Heap? && !vp.flags.textfixed {
          owner := owner[vp.text.id := Owner(name, top)];
        }
        NotingMeans(a, name, Now());
      } else {
        Stays(a);
      }
    }

    /** `mklocal` */
    method MkLocal(name: string, value: Option<string>) returns (ok: bool)
      requires Valid() && localvars != []
      modifies `table, `localvars, `heap, `owner, `loose
      ensures if value.None? && !IsVarName(name) && !IsOptions(name, value) && name !in old(table)
              then !ok && loose == {|localvars| - 1} && Now() == old(Now())
              else
                var m := LocalIn(EnvOf(old(Now())), name, value, aflag);
                && loose == {} && ok == !m.raised && Stepped(old(Now()), Now(), m.env)
                && (name !in old(table) && !IsOptions(name, value) ==>
                      && OthersSame(old(table), table, name, false) && table[name].local == |localvars| - 1
                      && localvars == WithTop(old(localvars), [Saved(name, VUNSET, Static([]), -1)] + Top(old(Now()))))
    {
      hide Good, Tidy, SetIn, Shown, SavedAt, Moved, Noted, Settled;
      ghost var a := Now();
      GetShown(a, name);
      if IsOptions(name, value) {
        Stays(a);
        return true;
      }
      if name !in table {
        ok := MkNew(name, value);
        return;
      }
      InSaved(a, name);
      NoteVar(name);
      ghost var b, noted := Now(), Noted(EnvOf(a), name);
      MovedGood(a, b, noted);
      ok := true;
      if value.Some? {
        GoodOwns(b, name);
        ghost var id;
        ok, id := SetVarEq(name, NONE, value.value);
        SetMeans(b, Now(), name, NONE, value.value, aflag, ok, id);
        SettledIs(b, Now(), SetIn(noted, name, NONE, value.value, aflag).env);
        ghost var m := SetIn(noted, name, NONE, value.value, aflag);
        MovedTrans(a, b, Now(), noted.view, noted.saved, m.env.view, m.env.saved);
      }
    }

    /** `unsetvar`, for a variable that nothing keeps in the table. */
    method UnsetVar(name: string) returns (ok: bool)
      requires name in table && !table[name].flags.readonly && !table[name].flags.strfixed && Owns(Now(), name)
      modifies `table, `heap, `owner
      ensures ok == IsVarName(name) && Now() == if ok then Dropped(old(Now()), name) else old(Now())
    {
      if !IsVarName(name) {
        return false;
      }
      GetShown(Now(), name);
      ghost var id;
      ok, id := SetVarEq(name, VUNSET.(nosave := true), []);
    }

    /** `poplocalvars(0)` for one record, or what it does of it before the error. */
    method PopBack() returns (ok: bool)
      requires Valid() && localvars != [] && Top(Now()) != []
      modifies `table, `localvars, `heap, `owner
      ensures CanPop(old(Now()), false) && ok == !Sticks(EnvOf(old(Now())), Top(old(Now()))[0].name, false)
      ensures ok ==> Stepped(old(Now()), Now(), PopName(EnvOf(old(Now())), Top(old(Now()))[0].name, false))
      ensures localvars == WithTop(old(localvars), old(localvars[|localvars| - 1])[1..])
      ensures OthersSame(old(table), table, Top(old(Now()))[0].name, ok)
    {
      hide Good, Tidy, Stepped, PopName;
      PopSticks(Now());
      ok := true;
      if localvars[|localvars| - 1][0].flags == VUNSET {
        ok := Forget();
      } else {
        PutBack();
      }
    }

    /** A variable that did not exist goes again. */
    method Forget() returns (ok: bool)
      requires Valid() && localvars != [] && Top(Now()) != [] && IsMissing(Top(Now())[0])
      modifies `table, `localvars, `heap, `owner
      ensures ok == IsVarName(Top(old(Now()))[0].name)
      ensures ok ==> Stepped(old(Now()), Now(), PopName(EnvOf(old(Now())), Top(old(Now()))[0].name, false))
      ensures localvars == WithTop(old(localvars), old(localvars[|localvars| - 1])[1..])
      ensures OthersSame(old(table), table, Top(old(Now()))[0].name, ok)
    {
      hide Good, Tidy, Shown, SavedAt, Moved, Find, EntryFits, SavedFits, Stepped;
      ghost var a := Now();
      var top, lvp := |localvars| - 1, localvars[|localvars| - 1][0];
      Head(a);
      var vp := table[lvp.name];
      localvars := localvars[top := localvars[top][1..]];
      var flags := vp.flags.(strfixed := false, readonly := false);
      MayForget(a, flags);
      table := table[lvp.name := vp.(local := lvp.local, flags := flags)];
      if vp.text.Heap? && !flags.textfixed {
        owner := owner[vp.text.id := Owner(lvp.name, -1)];
      }
      ghost var b := Now();
      LeavingMoved(a, table[lvp.name], None);
      MovedIsGood(a, b);
      GoodOwns(b, lvp.name);
      ok := UnsetVar(lvp.name);
      if ok {
        PopForgets(a, b, Now());
      }
    }

    /** A variable that existed is as it was. */
    method PutBack()
      requires Valid() && localvars != [] && Top(Now()) != [] && !IsMissing(Top(Now())[0])
      modifies `table, `localvars, `heap, `owner
      ensures Stepped(old(Now()), Now(), PopName(EnvOf(old(Now())), Top(old(Now()))[0].name, false))
      ensures localvars == WithTop(old(localvars), old(localvars[|localvars| - 1])[1..])
      ensures OthersSame(old(table), table, Top(old(Now()))[0].name, true)
    {
      hide Good, Tidy, Shown, SavedAt, Moved, Find, EntryFits, SavedFits, Stepped;
      ghost var a := Now();
      var top, lvp := |localvars| - 1, localvars[|localvars| - 1][0];
      Head(a);
      var vp := table[lvp.name];
      localvars := localvars[top := localvars[top][1..]];
      MayRestore(a);
      GoodOwns(a, lvp.name);
      if !vp.flags.textfixed && vp.text.Heap? {
        Free(vp.text.id);
      }
      table := table[lvp.name := Var(lvp.flags, lvp.text, lvp.local)];
      if lvp.text.Heap? && !lvp.flags.textfixed {
        owner := owner[lvp.text.id := Owner(lvp.name, -1)];
      }
      PopRestores(a, Now());
    }

    /** Keeping a variable, up to the question whether it still exists. */
    method Merge() returns (flags: Flags)
      requires Good(Now()) && localvars != [] && Top(Now()) != [] && Top(Now())[0].name in table
      modifies `table, `localvars, `heap, `owner
      ensures flags == MergedVar(old(Now())).flags
      ensures Now() == Leaving(old(Now()), MergedVar(old(Now())), MergedFreed(old(Now())))
    {
      hide Good, Find;
      ghost var a := Now();
      var top, lvp := |localvars| - 1, localvars[|localvars| - 1][0];
      var vp := table[lvp.name];
      localvars := localvars[top := localvars[top][1..]];
      flags := vp.flags.(strfixed := lvp.flags.strfixed);
      if lvp.flags != VUNSET {
        if vp.text == lvp.text {
          flags := flags.(textfixed := lvp.flags.textfixed);
        } else if !lvp.flags.textfixed && lvp.text.Heap? {
          RecordOwns(a);
          Free(lvp.text.id);
        }
      }
      table := table[lvp.name := Var(flags, vp.text, lvp.local)];
      if vp.text.Heap? && !flags.textfixed {
        owner := owner[vp.text.id := Owner(lvp.name, -1)];
      }
    }

    /** `poplocalvars(1)` for one record, or what it does of it before the error. */
    method PopKeep() returns (ok: bool)
      requires Valid() && localvars != [] && Top(Now()) != []
      modifies `table, `localvars, `heap, `owner
      ensures CanPop(old(Now()), true) && ok == !Sticks(EnvOf(old(Now())), Top(old(Now()))[0].name, true)
      ensures ok ==> Stepped(old(Now()), Now(), PopName(EnvOf(old(Now())), Top(old(Now()))[0].name, true))
      ensures localvars == WithTop(old(localvars), old(localvars[|localvars| - 1])[1..])
      ensures OthersSame(old(table), table, Top(old(Now()))[0].name, ok)
    {
      hide Good, Tidy, Shown, SavedAt, Moved, Find, Leaving, MergedVar, MergedFreed, Nothing, Sticks;
      ghost var a, name := Now(), Top(Now())[0].name;
      Head(a);
      var lvp := localvars[|localvars| - 1][0];
      var flags := Merge();
      ghost var b := Now();
      MergedMay(a);
      MergedSticks(a);
      LeavingMoved(a, MergedVar(a), MergedFreed(a));
      LeavingEntryIs(a, MergedVar(a), MergedFreed(a));
      LeavingOthers(a, MergedVar(a), MergedFreed(a));
      ok := true;
      if Nothing(flags) {
        MovedIsGood(a, b);
        GoodOwns(b, lvp.name);
        NothingMeans(flags);
        ok := UnsetVar(lvp.name);
      }
      if ok {
        PopKeeps(a, b, Now());
      }
    }
  }

  /** The first record of the last scope is about a variable that the scope saves. */
  ghost predicate CanPop(a: State, keep: bool) {
    a.frames != [] && Top(a) != [] && Top(a)[0].name in EnvOf(a).saved
  }

  /** No other entry has changed, and this one is still there unless it was to go. */
  predicate OthersSame(was: map<string, Var>, now: map<string, Var>, name: string, ok: bool) {
    && was - {name} == now - {name}
    && (!ok ==> name in now)
  }

  lemma LeavingOthers(a: State, v: Var, freed: Option<nat>)
    requires a.frames != [] && Top(a) != []
    ensures var name := Top(a)[0].name; Leaving(a, v, freed).table - {name} == a.table - {name}
  {
  }

  /** When putting a variable back means that it has to be unset. */
  lemma PopSticks(a: State)
    requires Good(a) && a.frames != [] && Top(a) != []
    ensures CanPop(a, false)
    ensures Sticks(EnvOf(a), Top(a)[0].name, false) <==> IsMissing(Top(a)[0]) && !IsVarName(Top(a)[0].name)
  {
    hide Good, Find, SavedAt, Shown;
    HeadSaved(a);
  }

  /** When keeping a variable means that it has to be unset. */
  lemma MergedSticks(a: State)
    requires Good(a) && a.frames != [] && Top(a) != []
    ensures CanPop(a, true) && Top(a)[0].name in a.table
    ensures Sticks(EnvOf(a), Top(a)[0].name, true) <==> Nothing(MergedVar(a).flags) && !IsVarName(Top(a)[0].name)
  {
    hide Good, Find, SavedAt;
    HeadSaved(a);
    GetShown(a, Top(a)[0].name);
  }

  lemma NothingMeans(f: Flags)
    ensures Nothing(f) ==> !f.readonly && !f.strfixed
  {
  }

  lemma LeavingEntryIs(a: State, v: Var, freed: Option<nat>)
    requires a.frames != [] && Top(a) != []
    ensures var name := Top(a)[0].name; name in Leaving(a, v, freed).table && Leaving(a, v, freed).table[name] == v
    ensures Leaving(a, v, freed).frames == WithTop(a.frames, Top(a)[1..])
  {
  }

  /** What keeping a variable makes of its entry, and which text then has no owner. */
  function MergedVar(a: State): Var
    requires a.frames != [] && Top(a) != [] && Top(a)[0].name in a.table
  {
    var r, v := Top(a)[0], a.table[Top(a)[0].name];
    var same := !IsMissing(r) && v.text == r.text;
    Var(v.flags.(strfixed := r.flags.strfixed, textfixed := if same then r.flags.textfixed else v.flags.textfixed), v.text, r.local)
  }

  function MergedFreed(a: State): Option<nat>
    requires a.frames != [] && Top(a) != [] && Top(a)[0].name in a.table
  {
    var r, v := Top(a)[0], a.table[Top(a)[0].name];
    if IsMissing(r) || v.text == r.text then None else OwnedBy(r.flags, r.text)
  }

  lemma MergedMay(a: State)
    requires Good(a) && a.frames != [] && Top(a) != [] && Top(a)[0].name in a.table
    ensures MayLeave(a, MergedVar(a), MergedFreed(a))
  {
    hide Good, Find, MayLeave;
    if IsMissing(Top(a)[0]) {
      MayForget(a, MergedVar(a).flags);
    } else {
      MayMerge(a);
    }
  }

  /** What an assignment by the shell means. */
  lemma SetMeans(a: State, b: State, name: string, given: Flags, value: string, all: bool, ok: bool, id: nat)
    requires Good(a) && Tidy(a) && !given.textfixed
    requires DidSet(a, b, name, Assigned(Get(Shown(a), name), given, value, all), ok, id)
    ensures var m := SetIn(EnvOf(a), name, given, value, all); ok == !m.raised && Settled(a, b, m.env)
  {
    hide Good, Settled, Assigned, Stored, Dropped, Shown, SavedAt, Changed, Nothing;
    GetShown(a, name);
    StaysSettled(a);
    var o := Assigned(Get(Shown(a), name), given, value, all);
    if ok {
      AssignedFits(a, name, given, value, all);
      if o.seen.Some? {
        StoredChanged(a, name, o.seen.value, id);
        TidyAfter(a, name, o.seen.value, id);
        ChangedSettled(a, b, name, o.seen);
      } else if name in a.table {
        TidyDropped(a, name);
        DroppedChanged(a, name);
        ChangedSettled(a, b, name, None);
      } else {
        PutNothing(Shown(a), name);
      }
    }
  }

  lemma PutNothing(view: View, name: string)
    requires name !in view
    ensures Put(view, name, None) == view
  {
  }

  lemma Stays(a: State)
    requires Good(a) && a.frames != []
    ensures Moved(a, a, Shown(a), SavedAt(a, |a.frames| - 1))
  {
  }

  /** The flags that an assignment computes suit the entry. */
  lemma AssignedFits(a: State, name: string, given: Flags, value: string, all: bool)
    requires Good(a) && Tidy(a) && !given.textfixed
    ensures var o := Assigned(Get(Shown(a), name), given, value, all);
            o.Now? && o.seen.Some? ==>
              && !Nothing(o.seen.value.flags) && !o.seen.value.flags.textfixed
              && (name in a.table && a.table[name].flags.strfixed ==> o.seen.value.flags.strfixed)
              && (name !in a.table ==> forall k :: 0 <= k < |a.frames| ==> Find(a.frames[k], name).None?)
    ensures var o := Assigned(Get(Shown(a), name), given, value, all);
            o.Now? && o.seen.None? && name in a.table ==> !a.table[name].flags.strfixed
  {
    hide Good, Shown;
    GetShown(a, name);
    forall k | 0 <= k < |a.frames| && name !in a.table
      ensures Find(a.frames[k], name).None?
    {
      NotRecorded(a, k, name);
    }
  }

  lemma NotRecorded(a: State, k: nat, name: string)
    requires Good(a) && k < |a.frames| && name !in a.table
    ensures Find(a.frames[k], name).None?
  {
    hide Good, Find;
    if Recorded(a, k, name) {
      GoodSaved(a, k, name);
    }
  }

  lemma FlaggedIs(a: State, name: string, flags: Flags, b: State)
    requires name in a.table && b == a.(table := a.table[name := a.table[name].(flags := flags)])
    ensures b == Flagged(a, name, flags)
  {
  }

  /** A variable is local in the last scope exactly when its entry says so. */
  lemma InSaved(a: State, name: string)
    requires Good(a) && a.frames != []
    ensures name in SavedAt(a, |a.frames| - 1) <==> name in a.table && a.table[name].local == |a.frames| - 1
  {
    hide Good;
    if name in a.table {
      GoodEntry(a, name);
    }
  }

  lemma MovedGood(a: State, b: State, env: Env)
    requires Moved(a, b, env.view, env.saved)
    ensures Good(b) && b.frames != [] && EnvOf(b) == env
  {
  }

  /** A variable that did not exist has become local. */
  lemma FoundMeans(a: State, name: string, given: Flags, value: string, all: bool, id: nat, b: State)
    requires Good(a) && Tidy(a) && a.frames != [] && name !in a.table && given.strfixed && !given.textfixed
    requires id !in a.heap
    requires var seen := Assigned(None, given, value, all);
             && seen.Now? && seen.seen.Some?
             && b == Founding(Stored(a, name, seen.seen.value, id), name)
    ensures var m := SetIn(Env(Shown(a), SavedAt(a, |a.frames| - 1)[name := None]), name, given, value, all);
            !m.raised && Stepped(a, b, m.env)
  {
    hide Good, Shown, SavedAt, Moved, Changed;
    var seen := Assigned(None, given, value, all).seen.value;
    var t := Stored(a, name, seen, id);
    GetShown(a, name);
    AssignedFits(a, name, given, value, all);
    StoredChanged(a, name, seen, id);
    ChangedMoved(a, t, name, Some(seen));
    ChangedGood(a, t, name, Some(seen));
    MovedGood(a, t, Env(Put(Shown(a), name, Some(seen)), SavedAt(a, |a.frames| - 1)));
    FoundingMoved(t, name);
    MovedTrans(a, t, b, Shown(t), SavedAt(t, |t.frames| - 1), Shown(t), SavedAt(t, |t.frames| - 1)[name := None]);
  }

  lemma ChangedGood(a: State, b: State, name: string, seen: Option<Seen>)
    requires Changed(a, b, name, seen)
    ensures Good(b) && b.frames == a.frames
  {
  }

  /** An existing variable has become local. */
  lemma NotingMeans(a: State, name: string, b: State)
    requires Good(a) && Tidy(a) && a.frames != [] && name in a.table && a.table[name].local != |a.frames| - 1
    requires b == Noting(a, name)
    ensures Stepped(a, b, Noted(EnvOf(a), name))
  {
    hide Good, Shown, SavedAt, Moved;
    InSaved(a, name);
    GetShown(a, name);
    NotingMoved(a, name);
  }

  lemma MovedIsGood(a: State, b: State)
    requires exists view, saved :: Moved(a, b, view, saved)
    ensures Good(b) && |b.frames| == |a.frames|
  {
  }

  /** What a record owns is allocated. */
  lemma RecordOwns(a: State)
    requires Good(a) && a.frames != [] && Top(a) != []
    ensures var r := Top(a)[0]; !IsMissing(r) && !r.flags.textfixed && r.text.Heap? ==> r.text.id in a.heap
  {
    hide Good, Find;
    Head(a);
    if Top(a)[0].text.Heap? && Top(a)[0].text.id in a.owner {
      GoodOwner(a, Top(a)[0].text.id);
    }
  }

  /** What the last scope restores for its first record. */
  lemma HeadSaved(a: State)
    requires Good(a) && a.frames != [] && Top(a) != []
    ensures var r := Top(a)[0];
            && r.name in a.table && r.name in SavedAt(a, |a.frames| - 1)
            && SavedAt(a, |a.frames| - 1)[r.name] == Restores(a, r)
  {
    hide Good, Find;
    Head(a);
  }

  lemma PopRestores(a: State, b: State)
    requires Good(a) && Tidy(a) && a.frames != [] && Top(a) != [] && !IsMissing(Top(a)[0]) && Top(a)[0].name in a.table
    requires var r := Top(a)[0];
             b == Leaving(a, Var(r.flags, r.text, r.local), OwnedBy(a.table[r.name].flags, a.table[r.name].text))
    ensures Stepped(a, b, PopName(EnvOf(a), Top(a)[0].name, false))
  {
    hide Good, Find, Shown, SavedAt, Moved;
    var r := Top(a)[0];
    MayRestore(a);
    Head(a);
    HeadSaved(a);
    LeavingMoved(a, Var(r.flags, r.text, r.local), OwnedBy(a.table[r.name].flags, a.table[r.name].text));
  }

  lemma PopForgets(a: State, b: State, c: State)
    requires Good(a) && Tidy(a) && a.frames != [] && Top(a) != [] && IsMissing(Top(a)[0]) && Top(a)[0].name in a.table
    requires var r, v := Top(a)[0], a.table[Top(a)[0].name];
             b == Leaving(a, v.(local := r.local, flags := v.flags.(strfixed := false, readonly := false)), None)
    requires c == Dropped(b, Top(a)[0].name)
    ensures Stepped(a, c, PopName(EnvOf(a), Top(a)[0].name, false))
  {
    hide Good, Find, Shown, SavedAt, Moved;
    var r, v := Top(a)[0], a.table[Top(a)[0].name];
    var v' := v.(local := r.local, flags := v.flags.(strfixed := false, readonly := false));
    MayForget(a, v'.flags);
    HeadSaved(a);
    LeavingMoved(a, v', None);
    LeavingThenDropped(a, v', None, c);
  }

  /** Leaving the scope, and then the table. */
  lemma LeavingThenDropped(a: State, v: Var, freed: Option<nat>, c: State)
    requires MayLeave(a, v, freed) && !v.flags.strfixed
    requires Tidy(a.(table := a.table - {Top(a)[0].name}))
    requires c == Dropped(Leaving(a, v, freed), Top(a)[0].name)
    ensures var name := Top(a)[0].name;
            Stepped(a, c, Env(Put(Shown(a), name, None), SavedAt(a, |a.frames| - 1) - {name}))
  {
    hide Good, Find, Shown, SavedAt, Moved, Changed;
    var name, b := Top(a)[0].name, Leaving(a, v, freed);
    LeavingMoved(a, v, freed);
    var view, saved := Shown(a)[name := Seen(v.flags, Content(a.heap, v.text))], SavedAt(a, |a.frames| - 1) - {name};
    MovedGood(a, b, Env(view, saved));
    DroppedChanged(b, name);
    ChangedMoved(b, c, name, None);
    MovedTrans(a, b, c, view, saved, Put(view, name, None), saved);
    assert view - {name} == Shown(a) - {name};
    assert b.table - {name} == a.table - {name};
    TidyDropped(b, name);
  }

  lemma PopKeeps(a: State, b: State, c: State)
    requires Good(a) && Tidy(a) && a.frames != [] && Top(a) != [] && Top(a)[0].name in a.table
    requires b == Leaving(a, MergedVar(a), MergedFreed(a))
    requires c == if Nothing(MergedVar(a).flags) then Dropped(b, Top(a)[0].name) else b
    ensures Stepped(a, c, PopName(EnvOf(a), Top(a)[0].name, true))
  {
    hide Good, Find, Shown, SavedAt, Moved;
    var r := Top(a)[0];
    MergedMay(a);
    if !IsMissing(r) {
      MayMerge(a);
    }
    HeadSaved(a);
    GetShown(a, r.name);
    LeavingMoved(a, MergedVar(a), MergedFreed(a));
    if Nothing(MergedVar(a).flags) {
      LeavingThenDropped(a, MergedVar(a), MergedFreed(a), c);
    }
  }
}
