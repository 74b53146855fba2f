/** Shell variables and local scopes (src/var.c): what assignments and scopes mean. */
module Vars {
  import opened Chars

  /** The flag bits of `struct var`. */
  datatype Flags = Flags(exported: bool, readonly: bool, strfixed: bool, textfixed: bool, unset: bool, nosave: bool, latefunc: bool)

  const NONE: Flags := Flags(false, false, false, false, false, false, false)
  const VUNSET: Flags := NONE.(unset := true)

  /** A variable as anyone can see it. */
  datatype Seen = Seen(flags: Flags, value: string)

  type View = map<string, Seen>

  function Get(view: View, name: string): Option<Seen> {
    if name in view then Some(view[name]) else None
  }

  function Put(view: View, name: string, seen: Option<Seen>): View {
    match seen
    case None => view - {name}
    case Some(v) => view[name := v]
  }

  lemma PutGet(view: View, name: string, seen: Option<Seen>, other: string)
    ensures Get(Put(view, name, seen), other) == if other == name then seen else Get(view, other)
  {
  }

  lemma SameView(a: View, b: View)
    requires forall name :: Get(a, name) == Get(b, name)
    ensures a == b
  {
    forall name
      ensures name in a <==> name in b
      ensures name in a && name in b ==> a[name] == b[name]
    {
      assert Get(a, name) == Get(b, name);
    }
  }

  // ---------- Assignments ----------

  datatype Outcome = Refused | Now(seen: Option<Seen>)

  /** The flags of a variable that nobody could tell from one that does not exist. */
  predicate Nothing(f: Flags) { f.unset && !f.exported && !f.readonly && !f.strfixed }

  /** What an assignment with the flags `given` adds to the flags `was`. */
  function Joined(given: Flags, was: Flags): Flags {
    Flags(given.exported || was.exported, given.readonly || was.readonly, given.strfixed || was.strfixed,
          given.textfixed, given.unset, given.nosave, given.latefunc || was.latefunc)
  }

  /** Setting or unsetting a variable that was `was`; `all` is `set -a`. */
  function Assigned(was: Option<Seen>, given: Flags, value: string, all: bool): Outcome {
    var f := if all && !given.unset then given.(exported := true) else given;
    match was
    case None => if Nothing(f) then Now(None) else Now(Some(Seen(f, value)))
    case Some(v) =>
      if v.flags.readonly then Refused
      else
        var g := Joined(f, v.flags);
        if given.unset && !given.exported && !given.readonly then
          if g.strfixed then Now(Some(Seen(g.(exported := false, readonly := false), value))) else Now(None)
        else Now(Some(Seen(g, value)))
  }

  // ---------- Scopes ----------

  /** What one can see, and what leaving the innermost scope will restore. */
  datatype Env = Env(view: View, saved: map<string, Option<Seen>>)

  /** A view with everything saved put back. */
  function Overlay(view: View, saved: map<string, Option<Seen>>): View {
    map name | name in view.Keys + saved.Keys && (name in saved ==> saved[name].Some?) ::
      if name in saved then saved[name].value else view[name]
  }

  lemma OverlayGet(view: View, saved: map<string, Option<Seen>>, name: string)
    ensures Get(Overlay(view, saved), name) == if name in saved then saved[name] else Get(view, name)
  {
  }

  /** What a scope that keeps its changes leaves of a variable. */
  function KeptOne(now: Seen, was: Option<Seen>): Option<Seen> {
    var f :=
      if was.None? then now.flags.(strfixed := false)
      else now.flags.(strfixed := was.value.flags.strfixed,
                      textfixed := now.flags.textfixed && was.value.flags.textfixed);
    if Nothing(f) then None else Some(Seen(f, now.value))
  }

  function Kept(view: View, saved: map<string, Option<Seen>>): View {
    map name | name in view && (name in saved ==> KeptOne(view[name], saved[name]).Some?) ::
      if name in saved then KeptOne(view[name], saved[name]).value else view[name]
  }

  lemma KeptGet(view: View, saved: map<string, Option<Seen>>, name: string)
    ensures Get(Kept(view, saved), name) ==
              if name in saved && name in view then KeptOne(view[name], saved[name]) else Get(view, name)
  {
  }

  /**
   * Commands, as far as variables go. The name in a command is what its operand has in front of any `=`. `Try` is a
   * command whose errors are caught.
   */
  datatype Node =
    | Quiet
    | Set(name: string, value: Option<string>)
    | Mark(name: string, readonly: bool)
    | Local(name: string, value: Option<string>)
    | Seq(first: Node, second: Node)
    | Scope(body: Node)
    | Keeping(body: Node)
    | Try(body: Node)

  datatype Meant = Meant(env: Env, raised: bool)

  function SetIn(env: Env, name: string, given: Flags, value: string, all: bool): Meant {
    match Assigned(Get(env.view, name), given, value, all)
    case Refused => Meant(env, true)
    case Now(seen) => Meant(env.(view := Put(env.view, name, seen)), false)
  }

  /** `setvar`, which takes a name only when it is one. */
  function SetNamed(env: Env, name: string, given: Flags, value: string, all: bool): Meant {
    if IsVarName(name) then SetIn(env, name, given, value, all) else Meant(env, true)
  }

  function MarkFlags(f: Flags, readonly: bool): Flags {
    if readonly then f.(readonly := true) else f.(exported := true)
  }

  /** `export name` and `readonly name` */
  function MarkIn(env: Env, name: string, readonly: bool, all: bool): Meant {
    match Get(env.view, name)
    case Some(v) => Meant(env.(view := env.view[name := Seen(MarkFlags(v.flags, readonly), v.value)]), false)
    case None => SetNamed(env, name, MarkFlags(VUNSET.(nosave := true), readonly), [], all)
  }

  /** What becomes of a variable when it is made local, before any assignment. */
  function Noted(env: Env, name: string): Env {
    if name in env.saved then env
    else
      match Get(env.view, name)
      case None => env.(saved := env.saved[name := None])
      case Some(v) => Env(env.view[name := Seen(v.flags.(strfixed := true, textfixed := true), v.value)],
                          env.saved[name := Some(v)])
  }

  predicate IsAbsent(env: Env, name: string) { name !in env.saved && name !in env.view }

  /** `local -`, which is about options. */
  predicate IsOptions(name: string, value: Option<string>) { name == "-" && value.None? }

  /** `mklocal`; a value is set without a look at the name. */
  function LocalIn(env: Env, name: string, value: Option<string>, all: bool): Meant {
    var noted := Noted(env, name);
    if IsOptions(name, value) then Meant(env, false)
    else if value.Some? then SetIn(noted, name, NONE.(strfixed := IsAbsent(env, name)), value.value, all)
    else if !IsAbsent(env, name) then Meant(noted, false)
    else if IsVarName(name) then SetIn(noted, name, VUNSET.(strfixed := true, nosave := true), [], all)
    else Meant(env, true)
  }

  function Meaning(n: Node, env: Env, all: bool): Meant {
    match n
    case Quiet => Meant(env, false)
    case Set(name, value) =>
      if value.None? then SetNamed(env, name, VUNSET.(nosave := true), [], all)
      else SetNamed(env, name, NONE.(nosave := true), value.value, all)
    case Mark(name, readonly) => MarkIn(env, name, readonly, all)
    case Local(name, value) => LocalIn(env, name, value, all)
    case Seq(a, b) => var m := Meaning(a, env, all); if m.raised then m else Meaning(b, m.env, all)
    case Scope(body) =>
      var m := Meaning(body, Env(env.view, map[]), all);
      Meant(Env(Overlay(m.env.view, m.env.saved), env.saved), m.raised)
    case Keeping(body) =>
      var m := Meaning(body, Env(env.view, map[]), all);
      Meant(Env(if m.raised then Overlay(m.env.view, m.env.saved) else Kept(m.env.view, m.env.saved), env.saved), m.raised)
    case Try(body) => Meant(Meaning(body, env, all).env, false)
  }

  // ---------- Where the scopes break ----------

  /** A scope that restores the absence of a variable whose name `setvar` rejects: it cannot be unset. */
  ghost predicate Unremovable(saved: map<string, Option<Seen>>) {
    exists name :: name in saved && saved[name].None? && !IsVarName(name)
  }

  /** Leaving the scope would unset this variable, and its name is rejected. */
  predicate Sticks(env: Env, name: string, keep: bool)
    requires name in env.saved
  {
    !IsVarName(name) &&
    if keep then name in env.view && KeptOne(env.view[name], env.saved[name]).None? else env.saved[name].None?
  }

  /** The scope cannot be left. */
  ghost predicate Stuck(env: Env, keep: bool) {
    if keep then exists name :: name in env.saved && Sticks(env, name, true) else Unremovable(env.saved)
  }

  /** An error has left scopes behind, and undoing them will come to one that cannot be left. */
  ghost predicate Pending(n: Node, env: Env, all: bool) {
    match n
    case Seq(a, b) =>
      var m := Meaning(a, env, all);
      if m.raised then Pending(a, env, all) else Pending(b, m.env, all)
    case Scope(body) =>
      var m := Meaning(body, Env(env.view, map[]), all);
      m.raised && (Unremovable(m.env.saved) || Pending(body, Env(env.view, map[]), all))
    case Keeping(body) =>
      var m := Meaning(body, Env(env.view, map[]), all);
      m.raised && (Unremovable(m.env.saved) || Pending(body, Env(env.view, map[]), all))
    case _ => false
  }

  /**
   * The scopes break. Either a `local` without a value comes to a variable that does not exist and whose name is
   * rejected: the record of it is in the scope by then, but its variable is never entered. Or a scope is left, or
   * undone behind an error that is caught, and has to unset such a variable: that is an error in the middle of
   * leaving it.
   */
  ghost predicate Breaks(n: Node, env: Env, all: bool) {
    match n
    case Local(name, value) => value.None? && IsAbsent(env, name) && !IsVarName(name) && !IsOptions(name, value)
    case Seq(a, b) =>
      var m := Meaning(a, env, all);
      Breaks(a, env, all) || (!m.raised && Breaks(b, m.env, all))
    case Scope(body) =>
      var m := Meaning(body, Env(env.view, map[]), all);
      Breaks(body, Env(env.view, map[]), all) || (!m.raised && Stuck(m.env, false))
    case Keeping(body) =>
      var m := Meaning(body, Env(env.view, map[]), all);
      Breaks(body, Env(env.view, map[]), all) || (!m.raised && Stuck(m.env, true))
    case Try(body) => Breaks(body, env, all) || Pending(body, env, all)
    case _ => false
  }

  /** A scope of its own around a command cannot be left, or breaks before that, whether or not the command fails. */
  ghost predicate BreaksInScope(n: Node, view: View, all: bool) {
    Breaks(Try(Scope(n)), Env(view, map[]), all)
  }

  lemma {:induction false} PendingRaises(n: Node, env: Env, all: bool)
    ensures Pending(n, env, all) ==> Meaning(n, env, all).raised
    decreases n
  {
    if n.Seq? {
      PendingRaises(n.first, env, all);
      PendingRaises(n.second, Meaning(n.first, env, all).env, all);
    }
  }

  lemma {:induction false} InScope(n: Node, view: View, all: bool)
    ensures var env := Env(view, map[]);
            BreaksInScope(n, view, all) ==
              (Breaks(n, env, all) || Unremovable(Meaning(n, env, all).env.saved) || Pending(n, env, all))
  {
    hide Meaning, Unremovable;
    var env := Env(view, map[]);
    PendingRaises(n, env, all);
    assert Breaks(Scope(n), env, all) ==
           (Breaks(n, env, all) || (!Meaning(n, env, all).raised && Unremovable(Meaning(n, env, all).env.saved)));
    assert Pending(Scope(n), env, all) ==
           (Meaning(n, env, all).raised && (Unremovable(Meaning(n, env, all).env.saved) || Pending(n, env, all)));
  }

  // ---------- When they do not ----------

  /** All names of `local` operands are names. */
  predicate LocalsNamed(n: Node) {
    match n
    case Local(name, value) => IsVarName(name) || IsOptions(name, value)
    case Seq(a, b) => LocalsNamed(a) && LocalsNamed(b)
    case Scope(body) => LocalsNamed(body)
    case Keeping(body) => LocalsNamed(body)
    case Try(body) => LocalsNamed(body)
    case _ => true
  }

  predicate AllNamed(saved: map<string, Option<Seen>>) { forall name :: name in saved ==> IsVarName(name) }

  lemma {:induction false} SavedNamed(n: Node, env: Env, all: bool)
    requires LocalsNamed(n) && AllNamed(env.saved)
    ensures AllNamed(Meaning(n, env, all).env.saved)
    decreases n
  {
    if n.Seq? {
      SavedNamed(n.first, env, all);
      SavedNamed(n.second, Meaning(n.first, env, all).env, all);
    } else if n.Try? {
      SavedNamed(n.body, env, all);
    }
  }

  /** Then the scopes never break. */
  lemma {:induction false} NamedNeverBreaks(n: Node, env: Env, all: bool)
    requires LocalsNamed(n) && AllNamed(env.saved)
    ensures !Breaks(n, env, all) && !Pending(n, env, all)
    decreases n
  {
    hide Meaning;
    var inner := Env(env.view, map[]);
    match n
    case Seq(a, b) =>
      SavedNamed(a, env, all);
      NamedNeverBreaks(a, env, all);
      NamedNeverBreaks(b, Meaning(a, env, all).env, all);
    case Scope(body) =>
      SavedNamed(body, inner, all);
      NamedNeverBreaks(body, inner, all);
    case Keeping(body) =>
      SavedNamed(body, inner, all);
      NamedNeverBreaks(body, inner, all);
    case Try(body) => NamedNeverBreaks(body, env, all);
    case _ =>
  }

  /** A `local`, with or without a value, comes to a variable that does not exist and whose name is rejected. */
  predicate MeetsBadName(n: Node, env: Env, all: bool) {
    match n
    case Local(name, value) => IsAbsent(env, name) && !IsVarName(name) && !IsOptions(name, value)
    case Seq(a, b) =>
      MeetsBadName(a, env, all) || (!Meaning(a, env, all).raised && MeetsBadName(b, Meaning(a, env, all).env, all))
    case Scope(body) => MeetsBadName(body, Env(env.view, map[]), all)
    case Keeping(body) => MeetsBadName(body, Env(env.view, map[]), all)
    case Try(body) => MeetsBadName(body, env, all)
    case _ => false
  }

  /** What scopes that keep their changes are for: the assignments in front of a command, whose names are names. */
  predicate KeepsNamed(n: Node) {
    match n
    case Seq(a, b) => KeepsNamed(a) && KeepsNamed(b)
    case Scope(body) => KeepsNamed(body)
    case Keeping(body) => LocalsNamed(body)
    case Try(body) => KeepsNamed(body)
    case _ => true
  }

  lemma {:induction false} NamedMeetsNone(n: Node, env: Env, all: bool)
    requires LocalsNamed(n)
    ensures !MeetsBadName(n, env, all)
    decreases n
  {
    hide Meaning;
    match n
    case Seq(a, b) =>
      NamedMeetsNone(a, env, all);
      NamedMeetsNone(b, Meaning(a, env, all).env, all);
    case Scope(body) => NamedMeetsNone(body, Env(env.view, map[]), all);
    case Keeping(body) => NamedMeetsNone(body, Env(env.view, map[]), all);
    case Try(body) => NamedMeetsNone(body, env, all);
    case _ =>
  }

  lemma LocalMeets(name: string, value: Option<string>, env: Env, all: bool)
    requires !Unremovable(env.saved)
    ensures (Breaks(Local(name, value), env, all) || Unremovable(LocalIn(env, name, value, all).env.saved)) ==
              MeetsBadName(Local(name, value), env, all)
  {
    var m := LocalIn(env, name, value, all).env;
    if MeetsBadName(Local(name, value), env, all) && value.Some? {
      assert name in m.saved && m.saved[name].None?;
    }
  }

  lemma {:induction false} KeepingSound(body: Node, env: Env, all: bool)
    requires LocalsNamed(body)
    ensures !Breaks(Keeping(body), env, all) && !Pending(Keeping(body), env, all)
  {
    hide Meaning;
    var inner := Env(env.view, map[]);
    SavedNamed(body, inner, all);
    NamedNeverBreaks(body, inner, all);
  }

  /** The first such `local` is where things go wrong, at once or when its scope is left. */
  lemma {:induction false} MeetsIsBreaks(n: Node, env: Env, all: bool)
    requires KeepsNamed(n) && !Unremovable(env.saved)
    ensures (Breaks(n, env, all) || Unremovable(Meaning(n, env, all).env.saved) || Pending(n, env, all)) ==
              MeetsBadName(n, env, all)
    decreases n
  {
    hide Unremovable, SetNamed, MarkIn, LocalIn, Overlay, Kept, KeptOne;
    var inner := Env(env.view, map[]);
    NothingSaved();
    match n
    case Local(name, value) => LocalMeets(name, value, env, all);
    case Seq(a, b) =>
      var m := Meaning(a, env, all);
      MeetsIsBreaks(a, env, all);
      PendingRaises(a, env, all);
      if !m.raised {
        if Unremovable(m.env.saved) {
          UnremovableStays(b, m.env, all);
        } else {
          MeetsIsBreaks(b, m.env, all);
        }
      }
    case Scope(body) =>
      MeetsIsBreaks(body, inner, all);
      PendingRaises(body, inner, all);
    case Keeping(body) =>
      KeepingSound(body, env, all);
      NamedMeetsNone(body, inner, all);
    case Try(body) =>
      MeetsIsBreaks(body, env, all);
    case Set(name, value) => SetSaves(name, value, env, all);
    case Mark(name, readonly) => MarkSaves(name, readonly, env, all);
    case Quiet =>
  }

  lemma NothingSaved()
    ensures !Unremovable(map[]) && AllNamed(map[])
  {
  }

  lemma {:induction false} SetSaves(name: string, value: Option<string>, env: Env, all: bool)
    ensures Meaning(Set(name, value), env, all).env.saved == env.saved
  {
  }

  lemma {:induction false} MarkSaves(name: string, readonly: bool, env: Env, all: bool)
    ensures Meaning(Mark(name, readonly), env, all).env.saved == env.saved
  {
  }

  lemma {:induction false} UnremovableStays(n: Node, env: Env, all: bool)
    requires Unremovable(env.saved)
    ensures Unremovable(Meaning(n, env, all).env.saved)
  {
    hide Meaning;
    var name :| name in env.saved && env.saved[name].None? && !IsVarName(name);
    SavedStays(n, env, all, name);
  }

  /** So a scope breaks exactly if a `local` in it, with or without a value, comes to such a name. */
  lemma {:induction false} BreaksIsMeets(n: Node, view: View, all: bool)
    requires KeepsNamed(n)
    ensures BreaksInScope(n, view, all) <==> MeetsBadName(n, Env(view, map[]), all)
  {
    InScope(n, view, all);
    NothingSaved();
    MeetsIsBreaks(n, Env(view, map[]), all);
  }

  /** `local a-b`, and `local x=1; local a-b=1`, where there is no `a-b`; with one, both are harmless. */
  lemma BreakingName(view: View, all: bool)
    ensures var one, two := Local("a-b", None), Seq(Local("x", Some("1")), Local("a-b", Some("1")));
            && (BreaksInScope(one, view, all) <==> "a-b" !in view)
            && ("x" !in view ==> (BreaksInScope(two, view, all) <==> "a-b" !in view))
  {
    assert "a-b"[1] == '-' && !IsInName('-') && IsVarName("x");
    var one, two := Local("a-b", None), Seq(Local("x", Some("1")), Local("a-b", Some("1")));
    BreaksIsMeets(one, view, all);
    BreaksIsMeets(two, view, all);
    var x := LocalIn(Env(view, map[]), "x", Some("1"), all);
    if "x" !in view {
      assert !x.raised;
      LocalOthers(Env(view, map[]), "x", Some("1"), all, "a-b");
      assert Get(x.env.view, "a-b") == Get(view, "a-b");
    }
  }

  // ---------- What scopes are for ----------

  /** The names that a command may change in the scope where it stands. */
  function Assigns(n: Node): set<string> {
    match n
    case Quiet => {}
    case Set(name, _) => {name}
    case Mark(name, _) => {name}
    case Local(name, _) => {name}
    case Seq(a, b) => Assigns(a) + Assigns(b)
    case Scope(body) => Assigns(body)
    case Keeping(body) => Assigns(body)
    case Try(body) => Assigns(body)
  }

  lemma SetOthers(env: Env, name: string, given: Flags, value: string, all: bool, other: string)
    requires other != name
    ensures var m := SetIn(env, name, given, value, all).env;
            Get(m.view, other) == Get(env.view, other) && m.saved == env.saved
  {
    hide Assigned;
  }

  lemma LocalOthers(env: Env, name: string, value: Option<string>, all: bool, other: string)
    requires other != name
    ensures var m := LocalIn(env, name, value, all).env;
            Get(m.view, other) == Get(env.view, other) && (other in m.saved <==> other in env.saved)
  {
    hide SetIn;
    var noted := Noted(env, name);
    SetOthers(noted, name, NONE.(strfixed := IsAbsent(env, name)), if value.Some? then value.value else [], all, other);
    SetOthers(noted, name, VUNSET.(strfixed := true, nosave := true), [], all, other);
  }

  /** A command changes no other variable. */
  lemma {:induction false} OnlyAssigns(n: Node, env: Env, all: bool, name: string)
    requires name !in Assigns(n) && name !in env.saved
    ensures Get(Meaning(n, env, all).env.view, name) == Get(env.view, name) && name !in Meaning(n, env, all).env.saved
    decreases n
  {
    hide Overlay, Kept, SetIn, LocalIn;
    match n
    case Quiet =>
    case Set(other, value) =>
      SetOthers(env, other, VUNSET.(nosave := true), [], all, name);
      SetOthers(env, other, NONE.(nosave := true), if value.Some? then value.value else [], all, name);
    case Mark(other, readonly) =>
      SetOthers(env, other, MarkFlags(VUNSET.(nosave := true), readonly), [], all, name);
    case Local(other, value) =>
      LocalOthers(env, other, value, all, name);
    case Seq(a, b) =>
      OnlyAssigns(a, env, all, name);
      if !Meaning(a, env, all).raised {
        OnlyAssigns(b, Meaning(a, env, all).env, all, name);
      }
    case Scope(body) =>
      var m := Meaning(body, Env(env.view, map[]), all).env;
      OnlyAssigns(body, Env(env.view, map[]), all, name);
      OverlayGet(m.view, m.saved, name);
    case Keeping(body) =>
      var m := Meaning(body, Env(env.view, map[]), all).env;
      OnlyAssigns(body, Env(env.view, map[]), all, name);
      OverlayGet(m.view, m.saved, name);
      KeptGet(m.view, m.saved, name);
    case Try(body) =>
      OnlyAssigns(body, env, all, name);
  }

  /** Once a variable is local, nothing changes what its scope will restore. */
  lemma {:induction false} SavedStays(n: Node, env: Env, all: bool, name: string)
    requires name in env.saved
    ensures var m := Meaning(n, env, all).env; name in m.saved && m.saved[name] == env.saved[name]
    decreases n
  {
    if n.Seq? {
      SavedStays(n.first, env, all, name);
      if !Meaning(n.first, env, all).raised {
        SavedStays(n.second, Meaning(n.first, env, all).env, all, name);
      }
    } else if n.Try? {
      SavedStays(n.body, env, all, name);
    }
  }

  /**
   * A variable that a scope makes local has the same existence, value and flags behind the scope as it had just
   * then, whatever the rest of the scope does to it and however it ends, unless the scope breaks; at the start of
   * the scope, that is what it had before the scope.
   */
  lemma {:induction false} LocalRestored(pre: Node, name: string, value: Option<string>, rest: Node, env: Env, all: bool)
    requires !IsOptions(name, value)
    requires var m := Meaning(pre, Env(env.view, map[]), all); !m.raised && name !in m.env.saved
    ensures var was, n := Meaning(pre, Env(env.view, map[]), all).env.view, Seq(pre, Seq(Local(name, value), rest));
            !BreaksInScope(n, env.view, all) ==> Get(Meaning(Scope(n), env, all).env.view, name) == Get(was, name)
  {
    hide SetIn, LocalIn, Overlay, Kept, BreaksInScope;
    var before := Meaning(pre, Env(env.view, map[]), all).env;
    var body := Seq(Local(name, value), rest);
    var l := Meaning(Local(name, value), before, all);
    LocalSaves(before, name, value, all);
    if name in l.env.saved && !l.raised {
      SavedStays(rest, l.env, all, name);
    }
    var m := Meaning(body, before, all).env;
    OverlayGet(m.view, m.saved, name);
  }

  lemma {:induction false} LocalSaves(env: Env, name: string, value: Option<string>, all: bool)
    requires name !in env.saved
    ensures var m := LocalIn(env, name, value, all);
            if Breaks(Local(name, value), env, all) then m == Meant(env, true)
            else if IsOptions(name, value) then m == Meant(env, false)
            else name in m.env.saved && m.env.saved[name] == Get(env.view, name)
  {
  }
}
