/** What single assignments, `export`, `readonly`, `unset` and `local` do to a variable (src/var.c). */
module VarLaws {
  import opened Chars
  import opened Vars

  /** An assignment could change the variable. */
  predicate Writable(env: Env, name: string) {
    IsVarName(name) && (name in env.view ==> !env.view[name].flags.readonly)
  }

  /** `export` of any variable gives it one flag more; a variable that does not exist is there behind it, without a value. */
  lemma ExportMarks(name: string, env: Env, all: bool)
    ensures var m := Meaning(Mark(name, false), env, all);
            && m.raised == (name !in env.view && !IsVarName(name))
            && (m.raised ==> m.env == env)
            && (!m.raised ==> name in m.env.view && m.env.view[name].flags.exported)
            && (name in env.view ==>
                  m.env == env.(view := env.view[name := env.view[name].(flags := env.view[name].flags.(exported := true))]))
            && (!m.raised && name !in env.view ==>
                  m.env.view - {name} == env.view && m.env.view[name].flags.unset && !m.env.view[name].flags.readonly)
  {
  }

  /** `readonly` also gives it one flag more, and another. */
  lemma ReadonlyMarks(name: string, env: Env, all: bool)
    ensures var m := Meaning(Mark(name, true), env, all);
            && m.raised == (name !in env.view && !IsVarName(name))
            && (m.raised ==> m.env == env)
            && (!m.raised ==> name in m.env.view && m.env.view[name].flags.readonly)
            && (name in env.view ==>
                  m.env == env.(view := env.view[name := env.view[name].(flags := env.view[name].flags.(readonly := true))]))
            && (!m.raised && name !in env.view ==>
                  m.env.view - {name} == env.view && m.env.view[name].flags.unset && !m.env.view[name].flags.exported)
  {
  }

  /** Behind `readonly` every assignment to the variable, and `unset`, fails and changes nothing. */
  lemma ReadonlyRefuses(name: string, value: Option<string>, env: Env, all: bool)
    ensures var m := Meaning(Mark(name, true), env, all);
            !m.raised ==> Meaning(Set(name, value), m.env, all) == Meant(m.env, true)
  {
    ReadonlyMarks(name, env, all);
  }

  /** Behind `export` they succeed unless they failed before, and a value that is set is exported. */
  lemma ExportedTakes(name: string, value: Option<string>, env: Env, all: bool)
    requires IsVarName(name)
    ensures var m := Meaning(Mark(name, false), env, all);
            var n := Meaning(Set(name, value), m.env, all);
            && !m.raised && n.raised == (name in env.view && env.view[name].flags.readonly)
            && (!n.raised && value.Some? ==>
                  name in n.env.view && n.env.view[name].value == value.value && n.env.view[name].flags.exported)
  {
    ExportMarks(name, env, all);
  }

  /** An assignment fails exactly at a name that is none or at a read-only variable, and then changes nothing. */
  lemma SetFails(name: string, value: Option<string>, env: Env, all: bool)
    ensures Meaning(Set(name, value), env, all).raised == !Writable(env, name)
    ensures !Writable(env, name) ==> Meaning(Set(name, value), env, all).env == env
  {
  }

  /** Otherwise the variable has the value; it is exported if it was or with `set -a`, and no other variable changes. */
  lemma SetGives(name: string, value: string, env: Env, all: bool)
    requires Writable(env, name)
    ensures var after := Meaning(Set(name, Some(value)), env, all).env;
            && after.saved == env.saved && after.view - {name} == env.view - {name} && name in after.view
            && after.view[name].value == value
            && !after.view[name].flags.unset && !after.view[name].flags.readonly
            && after.view[name].flags.exported == (all || (name in env.view && env.view[name].flags.exported))
            && after.view[name].flags.strfixed == (name in env.view && env.view[name].flags.strfixed)
  {
    var after := Meaning(Set(name, Some(value)), env, all).env;
    assert after.view == env.view[name := after.view[name]];
  }

  /** `unset` takes the variable away; one that is fixed stays, without value and without being exported. */
  lemma UnsetTakes(name: string, env: Env, all: bool)
    requires Writable(env, name)
    ensures var after := Meaning(Set(name, None), env, all).env;
            && after.saved == env.saved && after.view - {name} == env.view - {name}
            && (name in after.view <==> name in env.view && env.view[name].flags.strfixed)
            && (name in after.view ==>
                  after.view[name].flags.unset && !after.view[name].flags.exported && !after.view[name].flags.readonly)
  {
    var after := Meaning(Set(name, None), env, all).env;
    if name in after.view {
      assert after.view == env.view[name := after.view[name]];
    } else {
      assert after.view == env.view - {name};
    }
  }

  /** `export`, an assignment and `unset` leave no trace of a variable that did not exist. */
  lemma UnsetUndoes(name: string, value: string, env: Env, all: bool)
    requires IsVarName(name) && name !in env.view
    ensures Meaning(Seq(Mark(name, false), Seq(Set(name, Some(value)), Set(name, None))), env, all) == Meant(env, false)
  {
    hide Meaning, Assigned;
    ExportMarks(name, env, all);
    var one := Meaning(Mark(name, false), env, all);
    assert Writable(one.env, name);
    SetFails(name, Some(value), one.env, all);
    SetGives(name, value, one.env, all);
    MarkKeeps(name, env, all);
    var two := Meaning(Set(name, Some(value)), one.env, all);
    SetFails(name, None, two.env, all);
    UnsetTakes(name, two.env, all);
    var three := Meaning(Set(name, None), two.env, all);
    assert three.env.view == three.env.view - {name} == env.view;
    SeqIs(Set(name, Some(value)), Set(name, None), one.env, all);
    SeqIs(Mark(name, false), Seq(Set(name, Some(value)), Set(name, None)), env, all);
  }

  lemma {:induction false} SeqIs(a: Node, b: Node, env: Env, all: bool)
    ensures var m := Meaning(a, env, all);
            Meaning(Seq(a, b), env, all) == if m.raised then m else Meaning(b, m.env, all)
  {
    hide SetNamed, MarkIn, LocalIn, Overlay, Kept;
  }

  lemma MarkKeeps(name: string, env: Env, all: bool)
    requires name !in env.view && IsVarName(name)
    ensures var m := Meaning(Mark(name, false), env, all);
            name in m.env.view && !m.env.view[name].flags.strfixed && !m.env.view[name].flags.readonly && m.env.saved == env.saved
  {
  }

  // ---------- Local variables ----------

  /** `local x=v` shows the value, and a variable that was exported stays so. */
  lemma LocalGives(name: string, value: string, env: Env, all: bool)
    requires name in env.view ==> !env.view[name].flags.readonly
    ensures var m := Meaning(Local(name, Some(value)), env, all);
            && !m.raised && name in m.env.view && m.env.view[name].value == value && !m.env.view[name].flags.unset
            && m.env.view[name].flags.exported == (all || (name in env.view && env.view[name].flags.exported))
  {
  }

  /** `local x=v` fails at a read-only variable, which keeps its value. */
  lemma LocalRefused(name: string, value: string, env: Env, all: bool)
    requires name in env.view && env.view[name].flags.readonly
    ensures var m := Meaning(Local(name, Some(value)), env, all);
            m.raised && name in m.env.view && m.env.view[name].value == env.view[name].value && m.env.view[name].flags.readonly
  {
  }

  /** `local x` leaves a variable what it is, or makes one without a value. */
  lemma LocalShows(name: string, env: Env, all: bool)
    requires name != "-" && (name in env.view || (name !in env.saved && IsVarName(name)))
    ensures var m := Meaning(Local(name, None), env, all);
            && !m.raised && name in m.env.view
            && (name in env.view ==>
                  && m.env.view[name].value == env.view[name].value
                  && m.env.view[name].flags.exported == env.view[name].flags.exported
                  && m.env.view[name].flags.readonly == env.view[name].flags.readonly
                  && m.env.view[name].flags.unset == env.view[name].flags.unset)
            && (name !in env.view ==> m.env.view[name].flags.unset && !m.env.view[name].flags.exported)
  {
  }

  lemma LocalInside(name: string, value: string, view: View, all: bool)
    requires name in view ==> !view[name].flags.readonly
    ensures var m := Meaning(Local(name, Some(value)), Env(view, map[]), all);
            && !m.raised && m.env.saved == map[name := Get(view, name)] && name in m.env.view
            && m.env.view - {name} == view - {name}
  {
    var m := Meaning(Local(name, Some(value)), Env(view, map[]), all);
    assert m.env.view == view[name := m.env.view[name]];
  }

  lemma KeptAlike(name: string, value: string, env: Env, all: bool)
    requires Writable(env, name)
    ensures var inner, plain :=
              Meaning(Local(name, Some(value)), Env(env.view, map[]), all), Meaning(Set(name, Some(value)), env, all);
            && name in inner.env.view && name in plain.env.view
            && var kept := KeptOne(inner.env.view[name], Get(env.view, name));
            && kept.Some? && kept.value.value == plain.env.view[name].value
            && kept.value.flags.(nosave := true) == plain.env.view[name].flags
  {
  }

  /** An assignment in front of a special builtin stays behind it, as if it had been made without the builtin. */
  lemma KeptStays(name: string, value: string, env: Env, all: bool)
    requires Writable(env, name)
    ensures var kept := Meaning(Keeping(Local(name, Some(value))), env, all);
            var plain := Meaning(Set(name, Some(value)), env, all);
            && !kept.raised && kept.env.saved == plain.env.saved
            && name in kept.env.view && name in plain.env.view
            && kept.env.view[name].value == plain.env.view[name].value
            && kept.env.view[name].flags.(nosave := true) == plain.env.view[name].flags
            && kept.env.view - {name} == plain.env.view - {name}
  {
    hide KeptOne, LocalIn, SetNamed;
    var inner := Meaning(Local(name, Some(value)), Env(env.view, map[]), all);
    var view := Meaning(Keeping(Local(name, Some(value))), env, all).env.view;
    LocalInside(name, value, env.view, all);
    KeptAlike(name, value, env, all);
    SetGives(name, value, env, all);
    KeptGet(inner.env.view, inner.env.saved, name);
    assert view - {name} == inner.env.view - {name};
  }

  /** An assignment in front of another command is gone behind it. */
  lemma ScopeForgets(name: string, value: string, env: Env, all: bool)
    requires name in env.view ==> !env.view[name].flags.readonly
    ensures Meaning(Scope(Local(name, Some(value))), env, all) == Meant(env, false)
  {
    var m := Meaning(Scope(Local(name, Some(value))), env, all);
    var inner := Meaning(Local(name, Some(value)), Env(env.view, map[]), all);
    forall other
      ensures Get(m.env.view, other) == Get(env.view, other)
    {
      OverlayGet(inner.env.view, inner.env.saved, other);
    }
    SameView(m.env.view, env.view);
  }
}
