/** Entering a variable into a local scope, and taking it out again (src/var.c). */
module VarScopes {
  import opened Chars
  import opened Vars
  import opened VarState

  function WithTop(frames: seq<Frame>, frame: Frame): seq<Frame>
    requires frames != []
  {
    frames[|frames| - 1 := frame]
  }

  function Top(s: State): Frame
    requires s.frames != []
  {
    s.frames[|s.frames| - 1]
  }

  /** A change of the last scope that does not concern other variables. */
  lemma TopInTop(frames: seq<Frame>, frame: Frame, name: string, k: nat)
    requires frames != [] && k <= |frames|
    requires k < |frames| || Find(frame, name).Some? == Find(frames[|frames| - 1], name).Some?
    ensures TopIn(WithTop(frames, frame), name, k) == TopIn(frames, name, k)
  {
    TopInSame(WithTop(frames, frame), frames, name, k);
  }

  // ---------- Into a scope ----------

  /** The record that `mklocal` makes of an entry. */
  function RecordOf(name: string, v: Var): Saved {
    Saved(name, v.flags, v.text, v.local)
  }

  /** An existing variable becomes local; its text now belongs to the record. */
  function Noting(s: State, name: string): State
    requires s.frames != [] && name in s.table
  {
    var v, top := s.table[name], |s.frames| - 1;
    State(s.table[name := v.(flags := v.flags.(strfixed := true, textfixed := true), local := top)],
          WithTop(s.frames, [RecordOf(name, v)] + Top(s)), s.heap,
          if v.text.Heap? && !v.flags.textfixed then s.owner[v.text.id := Owner(name, top)] else s.owner)
  }

  ghost predicate MayNote(s: State, name: string) {
    && Good(s) && s.frames != [] && name in s.table && s.table[name].local != |s.frames| - 1
    && !Nothing(s.table[name].flags)
  }

  lemma NotInTop(s: State, name: string)
    requires Good(s) && s.frames != [] && name in s.table && s.table[name].local != |s.frames| - 1
    ensures Find(Top(s), name).None? && s.table[name].local < |s.frames| - 1
    ensures s.table[name].local == TopIn(s.frames, name, |s.frames| - 1)
  {
    hide Good;
    GoodEntry(s, name);
  }

  lemma FindCons(r: Saved, frame: Frame, name: string)
    ensures Find([r] + frame, name) == if r.name == name then Some(r) else Find(frame, name)
  {
    assert ([r] + frame)[1..] == frame;
  }

  lemma NotingEntry(s: State, name: string, other: string)
    requires MayNote(s, name) && other in s.table
    ensures EntryFits(Noting(s, name), other)
  {
    hide Good, Find;
    var v, b := s.table[name], Noting(s, name);
    GoodEntry(s, name);
    GoodEntry(s, other);
    NotInTop(s, name);
    FindCons(RecordOf(name, v), Top(s), other);
    if other != name {
      TopInTop(s.frames, Top(b), other, |s.frames|);
    }
  }

  lemma NotingSaved(s: State, name: string, k: nat, other: string)
    requires MayNote(s, name) && Recorded(Noting(s, name), k, other)
    ensures SavedFits(Noting(s, name), k, other)
  {
    hide Good, Find;
    var v, b := s.table[name], Noting(s, name);
    NotInTop(s, name);
    GoodEntry(s, name);
    FindCons(RecordOf(name, v), Top(s), other);
    TopInTop(s.frames, Top(b), other, k);
    if other == name && k == |s.frames| - 1 {
      if v.text.Heap? {
        GoodOwner(s, v.text.id);
      }
    } else {
      GoodSaved(s, k, other);
    }
  }

  lemma NotingOwner(s: State, name: string, i: nat)
    requires MayNote(s, name) && i in Noting(s, name).owner
    ensures OwnerFits(Noting(s, name), i)
  {
    hide Good, Find;
    var v := s.table[name];
    GoodEntry(s, name);
    NotInTop(s, name);
    FindCons(RecordOf(name, v), Top(s), if i in s.owner then s.owner[i].name else name);
    FindCons(RecordOf(name, v), Top(s), name);
    GoodOwner(s, i);
  }

  lemma DistinctCons(r: Saved, frame: Frame)
    requires Find(frame, r.name).None? && Distinct(frame)
    ensures Distinct([r] + frame)
  {
    assert ([r] + frame)[1..] == frame;
  }

  lemma NotingGood(s: State, name: string)
    requires MayNote(s, name)
    ensures Good(Noting(s, name))
  {
    hide Good, EntryFits, SavedFits, OwnerFits, Distinct, Find;
    var b := Noting(s, name);
    forall i | i in b.heap
      ensures i in b.owner
    {
      GoodHeap(s, i);
    }
    forall other | other in b.table
      ensures EntryFits(b, other)
    {
      NotingEntry(s, name, other);
    }
    forall k, other | Recorded(b, k, other)
      ensures SavedFits(b, k, other)
    {
      NotingSaved(s, name, k, other);
    }
    forall i | i in b.owner
      ensures OwnerFits(b, i)
    {
      NotingOwner(s, name, i);
    }
    NotInTop(s, name);
    forall k | 0 <= k < |b.frames|
      ensures Distinct(b.frames[k])
    {
      GoodDistinct(s, k);
      if k == |s.frames| - 1 {
        DistinctCons(RecordOf(name, s.table[name]), Top(s));
      }
    }
    Assemble(b);
  }

  /** A step in the last scope that shows `view` and will restore `saved` behind it. */
  ghost predicate Moved(a: State, b: State, view: View, saved: map<string, Option<Seen>>) {
    && Good(b) && a.frames != [] && |b.frames| == |a.frames| && Keeps(a, b, |a.frames| - 1)
    && Shown(b) == view && SavedAt(b, |b.frames| - 1) == saved
  }

  lemma NotingMoved(s: State, name: string)
    requires MayNote(s, name)
    ensures var v := Get(Shown(s), name).value;
            Moved(s, Noting(s, name), Shown(s)[name := Seen(v.flags.(strfixed := true, textfixed := true), v.value)],
                  SavedAt(s, |s.frames| - 1)[name := Some(v)])
  {
    hide Good, Find;
    var b, top := Noting(s, name), |s.frames| - 1;
    NotingGood(s, name);
    NotInTop(s, name);
    forall other
      ensures Find(Top(b), other) == if other == name then Some(RecordOf(name, s.table[name])) else Find(Top(s), other)
    {
      FindCons(RecordOf(name, s.table[name]), Top(s), other);
    }
    assert b.frames[..top] == s.frames[..top];
  }

  /** A variable that did not exist: it has just been stored, and its record says that it is to go. */
  function Founding(s: State, name: string): State
    requires s.frames != [] && name in s.table
  {
    s.(table := s.table[name := s.table[name].(local := |s.frames| - 1)],
       frames := WithTop(s.frames, [Saved(name, VUNSET, Static([]), -1)] + Top(s)))
  }

  ghost predicate MayFound(s: State, name: string) {
    && Good(s) && s.frames != [] && name in s.table && s.table[name].local == -1
    && s.table[name].flags.strfixed && !s.table[name].flags.textfixed
  }

  lemma FoundingEntry(s: State, name: string, other: string)
    requires MayFound(s, name) && other in s.table
    ensures EntryFits(Founding(s, name), other)
  {
    hide Good, Find;
    GoodEntry(s, name);
    GoodEntry(s, other);
    FindCons(Saved(name, VUNSET, Static([]), -1), Top(s), other);
    if other != name {
      TopInTop(s.frames, Top(Founding(s, name)), other, |s.frames|);
    }
  }

  lemma FoundingSaved(s: State, name: string, k: nat, other: string)
    requires MayFound(s, name) && Recorded(Founding(s, name), k, other)
    ensures SavedFits(Founding(s, name), k, other)
  {
    hide Good, Find;
    var r := Saved(name, VUNSET, Static([]), -1);
    GoodEntry(s, name);
    FindCons(r, Top(s), other);
    TopInTop(s.frames, Top(Founding(s, name)), other, k);
    if other == name {
      forall i | 0 <= i < |s.frames|
        ensures Find(s.frames[i], name).None?
      {
        NotLocal(s.frames, name, |s.frames|, i);
      }
    } else {
      GoodSaved(s, k, other);
    }
  }

  lemma FoundingOwner(s: State, name: string, i: nat)
    requires MayFound(s, name) && i in s.owner
    ensures OwnerFits(Founding(s, name), i)
  {
    hide Good, Find;
    GoodOwner(s, i);
    GoodEntry(s, name);
    FindCons(Saved(name, VUNSET, Static([]), -1), Top(s), s.owner[i].name);
    if s.owner[i].name == name && s.owner[i].level >= 0 {
      NotLocal(s.frames, name, |s.frames|, s.owner[i].level);
    }
  }

  lemma FoundingGood(s: State, name: string)
    requires MayFound(s, name)
    ensures Good(Founding(s, name))
  {
    hide Good, EntryFits, SavedFits, OwnerFits, Distinct, Find;
    var b := Founding(s, name);
    forall i | i in b.heap
      ensures i in b.owner
    {
      GoodHeap(s, i);
    }
    forall other | other in b.table
      ensures EntryFits(b, other)
    {
      FoundingEntry(s, name, other);
    }
    forall k, other | Recorded(b, k, other)
      ensures SavedFits(b, k, other)
    {
      FoundingSaved(s, name, k, other);
    }
    forall i | i in b.owner
      ensures OwnerFits(b, i)
    {
      FoundingOwner(s, name, i);
    }
    NotInTop(s, name);
    forall k | 0 <= k < |b.frames|
      ensures Distinct(b.frames[k])
    {
      GoodDistinct(s, k);
      if k == |s.frames| - 1 {
        DistinctCons(Saved(name, VUNSET, Static([]), -1), Top(s));
      }
    }
    Assemble(b);
  }

  lemma FoundingMoved(s: State, name: string)
    requires MayFound(s, name)
    ensures Moved(s, Founding(s, name), Shown(s), SavedAt(s, |s.frames| - 1)[name := None])
  {
    hide Good, Find;
    var b, top, r := Founding(s, name), |s.frames| - 1, Saved(name, VUNSET, Static([]), -1);
    FoundingGood(s, name);
    forall other
      ensures Find(Top(b), other) == if other == name then Some(r) else Find(Top(s), other)
    {
      FindCons(r, Top(s), other);
    }
    assert b.frames[..top] == s.frames[..top];
    SameView(Shown(b), Shown(s));
  }

  // ---------- Out of a scope ----------

  /** The last scope without its first record; the variable becomes `v`, and the text `freed` goes. */
  function Leaving(s: State, v: Var, freed: Option<nat>): State
    requires s.frames != [] && Top(s) != []
  {
    var name := Top(s)[0].name;
    var heap := if freed.Some? then s.heap - {freed.value} else s.heap;
    var owner := if freed.Some? then s.owner - {freed.value} else s.owner;
    State(s.table[name := v], WithTop(s.frames, Top(s)[1..]), heap,
          if v.text.Heap? && !v.flags.textfixed then owner[v.text.id := Owner(name, -1)] else owner)
  }

  /** Whoever owned a text: it is freed, or the entry owns it from now on. */
  predicate Accounted(flags: Flags, text: Text, v: Var, freed: Option<nat>) {
    text.Heap? && !flags.textfixed ==> freed == Some(text.id) || (v.text == text && !v.flags.textfixed)
  }

  ghost predicate MayLeave(s: State, v: Var, freed: Option<nat>) {
    && Good(s) && s.frames != [] && Top(s) != []
    && var r, top := Top(s)[0], |s.frames| - 1;
       && r.name in s.table && v.local == r.local && (v.local >= 0 ==> v.flags.strfixed)
       && (v.text.Static? ==> v.flags.textfixed) && (v.flags.textfixed ==> SavedText(s, v.local, r.name, v.text))
       && (v.text.Heap? ==> v.text.id in s.owner && s.owner[v.text.id].name == r.name
                            && (s.owner[v.text.id].level in {-1, top} <==> !v.flags.textfixed))
       && (freed.Some? ==> freed.value in s.owner && s.owner[freed.value] in {Owner(r.name, -1), Owner(r.name, top)}
                           && v.text != Heap(freed.value))
       && Accounted(s.table[r.name].flags, s.table[r.name].text, v, freed)
       && (!IsMissing(r) ==> Accounted(r.flags, r.text, v, freed))
  }

  /** The first record of the last scope. */
  lemma Head(s: State)
    requires Good(s) && s.frames != [] && Top(s) != []
    ensures var r, top := Top(s)[0], |s.frames| - 1;
            && Find(Top(s), r.name) == Some(r) && r.name in s.table && SavedFits(s, top, r.name)
            && Find(Top(s)[1..], r.name).None? && Distinct(Top(s)[1..])
            && r.local == TopIn(s.frames, r.name, top) && s.table[r.name].local == top
  {
    hide Good;
    var r, top := Top(s)[0], |s.frames| - 1;
    assert Recorded(s, top, r.name);
    GoodSaved(s, top, r.name);
    GoodEntry(s, r.name);
    GoodDistinct(s, top);
  }

  lemma FindRest(s: State, name: string)
    requires Good(s) && s.frames != [] && Top(s) != []
    ensures Find(Top(s)[1..], name) == if name == Top(s)[0].name then None else Find(Top(s), name)
  {
    Head(s);
  }

  lemma LeavingEntry(s: State, v: Var, freed: Option<nat>, other: string)
    requires MayLeave(s, v, freed) && other in s.table
    ensures EntryFits(Leaving(s, v, freed), other)
  {
    hide Good, Find;
    var name, top, b := Top(s)[0].name, |s.frames| - 1, Leaving(s, v, freed);
    Head(s);
    FindRest(s, other);
    GoodEntry(s, other);
    if other != name {
      TopInTop(s.frames, Top(b), other, |s.frames|);
    } else {
      TopInTop(s.frames, Top(b), name, top);
    }
  }

  lemma LeavingSaved(s: State, v: Var, freed: Option<nat>, k: nat, other: string)
    requires MayLeave(s, v, freed) && Recorded(Leaving(s, v, freed), k, other)
    ensures SavedFits(Leaving(s, v, freed), k, other)
  {
    hide Good, Find;
    var b := Leaving(s, v, freed);
    FindRest(s, other);
    TopInTop(s.frames, Top(b), other, k);
    GoodSaved(s, k, other);
  }

  lemma LeavingOwner(s: State, v: Var, freed: Option<nat>, i: nat)
    requires MayLeave(s, v, freed) && i in Leaving(s, v, freed).owner
    ensures OwnerFits(Leaving(s, v, freed), i)
  {
    hide Good, Find;
    Head(s);
    GoodOwner(s, i);
    FindRest(s, s.owner[i].name);
  }

  lemma LeavingGood(s: State, v: Var, freed: Option<nat>)
    requires MayLeave(s, v, freed)
    ensures Good(Leaving(s, v, freed))
  {
    hide Good, EntryFits, SavedFits, OwnerFits, Distinct, Find, TopIn;
    var b := Leaving(s, v, freed);
    forall i | i in b.heap
      ensures i in b.owner
    {
      GoodHeap(s, i);
    }
    forall other | other in b.table
      ensures EntryFits(b, other)
    {
      LeavingEntry(s, v, freed, other);
    }
    forall k, other | Recorded(b, k, other)
      ensures SavedFits(b, k, other)
    {
      LeavingSaved(s, v, freed, k, other);
    }
    forall i | i in b.owner
      ensures OwnerFits(b, i)
    {
      LeavingOwner(s, v, freed, i);
    }
    Head(s);
    forall k | 0 <= k < |b.frames|
      ensures Distinct(b.frames[k])
    {
      GoodDistinct(s, k);
    }
    Assemble(b);
  }

  lemma LeavingShows(s: State, v: Var, freed: Option<nat>)
    requires MayLeave(s, v, freed)
    ensures Shown(Leaving(s, v, freed)) == Shown(s)[Top(s)[0].name := Seen(v.flags, Content(s.heap, v.text))]
  {
    hide Good, Find, TopIn;
    var b, name := Leaving(s, v, freed), Top(s)[0].name;
    forall other | other in s.table
      ensures other != name ==> Content(b.heap, s.table[other].text) == Content(s.heap, s.table[other].text)
    {
      GoodEntry(s, other);
    }
    SameView(Shown(b), Shown(s)[name := Seen(v.flags, Content(s.heap, v.text))]);
  }

  lemma LeavingRestores(s: State, v: Var, freed: Option<nat>, k: nat, other: string)
    requires MayLeave(s, v, freed) && Recorded(s, k, other) && !(k == |s.frames| - 1 && other == Top(s)[0].name)
    ensures Restores(Leaving(s, v, freed), Find(s.frames[k], other).value) == Restores(s, Find(s.frames[k], other).value)
  {
    hide Good, Find, TopIn;
    GoodSaved(s, k, other);
  }

  lemma LeavingMoved(s: State, v: Var, freed: Option<nat>)
    requires MayLeave(s, v, freed)
    ensures var name := Top(s)[0].name;
            Moved(s, Leaving(s, v, freed), Shown(s)[name := Seen(v.flags, Content(s.heap, v.text))],
                  SavedAt(s, |s.frames| - 1) - {name})
  {
    hide Good, Find, TopIn, Restores, Shown, EntryFits, SavedFits;
    var b, name, top := Leaving(s, v, freed), Top(s)[0].name, |s.frames| - 1;
    LeavingGood(s, v, freed);
    LeavingShows(s, v, freed);
    Head(s);
    forall k, other | Recorded(s, k, other) && !(k == top && other == name)
      ensures Restores(b, Find(s.frames[k], other).value) == Restores(s, Find(s.frames[k], other).value)
    {
      LeavingRestores(s, v, freed, k, other);
    }
    forall other
      ensures Find(Top(b), other) == if other == name then None else Find(Top(s), other)
    {
      FindRest(s, other);
    }
    assert b.frames[..top] == s.frames[..top];
  }

  function OwnedBy(flags: Flags, text: Text): Option<nat> {
    if text.Heap? && !flags.textfixed then Some(text.id) else None
  }

  /** Putting back what was saved. */
  lemma MayRestore(s: State)
    requires Good(s) && s.frames != [] && Top(s) != [] && !IsMissing(Top(s)[0])
    ensures var r := Top(s)[0];
            && r.name in s.table
            && MayLeave(s, Var(r.flags, r.text, r.local), OwnedBy(s.table[r.name].flags, s.table[r.name].text))
  {
    hide Good, Find, TopIn;
    Head(s);
    GoodEntry(s, Top(s)[0].name);
  }

  /** Letting go of a variable that did not exist: its text is its own. */
  lemma MayForget(s: State, flags: Flags)
    requires Good(s) && s.frames != [] && Top(s) != [] && IsMissing(Top(s)[0]) && Top(s)[0].name in s.table
    requires flags.textfixed == s.table[Top(s)[0].name].flags.textfixed
    ensures MayLeave(s, Var(flags, s.table[Top(s)[0].name].text, Top(s)[0].local), None)
  {
    hide Good, Find, TopIn;
    Head(s);
    GoodEntry(s, Top(s)[0].name);
  }

  /** Keeping a variable: either its text is still the saved one, or the saved one goes. */
  lemma MayMerge(s: State)
    requires Good(s) && s.frames != [] && Top(s) != [] && !IsMissing(Top(s)[0])
    ensures var r := Top(s)[0];
            && r.name in s.table
            && var v, same := s.table[r.name], s.table[r.name].text == r.text;
               && (same <==> v.flags.textfixed)
               && MayLeave(s, Var(v.flags.(strfixed := r.flags.strfixed, textfixed := same && r.flags.textfixed), v.text, r.local),
                           if same then None else OwnedBy(r.flags, r.text))
  {
    hide Good, Find, TopIn;
    Head(s);
    GoodEntry(s, Top(s)[0].name);
  }
}
