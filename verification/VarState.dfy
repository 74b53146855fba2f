/** The table of variables, the stack of local scopes, and who owns which text (src/var.c). */
module VarState {
  import opened Chars
  import opened Vars

  /** The text of a variable: in the program, or allocated. */
  datatype Text = Static(content: string) | Heap(id: nat)

  /** `struct var`; `local` is the innermost scope that made it local, -1 for none. */
  datatype Var = Var(flags: Flags, text: Text, local: int)

  /** `struct localvar`; for a variable that did not exist the flags are VUNSET alone. */
  datatype Saved = Saved(name: string, flags: Flags, text: Text, local: int)

  type Frame = seq<Saved>

  function Find(frame: Frame, name: string): Option<Saved> {
    if frame == [] then None else if frame[0].name == name then Some(frame[0]) else Find(frame[1..], name)
  }

  /** No variable twice. */
  predicate Distinct(frame: Frame) {
    frame == [] || (Find(frame[1..], frame[0].name).None? && Distinct(frame[1..]))
  }

  /** The innermost of the first `k` scopes in which `name` is local; -1 for none. */
  function TopIn(frames: seq<Frame>, name: string, k: nat): (i: int)
    requires k <= |frames|
    ensures -1 <= i < k && (i >= 0 ==> Find(frames[i], name).Some?)
  {
    if k == 0 then -1 else if Find(frames[k - 1], name).Some? then k - 1 else TopIn(frames, name, k - 1)
  }

  lemma {:induction false} TopInSame(a: seq<Frame>, b: seq<Frame>, name: string, k: nat)
    requires k <= |a| && k <= |b| && forall i :: 0 <= i < k ==> Find(a[i], name).Some? == Find(b[i], name).Some?
    ensures TopIn(a, name, k) == TopIn(b, name, k)
  {
    if k > 0 {
      TopInSame(a, b, name, k - 1);
    }
  }

  /** The owner of an allocated text: a variable's table entry (-1) or what one scope saved of it. */
  datatype Owner = Owner(name: string, level: int)

  datatype State = State(table: map<string, Var>, frames: seq<Frame>, heap: map<nat, string>, owner: map<nat, Owner>)

  predicate IsMissing(r: Saved) { r.flags == VUNSET }

  /** A text that is not to be freed is the one that the innermost scope saved. */
  predicate SavedText(s: State, local: int, name: string, text: Text) {
    local >= 0 ==>
      && local < |s.frames| && Find(s.frames[local], name).Some?
      && var r := Find(s.frames[local], name).value; !IsMissing(r) && r.text == text
  }

  predicate EntryFits(s: State, name: string)
    requires name in s.table
  {
    var v := s.table[name];
    && v.local == TopIn(s.frames, name, |s.frames|) && (v.local >= 0 ==> v.flags.strfixed)
    && (v.text.Static? ==> v.flags.textfixed) && (v.flags.textfixed ==> SavedText(s, v.local, name, v.text))
    && (v.text.Heap? ==> v.text.id in s.owner && s.owner[v.text.id].name == name
                         && (s.owner[v.text.id].level == -1 <==> !v.flags.textfixed))
  }

  predicate SavedFits(s: State, k: nat, name: string)
    requires k < |s.frames| && Find(s.frames[k], name).Some?
  {
    var r := Find(s.frames[k], name).value;
    && name in s.table && r.local == TopIn(s.frames, name, k)
    && if IsMissing(r) then r.local == -1
       else
         && !Nothing(r.flags) && (r.local >= 0 ==> r.flags.strfixed)
         && (r.text.Static? ==> r.flags.textfixed) && (r.flags.textfixed ==> SavedText(s, r.local, name, r.text))
         && (r.text.Heap? ==> r.text.id in s.owner && s.owner[r.text.id].name == name
                              && 0 <= s.owner[r.text.id].level <= k
                              && (s.owner[r.text.id].level == k <==> !r.flags.textfixed))
  }

  predicate OwnerFits(s: State, id: nat)
    requires id in s.owner
  {
    var o := s.owner[id];
    && id in s.heap
    && if o.level == -1 then o.name in s.table && s.table[o.name].text == Heap(id) && !s.table[o.name].flags.textfixed
       else
         && 0 <= o.level < |s.frames| && Find(s.frames[o.level], o.name).Some?
         && var r := Find(s.frames[o.level], o.name).value;
            !IsMissing(r) && r.text == Heap(id) && !r.flags.textfixed
  }

  predicate Recorded(s: State, k: int, name: string) {
    0 <= k < |s.frames| && Find(s.frames[k], name).Some?
  }

  /** No variable looks as if it did not exist. */
  ghost predicate Tidy(s: State) {
    forall name :: name in s.table ==> !Nothing(s.table[name].flags)
  }

  /** No text is lost, freed while in use, or owned twice; `local` fields and saved records agree. */
  ghost predicate Good(s: State) {
    && (forall name :: name in s.table ==> EntryFits(s, name))
    && (forall k, name :: Recorded(s, k, name) ==> SavedFits(s, k, name))
    && (forall k :: 0 <= k < |s.frames| ==> Distinct(s.frames[k]))
    && (forall id :: id in s.owner ==> OwnerFits(s, id))
    && (forall id :: id in s.heap ==> id in s.owner)
  }

  // ---------- What can be seen ----------

  function Content(heap: map<nat, string>, text: Text): string {
    match text
    case Static(content) => content
    case Heap(id) => if id in heap then heap[id] else []
  }

  function Shown(s: State): View {
    map name | name in s.table :: Seen(s.table[name].flags, Content(s.heap, s.table[name].text))
  }

  /** What a saved record restores. */
  function Restores(s: State, r: Saved): Option<Seen> {
    if IsMissing(r) then None else Some(Seen(r.flags, Content(s.heap, r.text)))
  }

  /** A variable once the scopes from `d` on are left. */
  function Undone(s: State, d: nat, name: string): Option<Seen>
    decreases |s.frames| - d
  {
    if d >= |s.frames| then Get(Shown(s), name)
    else if Find(s.frames[d], name).Some? then Restores(s, Find(s.frames[d], name).value)
    else Undone(s, d + 1, name)
  }

  function ShownUndone(s: State, d: nat): View {
    map name | name in s.table && Undone(s, d, name).Some? :: Undone(s, d, name).value
  }

  /** What scope `d` will restore. */
  function SavedAt(s: State, d: nat): map<string, Option<Seen>>
    requires d < |s.frames|
  {
    map name | name in s.table && Find(s.frames[d], name).Some? :: Restores(s, Find(s.frames[d], name).value)
  }

  /** The saved records of the first `depth` scopes restore the same. */
  ghost predicate Keeps(a: State, b: State, depth: nat) {
    && depth <= |a.frames| && depth <= |b.frames| && b.frames[..depth] == a.frames[..depth]
    && forall k, name :: Recorded(a, k, name) && k < depth ==>
         Restores(b, Find(a.frames[k], name).value) == Restores(a, Find(a.frames[k], name).value)
  }

  lemma KeepsTrans(a: State, b: State, c: State, depth: nat)
    requires Keeps(a, b, depth) && Keeps(b, c, depth)
    ensures Keeps(a, c, depth)
  {
    hide Restores;
    forall k, name | Recorded(a, k, name) && k < depth
      ensures Restores(c, Find(a.frames[k], name).value) == Restores(a, Find(a.frames[k], name).value)
    {
      assert a.frames[..depth][k] == b.frames[..depth][k];
      assert Recorded(b, k, name);
    }
  }

  lemma KeepsLess(a: State, b: State, depth: nat, less: nat)
    requires Keeps(a, b, depth) && less <= depth
    ensures Keeps(a, b, less)
  {
    hide Restores;
    assert b.frames[..less] == b.frames[..depth][..less];
  }

  // ---------- Changing an entry ----------

  /** The heap without the text of an entry that owns it. */
  function Freed(s: State, name: string): State {
    if name in s.table && !s.table[name].flags.textfixed && s.table[name].text.Heap?
    then s.(heap := s.heap - {s.table[name].text.id}, owner := s.owner - {s.table[name].text.id}) else s
  }

  /** Giving a variable new flags and a new text, `id`. */
  function Stored(s: State, name: string, seen: Seen, id: nat): State {
    var f := Freed(s, name);
    State(f.table[name := Var(seen.flags, Heap(id), if name in s.table then s.table[name].local else -1)], f.frames,
          f.heap[id := seen.value], f.owner[id := Owner(name, -1)])
  }

  lemma GoodEntry(s: State, name: string)
    requires Good(s) && name in s.table
    ensures EntryFits(s, name)
  {
  }

  lemma GoodSaved(s: State, k: nat, name: string)
    requires Good(s) && Recorded(s, k, name)
    ensures SavedFits(s, k, name)
  {
  }

  lemma GoodOwner(s: State, id: nat)
    requires Good(s) && id in s.owner
    ensures OwnerFits(s, id)
  {
  }

  lemma GoodHeap(s: State, id: nat)
    requires Good(s)
    ensures id in s.heap <==> id in s.owner
  {
    if id in s.owner {
      GoodOwner(s, id);
    }
  }

  lemma GoodDistinct(s: State, k: nat)
    requires Good(s) && k < |s.frames|
    ensures Distinct(s.frames[k])
  {
  }

  /** All that makes a state good. */
  lemma Assemble(b: State)
    requires forall name :: name in b.table ==> EntryFits(b, name)
    requires forall k, name :: Recorded(b, k, name) ==> SavedFits(b, k, name)
    requires forall k :: 0 <= k < |b.frames| ==> Distinct(b.frames[k])
    requires forall id :: id in b.owner ==> OwnerFits(b, id)
    requires forall id :: id in b.heap ==> id in b.owner
    ensures Good(b)
  {
    hide EntryFits, SavedFits, OwnerFits;
  }

  /** A text that may become the new one of a variable, and flags that it may have. */
  ghost predicate MayStore(s: State, name: string, seen: Seen, id: nat) {
    && Good(s) && id !in s.heap && !seen.flags.textfixed
    && (name in s.table && s.table[name].flags.strfixed ==> seen.flags.strfixed)
    && (name !in s.table ==> forall k :: 0 <= k < |s.frames| ==> Find(s.frames[k], name).None?)
  }

  lemma StoredEntry(s: State, name: string, seen: Seen, id: nat, other: string)
    requires MayStore(s, name, seen, id) && other in Stored(s, name, seen, id).table
    ensures EntryFits(Stored(s, name, seen, id), other)
  {
    hide Good;
    GoodHeap(s, id);
    if other in s.table {
      GoodEntry(s, other);
    }
    if name in s.table {
      GoodEntry(s, name);
    }
  }

  lemma StoredSaved(s: State, name: string, seen: Seen, id: nat, k: nat, other: string)
    requires MayStore(s, name, seen, id) && Recorded(s, k, other)
    ensures SavedFits(Stored(s, name, seen, id), k, other)
  {
    hide Good;
    GoodSaved(s, k, other);
    GoodHeap(s, id);
    if name in s.table {
      GoodEntry(s, name);
    }
  }

  lemma StoredOwner(s: State, name: string, seen: Seen, id: nat, i: nat)
    requires MayStore(s, name, seen, id) && i in Stored(s, name, seen, id).owner
    ensures OwnerFits(Stored(s, name, seen, id), i)
  {
    hide Good;
    if i != id {
      GoodOwner(s, i);
    }
    if name in s.table {
      GoodEntry(s, name);
    }
  }

  lemma StoredGood(s: State, name: string, seen: Seen, id: nat)
    requires MayStore(s, name, seen, id)
    ensures Good(Stored(s, name, seen, id))
  {
    hide Good, EntryFits, SavedFits, OwnerFits, Distinct;
    var b := Stored(s, name, seen, id);
    forall i | i in b.heap
      ensures i in b.owner
    {
      if i != id {
        GoodHeap(s, i);
      }
    }
    forall other | other in b.table
      ensures EntryFits(b, other)
    {
      StoredEntry(s, name, seen, id, other);
    }
    forall k, other | Recorded(b, k, other)
      ensures SavedFits(b, k, other)
    {
      StoredSaved(s, name, seen, id, k, other);
    }
    forall i | i in b.owner
      ensures OwnerFits(b, i)
    {
      StoredOwner(s, name, seen, id, i);
    }
    SameFrames(s, b);
    Assemble(b);
  }

  lemma SameFrames(s: State, b: State)
    requires Good(s) && b.frames == s.frames
    ensures forall k :: 0 <= k < |b.frames| ==> Distinct(b.frames[k])
  {
  }

  /** What a step that leaves the scopes alone keeps, when it changes no variable but `name`. */
  ghost predicate Changed(a: State, b: State, name: string, seen: Option<Seen>) {
    && Good(b) && b.frames == a.frames && Keeps(a, b, |a.frames|) && Shown(b) == Put(Shown(a), name, seen)
  }

  /** A text that someone else owns, or that a saved record shows, is not the one that an entry owns. */
  lemma OwnText(s: State, name: string, id: nat)
    requires Good(s) && name in s.table && s.table[name].text == Heap(id) && !s.table[name].flags.textfixed
    ensures id in s.heap && s.owner[id] == Owner(name, -1)
  {
    GoodEntry(s, name);
    GoodHeap(s, id);
  }

  lemma FreedKeeps(s: State, name: string, k: nat, other: string)
    requires Good(s) && Recorded(s, k, other)
    ensures Restores(Freed(s, name), Find(s.frames[k], other).value) == Restores(s, Find(s.frames[k], other).value)
  {
    hide Good;
    GoodSaved(s, k, other);
    if name in s.table && s.table[name].text.Heap? && !s.table[name].flags.textfixed {
      OwnText(s, name, s.table[name].text.id);
    }
  }

  lemma FreedShows(s: State, name: string, other: string)
    requires Good(s) && other in s.table && other != name
    ensures Content(Freed(s, name).heap, s.table[other].text) == Content(s.heap, s.table[other].text)
  {
    hide Good;
    GoodEntry(s, other);
    if name in s.table && s.table[name].text.Heap? && !s.table[name].flags.textfixed {
      OwnText(s, name, s.table[name].text.id);
    }
  }

  lemma RestoresInHeap(s: State, k: nat, name: string, id: nat)
    requires Good(s) && Recorded(s, k, name) && id !in s.heap
    ensures var r := Find(s.frames[k], name).value; !IsMissing(r) ==> r.text != Heap(id)
  {
    hide Good;
    GoodSaved(s, k, name);
    GoodHeap(s, id);
  }

  lemma StoredChanged(s: State, name: string, seen: Seen, id: nat)
    requires MayStore(s, name, seen, id)
    ensures Changed(s, Stored(s, name, seen, id), name, Some(seen))
  {
    hide Good;
    var b := Stored(s, name, seen, id);
    StoredGood(s, name, seen, id);
    forall k, other | Recorded(s, k, other)
      ensures Restores(b, Find(s.frames[k], other).value) == Restores(s, Find(s.frames[k], other).value)
    {
      FreedKeeps(s, name, k, other);
      RestoresInHeap(s, k, other, id);
    }
    forall other
      ensures Get(Shown(b), other) == Get(Put(Shown(s), name, Some(seen)), other)
    {
      if other in s.table && other != name {
        FreedShows(s, name, other);
        GoodEntry(s, other);
        GoodHeap(s, id);
      }
    }
    SameView(Shown(b), Put(Shown(s), name, Some(seen)));
  }

  /** Taking a variable out of the table. */
  function Dropped(s: State, name: string): State {
    var f := Freed(s, name);
    f.(table := f.table - {name})
  }

  lemma {:induction false} NotLocal(frames: seq<Frame>, name: string, k: nat, i: nat)
    requires k <= |frames| && TopIn(frames, name, k) == -1 && i < k
    ensures Find(frames[i], name).None?
  {
    if i < k - 1 {
      NotLocal(frames, name, k - 1, i);
    }
  }

  lemma DroppedEntry(s: State, name: string, other: string)
    requires Good(s) && name in s.table && !s.table[name].flags.strfixed && other in s.table && other != name
    ensures EntryFits(Dropped(s, name), other)
  {
    hide Good;
    GoodEntry(s, name);
    GoodEntry(s, other);
  }

  lemma DroppedSaved(s: State, name: string, k: nat, other: string)
    requires Good(s) && name in s.table && !s.table[name].flags.strfixed && Recorded(s, k, other)
    ensures SavedFits(Dropped(s, name), k, other)
  {
    hide Good;
    GoodEntry(s, name);
    GoodSaved(s, k, other);
    if other == name {
      NotLocal(s.frames, name, |s.frames|, k);
    }
  }

  lemma DroppedOwner(s: State, name: string, i: nat)
    requires Good(s) && name in s.table && !s.table[name].flags.strfixed && i in Dropped(s, name).owner
    ensures OwnerFits(Dropped(s, name), i)
  {
    hide Good;
    GoodEntry(s, name);
    GoodOwner(s, i);
  }

  lemma DroppedGood(s: State, name: string)
    requires Good(s) && name in s.table && !s.table[name].flags.strfixed
    ensures Good(Dropped(s, name))
  {
    hide Good, EntryFits, SavedFits, OwnerFits, Distinct;
    var b := Dropped(s, name);
    forall i | i in b.heap
      ensures i in b.owner
    {
      GoodHeap(s, i);
    }
    forall other | other in b.table
      ensures EntryFits(b, other)
    {
      DroppedEntry(s, name, other);
    }
    forall k, other | Recorded(b, k, other)
      ensures SavedFits(b, k, other)
    {
      DroppedSaved(s, name, k, other);
    }
    forall i | i in b.owner
      ensures OwnerFits(b, i)
    {
      DroppedOwner(s, name, i);
    }
    SameFrames(s, b);
    Assemble(b);
  }

  lemma DroppedChanged(s: State, name: string)
    requires Good(s) && name in s.table && !s.table[name].flags.strfixed
    ensures Changed(s, Dropped(s, name), name, None)
  {
    hide Good;
    var b := Dropped(s, name);
    DroppedGood(s, name);
    forall k, other | Recorded(s, k, other)
      ensures Restores(b, Find(s.frames[k], other).value) == Restores(s, Find(s.frames[k], other).value)
    {
      FreedKeeps(s, name, k, other);
    }
    forall other
      ensures Get(Shown(b), other) == Get(Put(Shown(s), name, None), other)
    {
      if other in s.table && other != name {
        FreedShows(s, name, other);
      }
    }
    SameView(Shown(b), Put(Shown(s), name, None));
  }

  /** Changing flags that no text depends on. */
  function Flagged(s: State, name: string, flags: Flags): State
    requires name in s.table
  {
    s.(table := s.table[name := s.table[name].(flags := flags)])
  }

  ghost predicate MayFlag(s: State, name: string, flags: Flags) {
    && Good(s) && name in s.table
    && flags.strfixed == s.table[name].flags.strfixed && flags.textfixed == s.table[name].flags.textfixed
  }

  lemma FlaggedEntry(s: State, name: string, flags: Flags, other: string)
    requires MayFlag(s, name, flags) && other in s.table
    ensures EntryFits(Flagged(s, name, flags), other)
  {
    hide Good;
    GoodEntry(s, other);
  }

  lemma FlaggedSaved(s: State, name: string, flags: Flags, k: nat, other: string)
    requires MayFlag(s, name, flags) && Recorded(s, k, other)
    ensures SavedFits(Flagged(s, name, flags), k, other)
  {
    hide Good;
    GoodSaved(s, k, other);
  }

  lemma FlaggedOwner(s: State, name: string, flags: Flags, i: nat)
    requires MayFlag(s, name, flags) && i in s.owner
    ensures OwnerFits(Flagged(s, name, flags), i)
  {
    hide Good;
    GoodOwner(s, i);
  }

  lemma FlagsChanged(s: State, name: string, flags: Flags)
    requires MayFlag(s, name, flags)
    ensures Changed(s, Flagged(s, name, flags), name, Some(Seen(flags, Content(s.heap, s.table[name].text))))
  {
    hide Good, EntryFits, SavedFits, OwnerFits, Distinct;
    var b := Flagged(s, name, flags);
    forall i | i in b.heap
      ensures i in b.owner
    {
      GoodHeap(s, i);
    }
    forall other | other in b.table
      ensures EntryFits(b, other)
    {
      FlaggedEntry(s, name, flags, other);
    }
    forall k, other | Recorded(b, k, other)
      ensures SavedFits(b, k, other)
    {
      FlaggedSaved(s, name, flags, k, other);
    }
    forall i | i in b.owner
      ensures OwnerFits(b, i)
    {
      FlaggedOwner(s, name, flags, i);
    }
    SameFrames(s, b);
    Assemble(b);
  }
}
