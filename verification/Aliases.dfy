/** Aliases that are being read (src/alias.c, src/input.c). */
module Aliases {
  import opened Chars

  /** `struct alias`: its text is allocated at `text`. */
  datatype Alias = Alias(text: nat, inUse: bool, dead: bool)

  /** What is on the stack of pushed strings: the start of a file, or a string, which may be that of an alias. */
  datatype Item = FileStart | Pushed(name: Option<string>, text: nat)

  /** Who is to free a text: an alias, or the string that is being read from it. */
  datatype Owner = Table(name: string) | Reader(name: string)

  datatype State = State(
    aliases: map<string, Alias>, stack: seq<Item>, done: seq<string>, heap: map<nat, string>, owner: map<nat, Owner>)

  /** The aliases that strings are being read from. */
  function Reading(stack: seq<Item>): multiset<string> {
    if stack == [] then multiset{}
    else
      var rest := Reading(stack[..|stack| - 1]);
      match stack[|stack| - 1]
      case FileStart => rest
      case Pushed(name, _) => if name.Some? then rest + multiset{name.value} else rest
  }

  /** All that keeps aliases from being freed. */
  function Users(s: State): multiset<string> {
    Reading(s.stack) + multiset(s.done)
  }

  predicate InUse(s: State, name: string) { name in s.aliases && s.aliases[name].inUse }

  predicate AliasFits(s: State, name: string)
    requires name in s.aliases
  {
    var id := s.aliases[name].text;
    id in s.heap && id in s.owner && s.owner[id] == Table(name)
  }

  /** The text of a string from an alias: that of the alias, or one that the string has to itself. */
  predicate ItemFits(s: State, item: Item) {
    item.Pushed? && item.name.Some? ==>
      && item.name.value in s.aliases && item.text in s.heap && item.text in s.owner
      && s.owner[item.text] ==
           (if item.text == s.aliases[item.name.value].text then Table(item.name.value) else Reader(item.name.value))
  }

  /** A string from the alias `name` is being read whose text is at `text`. */
  predicate ReadFrom(stack: seq<Item>, name: string, text: nat) {
    exists i :: 0 <= i < |stack| && stack[i] == Pushed(Some(name), text)
  }

  predicate OwnerFits(s: State, id: nat)
    requires id in s.owner
  {
    id in s.heap &&
    match s.owner[id]
    case Table(name) => name in s.aliases && s.aliases[name].text == id
    case Reader(name) => ReadFrom(s.stack, name, id)
  }

  /**
   * An alias is in use exactly when one string is read from it or it waits on `aliasdone`, not both; a text that is
   * being read is allocated; and no text has two owners.
   */
  ghost predicate Good(s: State) {
    && (forall name :: Users(s)[name] == if InUse(s, name) then 1 else 0)
    && (forall name :: name in s.aliases ==> AliasFits(s, name))
    && (forall i :: 0 <= i < |s.stack| ==> ItemFits(s, s.stack[i]))
    && (forall id :: id in s.owner ==> OwnerFits(s, id))
  }

  function Unused(used: set<nat>, from: nat): (id: nat)
    ensures id >= from && id !in used
    decreases |used|
  {
    if from !in used then from
    else
      var id := Unused(used - {from}, from + 1);
      assert id != from;
      id
  }

  lemma {:induction false} ReadingHas(stack: seq<Item>, i: nat)
    requires i < |stack| && stack[i].Pushed? && stack[i].name.Some?
    ensures stack[i].name.value in Reading(stack)
  {
    var rest := stack[..|stack| - 1];
    if i < |rest| {
      ReadingHas(rest, i);
    }
  }

  lemma GoodUsers(s: State, name: string)
    requires Good(s)
    ensures Users(s)[name] == if InUse(s, name) then 1 else 0
  {
  }

  lemma GoodAlias(s: State, name: string)
    requires Good(s) && name in s.aliases
    ensures AliasFits(s, name)
  {
  }

  lemma GoodItem(s: State, i: nat)
    requires Good(s) && i < |s.stack|
    ensures ItemFits(s, s.stack[i])
  {
  }

  lemma GoodOwner(s: State, id: nat)
    requires Good(s) && id in s.owner
    ensures OwnerFits(s, id)
  {
  }

  /** A string that is being read is never freed under its reader. */
  lemma NeverFreed(s: State, i: nat)
    requires Good(s) && i < |s.stack| && s.stack[i].Pushed? && s.stack[i].name.Some?
    ensures s.stack[i].text in s.heap && InUse(s, s.stack[i].name.value)
  {
    hide Good;
    GoodItem(s, i);
    GoodUsers(s, s.stack[i].name.value);
    ReadingHas(s.stack, i);
  }

  lemma {:induction false} ReadingTwice(stack: seq<Item>, i: nat, j: nat)
    requires i < j < |stack| && stack[i].Pushed? && stack[i].name.Some? && stack[j].Pushed? && stack[j].name == stack[i].name
    ensures Reading(stack)[stack[i].name.value] >= 2
  {
    var rest := stack[..|stack| - 1];
    if j < |rest| {
      ReadingTwice(rest, i, j);
    } else {
      ReadingHas(rest, i);
    }
  }

  /** An alias that nothing is read from has no strings. */
  lemma NotRead(s: State, name: string, i: nat)
    requires Good(s) && !InUse(s, name) && i < |s.stack| && s.stack[i].Pushed? && s.stack[i].name.Some?
    ensures s.stack[i].name.value != name
  {
    NeverFreed(s, i);
  }

  lemma Assemble(s: State)
    requires forall name :: Users(s)[name] == if InUse(s, name) then 1 else 0
    requires forall name :: name in s.aliases ==> AliasFits(s, name)
    requires forall i :: 0 <= i < |s.stack| ==> ItemFits(s, s.stack[i])
    requires forall id :: id in s.owner ==> OwnerFits(s, id)
    ensures Good(s)
  {
    hide Users, InUse, AliasFits, ItemFits, OwnerFits;
  }

  // ---------- Defining and removing ----------

  /** The owners when `name` gets another text: its old one goes, or stays for whoever reads it. */
  function Disowned(s: State, name: string): map<nat, Owner> {
    if name !in s.aliases then s.owner
    else
      var a := s.aliases[name];
      if a.inUse && ReadFrom(s.stack, name, a.text) then s.owner[a.text := Reader(name)] else s.owner - {a.text}
  }

  /** `setalias`, with a new text at `id`. A text that is in use but no longer read from is forgotten, not freed. */
  function Set(s: State, name: string, value: string, id: nat): State {
    var inUse := InUse(s, name);
    var heap := if name in s.aliases && !inUse then s.heap - {s.aliases[name].text} else s.heap;
    State(s.aliases[name := Alias(id, inUse, false)], s.stack, s.done, heap[id := value],
          Disowned(s, name)[id := Table(name)])
  }

  /** A text that nobody will free. */
  predicate Lost(s: State, id: nat) { id in s.heap && id !in s.owner }

  /**
   * Redefining an alias loses its old text exactly when the alias is in use but no string is read from this text any
   * more: it waits on `aliasdone`, or the string on the stack is that of a definition before.
   */
  lemma SetLoses(s: State, name: string, value: string, id: nat, lost: nat)
    requires Good(s) && id !in s.heap
    ensures Lost(Set(s, name, value, id), lost) <==>
              Lost(s, lost) || (InUse(s, name) && lost == s.aliases[name].text && !ReadFrom(s.stack, name, lost))
  {
    hide Good, ReadFrom;
    if name in s.aliases {
      GoodAlias(s, name);
    }
  }

  lemma SetItem(s: State, name: string, value: string, id: nat, i: nat)
    requires Good(s) && id !in s.heap && i < |s.stack|
    ensures ItemFits(Set(s, name, value, id), s.stack[i])
  {
    hide Good;
    var item := s.stack[i];
    GoodItem(s, i);
    if name in s.aliases {
      GoodAlias(s, name);
      if item.Pushed? && item.name == Some(name) {
        NeverFreed(s, i);
        assert item.text == s.aliases[name].text ==> ReadFrom(s.stack, name, item.text);
      }
    }
  }

  lemma SetOwner(s: State, name: string, value: string, id: nat, o: nat)
    requires Good(s) && id !in s.heap && o in Set(s, name, value, id).owner
    ensures OwnerFits(Set(s, name, value, id), o)
  {
    hide Good;
    if o in s.owner {
      GoodOwner(s, o);
    }
    if name in s.aliases {
      GoodAlias(s, name);
    }
  }

  lemma SetGood(s: State, name: string, value: string, id: nat)
    requires Good(s) && id !in s.heap
    ensures Good(Set(s, name, value, id))
  {
    hide Good, ItemFits, OwnerFits, Users;
    var t := Set(s, name, value, id);
    forall other
      ensures Users(t)[other] == if InUse(t, other) then 1 else 0
    {
      GoodUsers(s, other);
      SameUsers(s, t);
    }
    forall other | other in t.aliases
      ensures AliasFits(t, other)
    {
      if other in s.aliases {
        GoodAlias(s, other);
      }
      if name in s.aliases {
        GoodAlias(s, name);
      }
    }
    forall i | 0 <= i < |t.stack|
      ensures ItemFits(t, t.stack[i])
    {
      SetItem(s, name, value, id, i);
    }
    forall o | o in t.owner
      ensures OwnerFits(t, o)
    {
      SetOwner(s, name, value, id, o);
    }
    Assemble(t);
  }

  lemma SameUsers(s: State, t: State)
    requires t.stack == s.stack && t.done == s.done
    ensures Users(t) == Users(s)
  {
  }

  /** Taking an alias that is not in use out of the table. */
  function Removed(s: State, name: string): State
    requires name in s.aliases
  {
    var id := s.aliases[name].text;
    s.(aliases := s.aliases - {name}, heap := s.heap - {id}, owner := s.owner - {id})
  }

  /** `freealias` */
  function Unalias(s: State, name: string): State {
    if name !in s.aliases then s
    else if s.aliases[name].inUse then s.(aliases := s.aliases[name := s.aliases[name].(dead := true)])
    else Removed(s, name)
  }

  lemma RemovedGood(s: State, name: string)
    requires Good(s) && name in s.aliases && !s.aliases[name].inUse
    ensures Good(Removed(s, name))
  {
    hide Good, Users;
    var t := Removed(s, name);
    GoodAlias(s, name);
    forall other
      ensures Users(t)[other] == if InUse(t, other) then 1 else 0
    {
      GoodUsers(s, other);
      SameUsers(s, t);
    }
    forall other | other in t.aliases
      ensures AliasFits(t, other)
    {
      GoodAlias(s, other);
    }
    forall i | 0 <= i < |t.stack|
      ensures ItemFits(t, t.stack[i])
    {
      GoodItem(s, i);
      if t.stack[i].Pushed? && t.stack[i].name.Some? {
        NotRead(s, name, i);
      }
    }
    forall o | o in t.owner
      ensures OwnerFits(t, o)
    {
      GoodOwner(s, o);
    }
    Assemble(t);
  }

  lemma UnaliasGood(s: State, name: string)
    requires Good(s)
    ensures Good(Unalias(s, name))
  {
    if name in s.aliases && s.aliases[name].inUse {
      FlagGood(s, name, s.aliases[name].(dead := true));
    } else if name in s.aliases {
      RemovedGood(s, name);
    }
  }

  /** Flags that say nothing about use do not matter. */
  lemma FlagGood(s: State, name: string, a: Alias)
    requires Good(s) && name in s.aliases && a.inUse == s.aliases[name].inUse && a.text == s.aliases[name].text
    ensures Good(s.(aliases := s.aliases[name := a]))
  {
    hide Good, Users;
    var t := s.(aliases := s.aliases[name := a]);
    forall other
      ensures Users(t)[other] == if InUse(t, other) then 1 else 0
    {
      GoodUsers(s, other);
      SameUsers(s, t);
    }
    forall other | other in t.aliases
      ensures AliasFits(t, other)
    {
      GoodAlias(s, other);
    }
    forall i | 0 <= i < |t.stack|
      ensures ItemFits(t, t.stack[i])
    {
      GoodItem(s, i);
    }
    forall o | o in t.owner
      ensures OwnerFits(t, o)
    {
      GoodOwner(s, o);
    }
    Assemble(t);
  }

  // ---------- Reading ----------

  /** `pushstring` of an alias. */
  function Push(s: State, name: string): State
    requires name in s.aliases
  {
    var a := s.aliases[name];
    s.(aliases := s.aliases[name := a.(inUse := true)], stack := s.stack + [Pushed(Some(name), a.text)])
  }

  lemma PushGood(s: State, name: string)
    requires Good(s) && name in s.aliases && !s.aliases[name].inUse
    ensures Good(Push(s, name))
  {
    hide Good;
    var t := Push(s, name);
    GoodAlias(s, name);
    forall other
      ensures Users(t)[other] == if InUse(t, other) then 1 else 0
    {
      GoodUsers(s, other);
    }
    forall other | other in t.aliases
      ensures AliasFits(t, other)
    {
      GoodAlias(s, other);
    }
    forall i | 0 <= i < |t.stack|
      ensures ItemFits(t, t.stack[i])
    {
      if i < |s.stack| {
        GoodItem(s, i);
      }
    }
    hide Users;
    forall o | o in t.owner
      ensures OwnerFits(t, o)
    {
      GoodOwner(s, o);
      if s.owner[o].Reader? {
        ReadMore(s.stack, Pushed(Some(name), s.aliases[name].text), s.owner[o].name, o);
      }
    }
    Assemble(t);
  }

  lemma ReadMore(stack: seq<Item>, item: Item, name: string, id: nat)
    requires ReadFrom(stack, name, id)
    ensures ReadFrom(stack + [item], name, id)
  {
    var i :| 0 <= i < |stack| && stack[i] == Pushed(Some(name), id);
    assert (stack + [item])[i] == Pushed(Some(name), id);
  }

  /** A file, or a string that is not from an alias. */
  lemma PlainGood(s: State, item: Item)
    requires Good(s) && (item.FileStart? || item.name.None?)
    ensures Good(s.(stack := s.stack + [item]))
  {
    hide Good;
    var t := s.(stack := s.stack + [item]);
    forall other
      ensures Users(t)[other] == if InUse(t, other) then 1 else 0
    {
      GoodUsers(s, other);
    }
    forall other | other in t.aliases
      ensures AliasFits(t, other)
    {
      GoodAlias(s, other);
    }
    forall i | 0 <= i < |t.stack|
      ensures ItemFits(t, t.stack[i])
    {
      if i < |s.stack| {
        GoodItem(s, i);
      }
    }
    hide Users;
    forall o | o in t.owner
      ensures OwnerFits(t, o)
    {
      GoodOwner(s, o);
      if s.owner[o].Reader? {
        ReadMore(s.stack, item, s.owner[o].name, o);
      }
    }
    Assemble(t);
  }

  /** `popstring`, or the end of a file. */
  function Pop(s: State): State
    requires s.stack != []
  {
    var item, rest := s.stack[|s.stack| - 1], s.stack[..|s.stack| - 1];
    if item.FileStart? || item.name.None? then s.(stack := rest)
    else
      var name := item.name.value;
      var mine := name !in s.aliases || item.text != s.aliases[name].text;
      State(s.aliases, rest, [name] + s.done, if mine then s.heap - {item.text} else s.heap,
            if mine then s.owner - {item.text} else s.owner)
  }

  lemma PopOwner(s: State, id: nat)
    requires Good(s) && s.stack != [] && id in Pop(s).owner
    ensures OwnerFits(Pop(s), id)
  {
    hide Good;
    var k := |s.stack| - 1;
    var item := s.stack[k];
    GoodOwner(s, id);
    GoodItem(s, k);
    if s.owner[id].Reader? {
      var name := s.owner[id].name;
      var i :| 0 <= i < |s.stack| && s.stack[i] == Pushed(Some(name), id);
      if i < k {
        assert Pop(s).stack[i] == Pushed(Some(name), id);
      } else {
        GoodOwner(s, id);
        GoodUsers(s, name);
        NeverFreed(s, i);
        PopMine(s, id);
      }
    }
  }

  /** The text of the last string goes with it, when it is its own. */
  lemma PopMine(s: State, id: nat)
    requires Good(s) && s.stack != [] && id in s.owner && s.owner[id].Reader?
    requires s.stack[|s.stack| - 1] == Pushed(Some(s.owner[id].name), id)
    ensures id !in Pop(s).owner
  {
    hide Good;
    GoodItem(s, |s.stack| - 1);
  }

  lemma PopUsers(s: State)
    requires s.stack != []
    ensures Users(Pop(s)) == Users(s)
  {
    var k := |s.stack| - 1;
    assert s.stack == s.stack[..k] + [s.stack[k]];
    var item := s.stack[k];
    if item.Pushed? && item.name.Some? {
      assert multiset([item.name.value] + s.done) == multiset{item.name.value} + multiset(s.done);
    }
  }

  /** A string further down keeps its text when the last one goes. */
  lemma PopItem(s: State, i: nat)
    requires Good(s) && i < |s.stack| - 1
    ensures ItemFits(Pop(s), s.stack[i])
  {
    hide Good, Reading;
    var k := |s.stack| - 1;
    GoodItem(s, i);
    GoodItem(s, k);
    var last, item := s.stack[k], s.stack[i];
    if last.Pushed? && last.name.Some? && item.Pushed? && item.name.Some? {
      GoodUsers(s, item.name.value);
      if item.name == last.name {
        ReadingTwice(s.stack, i, k);
      }
    }
  }

  lemma PopGood(s: State)
    requires Good(s) && s.stack != []
    ensures Good(Pop(s))
  {
    hide Good, Users, ItemFits, OwnerFits;
    var t, k := Pop(s), |s.stack| - 1;
    PopUsers(s);
    GoodItem(s, k);
    forall other
      ensures Users(t)[other] == if InUse(t, other) then 1 else 0
    {
      GoodUsers(s, other);
    }
    forall other | other in t.aliases
      ensures AliasFits(t, other)
    {
      PopAlias(s, other);
    }
    forall i | 0 <= i < |t.stack|
      ensures ItemFits(t, t.stack[i])
    {
      PopItem(s, i);
    }
    forall o | o in t.owner
      ensures OwnerFits(t, o)
    {
      PopOwner(s, o);
    }
    Assemble(t);
  }

  lemma PopAlias(s: State, other: string)
    requires Good(s) && s.stack != [] && other in s.aliases
    ensures AliasFits(Pop(s), other)
  {
    hide Good;
    GoodAlias(s, other);
    GoodItem(s, |s.stack| - 1);
  }

  /** One turn of the loop of `endaliasuse`. */
  function Release(s: State): State
    requires s.done != []
  {
    var name := s.done[0];
    if name !in s.aliases then s.(done := s.done[1..])
    else
      var a := s.aliases[name];
      var t := s.(done := s.done[1..], aliases := s.aliases[name := a.(inUse := false)]);
      if a.dead then Removed(t, name) else t
  }

  lemma ReleaseGood(s: State)
    requires Good(s) && s.done != []
    ensures Good(Release(s)) && s.done[0] in s.aliases
  {
    hide Good, Reading;
    var name := s.done[0];
    assert s.done == [name] + s.done[1..];
    GoodUsers(s, name);
    assert name in multiset(s.done);
    var a := s.aliases[name];
    var t := s.(done := s.done[1..], aliases := s.aliases[name := a.(inUse := false)]);
    forall other
      ensures Users(t)[other] == if InUse(t, other) then 1 else 0
    {
      GoodUsers(s, other);
    }
    hide Users;
    forall other | other in t.aliases
      ensures AliasFits(t, other)
    {
      GoodAlias(s, other);
    }
    forall i | 0 <= i < |t.stack|
      ensures ItemFits(t, t.stack[i])
    {
      GoodItem(s, i);
    }
    forall o | o in t.owner
      ensures OwnerFits(t, o)
    {
      GoodOwner(s, o);
    }
    Assemble(t);
    if a.dead {
      RemovedGood(t, name);
    }
  }

  /** `endaliasuse` */
  function EndUse(s: State): State
    decreases |s.done|
  {
    if s.done == [] then s else EndUse(Release(s))
  }

  /** Behind `endaliasuse` the aliases that waited are no longer in use, and those that were dead are gone. */
  lemma {:induction false} EndUseFrees(s: State)
    requires Good(s)
    ensures var t := EndUse(s);
            && Good(t) && t.done == [] && t.stack == s.stack && t.aliases.Keys <= s.aliases.Keys
            && forall name :: name in s.aliases ==>
                 if name in s.done && s.aliases[name].dead then name !in t.aliases
                 else name in t.aliases && t.aliases[name] ==
                        if name in s.done then s.aliases[name].(inUse := false) else s.aliases[name]
    decreases |s.done|
  {
    hide Good;
    if s.done != [] {
      ReleaseGood(s);
      EndUseFrees(Release(s));
      DoneOnce(s);
      assert s.done == [s.done[0]] + s.done[1..];
    }
  }

  lemma DoneOnce(s: State)
    requires Good(s) && s.done != []
    ensures s.done[0] !in s.done[1..]
  {
    hide Good;
    GoodUsers(s, s.done[0]);
    assert s.done == [s.done[0]] + s.done[1..];
  }

  // ---------- Runs ----------

  datatype Op =
    | Define(name: string, value: string)
    | Remove(name: string)
    | Expand(name: string)
    | OpenFile
    | PushText(text: nat)
    | End
    | Done

  /** A word that is an alias not in use is replaced by its text, or by nothing when that is empty. */
  function ExpandIn(s: State, name: string): State {
    if name !in s.aliases || s.aliases[name].inUse then s
    else
      var id := s.aliases[name].text;
      if id in s.heap && s.heap[id] == [] then s else Push(s, name)
  }

  function Apply(s: State, op: Op): State {
    match op
    case Define(name, value) => Set(s, name, value, Unused(s.heap.Keys, 0))
    case Remove(name) => Unalias(s, name)
    case Expand(name) => ExpandIn(s, name)
    case OpenFile => s.(stack := s.stack + [FileStart])
    case PushText(text) => s.(stack := s.stack + [Pushed(None, text)])
    case End => if s.stack == [] then s else Pop(s)
    case Done => EndUse(s)
  }

  function Run(s: State, ops: seq<Op>): State
    decreases |ops|
  {
    if ops == [] then s else Run(Apply(s, ops[0]), ops[1..])
  }

  lemma ApplyGood(s: State, op: Op)
    requires Good(s)
    ensures Good(Apply(s, op))
  {
    hide Good;
    match op
    case Define(name, value) => SetGood(s, name, value, Unused(s.heap.Keys, 0));
    case Remove(name) => UnaliasGood(s, name);
    case Expand(name) =>
      if name in s.aliases && !s.aliases[name].inUse {
        PushGood(s, name);
      }
    case OpenFile => PlainGood(s, FileStart);
    case PushText(text) => PlainGood(s, Pushed(None, text));
    case End =>
      if s.stack != [] {
        PopGood(s);
      }
    case Done => EndUseFrees(s);
  }

  /**
   * In every run, an alias is flagged exactly while one string is read from it or it waits on the done list, and no
   * text that is being read has been freed.
   */
  lemma {:induction false} RunGood(s: State, ops: seq<Op>)
    requires Good(s)
    ensures var t := Run(s, ops);
            && Good(t) && (forall name :: Users(t)[name] == if InUse(t, name) then 1 else 0)
            && forall i :: 0 <= i < |t.stack| && t.stack[i].Pushed? && t.stack[i].name.Some? ==> t.stack[i].text in t.heap
    decreases |ops|
  {
    hide Good;
    if ops == [] {
      forall name
        ensures Users(s)[name] == if InUse(s, name) then 1 else 0
      {
        GoodUsers(s, name);
      }
      forall i | 0 <= i < |s.stack| && s.stack[i].Pushed? && s.stack[i].name.Some?
        ensures s.stack[i].text in s.heap
      {
        NeverFreed(s, i);
      }
    } else {
      ApplyGood(s, ops[0]);
      RunGood(Apply(s, ops[0]), ops[1..]);
    }
  }

  /** The text of an alias is the one it was defined with last, and that of another does not change. */
  lemma DefinedIs(s: State, name: string, value: string, other: string)
    requires Good(s)
    ensures var t := Apply(s, Define(name, value));
            && name in t.aliases && t.aliases[name].text in t.heap && t.heap[t.aliases[name].text] == value
            && !t.aliases[name].dead && (other in t.aliases <==> other == name || other in s.aliases)
            && (other in s.aliases && other != name ==>
                  t.aliases[other] == s.aliases[other] && s.aliases[other].text in s.heap
                  && t.aliases[other].text in t.heap && t.heap[t.aliases[other].text] == s.heap[s.aliases[other].text])
  {
    hide Good;
    if name in s.aliases {
      GoodAlias(s, name);
    }
    if other in s.aliases {
      GoodAlias(s, other);
    }
  }

  /** A word that is an alias stands for this text, once; while it is being read, and without it, for itself. */
  lemma ExpandedIs(s: State, name: string)
    requires Good(s)
    ensures var t := Apply(s, Expand(name));
            if name in s.aliases && !s.aliases[name].inUse && s.heap[s.aliases[name].text] != []
            then t.stack == s.stack + [Pushed(Some(name), s.aliases[name].text)] && t.heap == s.heap
                 && Apply(t, Expand(name)) == t
            else t == s
    ensures name in s.aliases ==> s.aliases[name].text in s.heap
  {
    hide Good;
    if name in s.aliases {
      GoodAlias(s, name);
    }
  }

  /** An alias that has been removed is gone, at once or when what waits is released, unless it is defined again. */
  lemma RemovedIs(s: State, name: string)
    requires Good(s)
    ensures var t := Apply(s, Remove(name));
            && (name in t.aliases <==> InUse(s, name))
            && (name in t.aliases && name in t.done ==> name !in EndUse(t).aliases)
  {
    UnaliasGood(s, name);
    EndUseFrees(Unalias(s, name));
  }

  lemma {:induction false} EndUseTexts(s: State, i: nat)
    requires Good(s) && i < |s.stack| && s.stack[i].Pushed? && s.stack[i].name.Some?
    ensures var id := s.stack[i].text; id in s.heap && id in EndUse(s).heap && EndUse(s).heap[id] == s.heap[id]
    decreases |s.done|
  {
    hide Good;
    NeverFreed(s, i);
    if s.done != [] {
      ReleaseGood(s);
      NeverFreed(Release(s), i);
      EndUseTexts(Release(s), i);
    }
  }

  /** A text does not change while it is being read, whatever becomes of its alias. */
  lemma TextStays(s: State, op: Op, i: nat)
    requires Good(s) && i < |s.stack| && s.stack[i].Pushed? && s.stack[i].name.Some?
    requires op.End? ==> i < |s.stack| - 1
    ensures var t, id := Apply(s, op), s.stack[i].text;
            i < |t.stack| && t.stack[i] == s.stack[i] && id in s.heap && id in t.heap && t.heap[id] == s.heap[id]
  {
    hide Good;
    NeverFreed(s, i);
    ApplyGood(s, op);
    if op.Done? {
      EndUseFrees(s);
      EndUseTexts(s, i);
    } else if i < |Apply(s, op).stack| && Apply(s, op).stack[i] == s.stack[i] {
      NeverFreed(Apply(s, op), i);
    }
  }

  lemma {:induction false} EndUseLoses(s: State, lost: nat)
    requires Good(s) && Lost(s, lost)
    ensures Lost(EndUse(s), lost)
    decreases |s.done|
  {
    hide Good;
    if s.done != [] {
      ReleaseGood(s);
      GoodAlias(s, s.done[0]);
      EndUseLoses(Release(s), lost);
    }
  }

  lemma ApplyLoses(s: State, op: Op, lost: nat)
    requires Good(s) && Lost(s, lost)
    ensures Lost(Apply(s, op), lost)
  {
    hide Good;
    match op
    case Define(name, value) => SetLoses(s, name, value, Unused(s.heap.Keys, 0), lost);
    case Remove(name) =>
      if name in s.aliases {
        GoodAlias(s, name);
      }
    case End =>
      if s.stack != [] {
        GoodItem(s, |s.stack| - 1);
      }
    case Done => EndUseLoses(s, lost);
    case _ =>
  }

  /** A text that is lost is never freed, whatever follows. */
  lemma {:induction false} LostForGood(s: State, ops: seq<Op>, lost: nat)
    requires Good(s) && Lost(s, lost)
    ensures lost in Run(s, ops).heap && Lost(Run(s, ops), lost)
    decreases |ops|
  {
    hide Good;
    if ops != [] {
      ApplyGood(s, ops[0]);
      ApplyLoses(s, ops[0], lost);
      LostForGood(Apply(s, ops[0]), ops[1..], lost);
    }
  }

  /** An alias that is redefined twice while its first text is being read loses the second one. */
  lemma LossHappens(value: string) returns (s: State, ops: seq<Op>, lost: nat)
    requires value != []
    ensures s == State(map[], [], [], map[], map[]) && Lost(Run(s, ops), lost)
  {
    s := State(map[], [], [], map[], map[]);
    var again := Define("a", value);
    ops := [again, Expand("a"), again, again];
    var s1 := Apply(s, again);
    var s2 := Apply(s1, Expand("a"));
    var s3 := Apply(s2, again);
    ApplyGood(s, again);
    ApplyGood(s1, Expand("a"));
    ApplyGood(s2, again);
    lost := s3.aliases["a"].text;
    assert s3.stack == [Pushed(Some("a"), s1.aliases["a"].text)];
    assert lost != s1.aliases["a"].text;
    SetLoses(s3, "a", value, Unused(s3.heap.Keys, 0), lost);
    assert ops[1..] == [Expand("a"), again, again] && ops[1..][1..] == [again, again] && [again, again][1..] == [again];
    assert Run(s3, [again]) == Apply(s3, again);
    assert Run(s2, [again, again]) == Run(s3, [again]);
  }

  // ---------- The tables themselves ----------

  class Shell {
    var aliases: map<string, Alias>
    var stack: seq<Item>
    var aliasdone: seq<string>
    var heap: map<nat, string>
    ghost var owner: map<nat, Owner>

    constructor ()
      ensures Good(Now())
    {
      aliases, stack, aliasdone, heap, owner := map[], [], [], map[], map[];
    }

    ghost function Now(): State
      reads this
    {
      State(aliases, stack, aliasdone, heap, owner)
    }

    /** `ckfree`, for a text: it must be allocated. */
    method Free(id: nat)
      requires id in heap
      modifies `heap
      ensures heap == old(heap) - {id}
    {
      heap := heap - {id};
    }

    /** `setalias` */
    method SetAlias(name: string, val: string)
      requires Good(Now())
      modifies this
      ensures Now() == Set(old(Now()), name, val, Unused(old(heap).Keys, 0)) && Good(Now())
    {
      hide Good;
      var id := Unused(heap.Keys, 0);
      SetGood(Now(), name, val, id);
      var inUse := false;
      owner := Disowned(Now(), name)[id := Table(name)];
      if name in aliases {
        GoodAlias(old(Now()), name);
        inUse := aliases[name].inUse;
        if !inUse {
          Free(aliases[name].text);
        }
      }
      heap := heap[id := val];
      aliases := aliases[name := Alias(id, inUse, false)];
      assert Now() == Set(old(Now()), name, val, id);
    }

    /** `unalias`: whether there was such an alias. */
    method UnaliasName(name: string) returns (found: bool)
      requires Good(Now())
      modifies this
      ensures found == (name in old(aliases)) && Now() == Unalias(old(Now()), name) && Good(Now())
    {
      hide Good;
      UnaliasGood(Now(), name);
      if name !in aliases {
        return false;
      }
      if aliases[name].inUse {
        aliases := aliases[name := aliases[name].(dead := true)];
      } else {
        GoodAlias(Now(), name);
        owner := owner - {aliases[name].text};
        Free(aliases[name].text);
        aliases := aliases - {name};
      }
      found := true;
    }

    /** `lookupalias`, when it is checked that the alias is not in use. */
    method LookupAlias(name: string) returns (found: bool)
      ensures found <==> name in aliases && !aliases[name].inUse
    {
      found := name in aliases && !aliases[name].inUse;
    }

    /** What becomes of a word that may be an alias; the text of an alias that is empty is not pushed. */
    method ExpandAlias(name: string)
      requires Good(Now())
      modifies this
      ensures Now() == ExpandIn(old(Now()), name) && Good(Now())
    {
      hide Good, Push;
      var found := LookupAlias(name);
      if !found {
        return;
      }
      GoodAlias(Now(), name);
      if heap[aliases[name].text] != [] {
        PushString(name);
      }
    }

    /** One step of a run. */
    method Step(op: Op)
      requires Good(Now())
      modifies this
      ensures Now() == Apply(old(Now()), op) && Good(Now())
    {
      hide Good, Set, Unalias, ExpandIn, Pop, EndUse;
      match op {
        case Define(name, value) => SetAlias(name, value);
        case Remove(name) => var found := UnaliasName(name);
        case Expand(name) => ExpandAlias(name);
        case OpenFile => PushPlain(FileStart);
        case PushText(text) => PushPlain(Pushed(None, text));
        case End =>
          if stack != [] {
            PopItem();
          }
        case Done => EndAliasUse();
      }
    }

    /** `pushstring`, for an alias that may be expanded. */
    method PushString(name: string)
      requires Good(Now()) && name in aliases && !aliases[name].inUse
      modifies this
      ensures Now() == Push(old(Now()), name) && Good(Now())
    {
      PushGood(Now(), name);
      stack := stack + [Pushed(Some(name), aliases[name].text)];
      aliases := aliases[name := aliases[name].(inUse := true)];
    }

    /** `pushfile`, or `pushstring` of a string that is not from an alias. */
    method PushPlain(item: Item)
      requires Good(Now()) && (item.FileStart? || item.name.None?)
      modifies this
      ensures Now() == old(Now()).(stack := old(stack) + [item]) && Good(Now())
    {
      hide Good;
      PlainGood(Now(), item);
      stack := stack + [item];
    }

    /** `popfile`: the strings of the last file, and the file. */
    method PopFile()
      requires Good(Now()) && FileStart in stack
      modifies this
      ensures Good(Now()) && exists k :: 0 <= k < |old(stack)| && old(stack)[k] == FileStart && stack == old(stack)[..k]
    {
      hide Good;
      while stack[|stack| - 1] != FileStart
        invariant Good(Now()) && FileStart in stack && |stack| <= |old(stack)| && stack == old(stack)[..|stack|]
        decreases |stack|
      {
        PopItem();
      }
      ghost var k := |stack| - 1;
      PopItem();
      assert old(stack)[k] == FileStart && stack == old(stack)[..k];
    }

    /** `popstring`, or taking a file whose strings have all been popped off the stack. */
    method PopItem()
      requires Good(Now()) && stack != []
      modifies this
      ensures Now() == Pop(old(Now())) && Good(Now())
    {
      hide Good;
      PopGood(Now());
      GoodItem(Now(), |stack| - 1);
      var item := stack[|stack| - 1];
      if item.Pushed? && item.name.Some? {
        var name := item.name.value;
        if item.text != aliases[name].text {
          owner := owner - {item.text};
          Free(item.text);
        }
        aliasdone := [name] + aliasdone;
      }
      stack := stack[..|stack| - 1];
    }

    /** `endaliasuse` */
    method EndAliasUse()
      requires Good(Now())
      modifies this
      ensures Now() == EndUse(old(Now())) && Good(Now())
    {
      hide Good;
      while aliasdone != []
        invariant Good(Now()) && EndUse(Now()) == EndUse(old(Now()))
        decreases |aliasdone|
      {
        ReleaseGood(Now());
        ghost var was := Now();
        var name := aliasdone[0];
        aliasdone := aliasdone[1..];
        var dead := aliases[name].dead;
        GoodAlias(was, name);
        aliases := aliases[name := aliases[name].(inUse := false)];
        if dead {
          owner := owner - {aliases[name].text};
          Free(aliases[name].text);
          aliases := aliases - {name};
        }
        assert Now() == Release(was);
      }
    }
  }
}
