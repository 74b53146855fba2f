/** Redirections and their undoing (src/redir.c), and how commands use them (src/eval.c). */
module Redir {
  import opened Chars

  const EMPTY := -2
  const CLOSED := -1

  /** An open file description. */
  type Desc = nat

  /** A descriptor table: which description each descriptor shows. */
  type Table = map<int, Desc>

  function Value(fds: Table, f: int): Option<Desc> {
    if f in fds then Some(fds[f]) else None
  }

  /** The descriptors that redirections can name. */
  function Low(fds: Table): Table {
    map f | f in fds && 0 <= f < 10 :: fds[f]
  }

  // ---------- What redirections mean ----------

  /** What opening the file of a redirection does; `Refused` is an existing file under `set -C`. */
  datatype Opening = Fails | Refused(desc: Desc) | Opens(desc: Desc)

  datatype Source =
    | File(open: Opening)
    | Here(reader: Desc, writer: Desc, pipeFails: bool)
    | Descriptor(from: int)

  /** `saveFails`: no descriptor is left to save the old one in. */
  datatype Redirection = Redirection(fd: int, source: Source, saveFails: bool)

  predicate Legal(r: Redirection) {
    0 <= r.fd < 10 && (r.source.Descriptor? ==> -1 <= r.source.from < 10)
  }

  /** The table after one redirection; None when it fails. */
  function Installed(r: Redirection, fds: Table): Option<Table> {
    match r.source
    case File(open) => if open.Opens? then Some(fds[r.fd := open.desc]) else None
    case Here(reader, writer, pipeFails) => if pipeFails then None else Some(fds[r.fd := reader])
    case Descriptor(from) =>
      if from < 0 then Some(fds - {r.fd}) else if from in fds then Some(fds[r.fd := fds[from]]) else None
  }

  /** The table, the descriptors saved, and whether all went well. */
  datatype Outcome = Outcome(fds: Table, noted: set<int>, ok: bool)

  /** One redirection, with its descriptor saved first when `push`. */
  function One(r: Redirection, fds: Table, noted: set<int>, push: bool): Outcome {
    if push && r.fd !in noted && r.fd in fds && r.saveFails then Outcome(fds, noted, false)
    else
      var noted' := if push then noted + {r.fd} else noted;
      match Installed(r, fds)
      case None => Outcome(fds, noted', false)
      case Some(fds') => Outcome(fds', noted', true)
  }

  /** A list of redirections, up to the first that fails. */
  function Effect(list: seq<Redirection>, fds: Table, noted: set<int>, push: bool): Outcome {
    if list == [] then Outcome(fds, noted, true)
    else
      var e := One(list[0], fds, noted, push);
      if e.ok then Effect(list[1..], e.fds, e.noted, push) else e
  }

  /** `now`, with the descriptors in `noted` as they were `before`. */
  function Restore(now: Table, before: Table, noted: set<int>): Table {
    map f | f in now.Keys + before.Keys && f in (if f in noted then before else now) ::
      if f in noted then before[f] else now[f]
  }

  /**
   * Commands, as far as descriptors go. A builtin such as `eval` runs a body, and may then raise an error of its
   * own (`fails`). Errors may be caught at the builtin (`catches`), but `special` ones raise those of their
   * redirections in any case.
   */
  datatype Node =
    | Quiet
    | Raise
    | Seq(first: Node, second: Node)
    | Redirected(list: seq<Redirection>, body: Node)
    | Builtin(list: seq<Redirection>, body: Node, special: bool, fails: bool, catches: bool)
    | Exec(list: seq<Redirection>, special: bool)

  predicate LegalNode(n: Node) {
    match n
    case Quiet => true
    case Raise => true
    case Seq(a, b) => LegalNode(a) && LegalNode(b)
    case Redirected(list, body) => LegalList(list) && LegalNode(body)
    case Builtin(list, body, special, fails, catches) => LegalList(list) && LegalNode(body)
    case Exec(list, special) => LegalList(list)
  }

  predicate LegalList(list: seq<Redirection>) {
    forall k :: 0 <= k < |list| ==> Legal(list[k])
  }

  /** The descriptors after a command, once whatever it left behind is undone, and whether it raised an error. */
  datatype Meant = Meant(fds: Table, raised: bool)

  /** Redirections as scopes: what a command saw before is back behind it, except for `exec`. */
  function Meaning(n: Node, fds: Table): Meant {
    match n
    case Quiet => Meant(fds, false)
    case Raise => Meant(fds, true)
    case Seq(a, b) => var m := Meaning(a, fds); if m.raised then m else Meaning(b, m.fds)
    case Redirected(list, body) =>
      var e := Effect(list, fds, {}, true);
      var m := if e.ok then Meaning(body, e.fds) else Meant(e.fds, false);
      Meant(Restore(m.fds, fds, e.noted), m.raised)
    case Builtin(list, body, special, fails, catches) =>
      var e := Effect(list, fds, {}, true);
      var m := if e.ok then Meaning(body, e.fds) else Meant(e.fds, special);
      Meant(Restore(m.fds, fds, e.noted), if e.ok then (m.raised || fails) && !catches else special)
    case Exec(list, special) =>
      var e := Effect(list, fds, {}, true);
      if !e.ok && special then Meant(Restore(e.fds, fds, e.noted), true) else Meant(e.fds, false)
  }

  predicate NoExec(n: Node) {
    match n
    case Quiet => true
    case Raise => true
    case Seq(a, b) => NoExec(a) && NoExec(b)
    case Redirected(list, body) => NoExec(body)
    case Builtin(list, body, special, fails, catches) => NoExec(body)
    case Exec(list, special) => false
  }

  /** A list only touches descriptors that it has saved. */
  lemma {:induction false} EffectNoted(list: seq<Redirection>, fds: Table, noted: set<int>)
    ensures var e := Effect(list, fds, noted, true);
            noted <= e.noted && forall f :: f !in e.noted ==> Value(e.fds, f) == Value(fds, f)
    decreases |list|
  {
    if list != [] && Installed(list[0], fds).Some? {
      EffectNoted(list[1..], Installed(list[0], fds).value, noted + {list[0].fd});
    }
  }

  lemma SameTable(a: Table, b: Table)
    requires forall f :: Value(a, f) == Value(b, f)
    ensures a == b
  {
    forall f
      ensures f in a <==> f in b
      ensures f in a && f in b ==> a[f] == b[f]
    {
      assert Value(a, f) == Value(b, f);
    }
  }

  lemma RestoreAll(now: Table, before: Table, noted: set<int>)
    requires forall f :: f !in noted ==> Value(now, f) == Value(before, f)
    ensures Restore(now, before, noted) == before
  {
    forall f
      ensures Value(Restore(now, before, noted), f) == Value(before, f)
    {
    }
    SameTable(Restore(now, before, noted), before);
  }

  /** Without `exec`, a command leaves every descriptor as it was, however it ends. */
  lemma {:induction false} Restores(n: Node, fds: Table)
    requires NoExec(n)
    ensures Meaning(n, fds).fds == fds
    decreases n
  {
    match n
    case Quiet =>
    case Raise =>
    case Seq(a, b) =>
      Restores(a, fds);
      Restores(b, fds);
    case Redirected(list, body) =>
      var e := Effect(list, fds, {}, true);
      EffectNoted(list, fds, {});
      Restores(body, e.fds);
      RestoreAll(e.fds, fds, e.noted);
    case Builtin(list, body, special, fails, catches) =>
      var e := Effect(list, fds, {}, true);
      EffectNoted(list, fds, {});
      Restores(body, e.fds);
      RestoreAll(e.fds, fds, e.noted);
  }

  // ---------- Saved descriptors ----------

  const NO_SAVES: seq<int> := [EMPTY, EMPTY, EMPTY, EMPTY, EMPTY, EMPTY, EMPTY, EMPTY, EMPTY, EMPTY]

  /** `struct redirtab`: for each descriptor, where its old value is. */
  type Frame = f: seq<int> | |f| == 10 witness NO_SAVES

  /** Where the value that descriptor `i` has after undoing all frames from `d` on is now. */
  function Where(frames: seq<Frame>, d: nat, i: int): int
    requires 0 <= i < 10
    decreases |frames| - d
  {
    if d >= |frames| then i else if frames[d][i] != EMPTY then frames[d][i] else Where(frames, d + 1, i)
  }

  function Noted(frame: Frame): set<int> {
    set i | 0 <= i < 10 && frame[i] != EMPTY
  }

  predicate Slot(frames: seq<Frame>, k: int, i: int) {
    0 <= k < |frames| && 0 <= i < 10
  }

  /** `owner` tells for each descriptor that holds a saved value which slot it belongs to. */
  type Owner = map<int, (int, int)>

  ghost predicate Fits(fds: Table, frames: seq<Frame>, owner: Owner) {
    && (forall f :: f in fds ==> f >= 0)
    && (forall k, i :: Slot(frames, k, i) ==>
          frames[k][i] == EMPTY || frames[k][i] == CLOSED || (frames[k][i] in owner && owner[frames[k][i]] == (k, i)))
    && (forall f :: f in owner ==>
          f >= 10 && f in fds && Slot(frames, owner[f].0, owner[f].1) && frames[owner[f].0][owner[f].1] == f)
  }

  /** Descriptors from 10 on that save nothing. */
  function Extra(fds: Table, owner: Owner): Table {
    map f | f in fds && f >= 10 && f !in owner :: fds[f]
  }

  lemma {:induction false} WherePush(frames: seq<Frame>, d: nat, i: int)
    requires d <= |frames| && 0 <= i < 10
    ensures Where(frames + [NO_SAVES], d, i) == Where(frames, d, i)
    decreases |frames| - d
  {
    if d < |frames| {
      WherePush(frames, d + 1, i);
    }
  }

  /** What the last frame adds. */
  lemma {:induction false} WherePop(frames: seq<Frame>, d: nat, i: int)
    requires d < |frames| && 0 <= i < 10
    requires forall k :: d <= k < |frames| ==> frames[k][i] != i
    ensures var below := Where(frames[..|frames| - 1], d, i);
            var last := frames[|frames| - 1][i];
            Where(frames, d, i) == if below != i || last == EMPTY then below else last
    decreases |frames| - d
  {
    var shorter := frames[..|frames| - 1];
    if d < |shorter| {
      if frames[d][i] == EMPTY {
        WherePop(frames, d + 1, i);
      }
    }
  }

  /** Noting a descriptor in the last frame. */
  lemma {:induction false} WhereSave(frames: seq<Frame>, d: nat, i: int, fd: int, r: int)
    requires d < |frames| && 0 <= i < 10 && 0 <= fd < 10 && r != EMPTY
    requires frames[|frames| - 1][fd] == EMPTY
    requires forall k :: d <= k < |frames| ==> frames[k][i] != i
    ensures var frames' := frames[|frames| - 1 := frames[|frames| - 1][fd := r]];
            Where(frames', d, i) == if i == fd && Where(frames, d, i) == i then r else Where(frames, d, i)
    decreases |frames| - d
  {
    var frames' := frames[|frames| - 1 := frames[|frames| - 1][fd := r]];
    if d < |frames| - 1 {
      if frames[d][i] == EMPTY {
        WhereSave(frames, d + 1, i, fd, r);
      }
    } else {
      assert Where(frames, d + 1, i) == i && Where(frames', d + 1, i) == i;
    }
  }
}
