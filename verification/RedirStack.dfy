/** The descriptor table of the shell and its stack of redirections (src/redir.c), changed step by step. */
module RedirStack {
  import opened Chars
  import opened Redir

  function LowestFree(used: set<int>, from: int): (f: int)
    ensures f >= from && f !in used && forall g :: from <= g < f ==> g in used
    decreases |used|
  {
    if from !in used then from
    else
      var rest := used - {from};
      var f := LowestFree(rest, from + 1);
      assert forall g :: g in rest ==> g in used;
      assert forall g :: from + 1 <= g < f ==> g in rest;
      f
  }

  lemma LowInstalled(r: Redirection, fds: Table)
    requires Legal(r)
    ensures Installed(r, Low(fds)) == (if Installed(r, fds).Some? then Some(Low(Installed(r, fds).value)) else None)
  {
    if Installed(r, fds).Some? {
      SameTable(Installed(r, Low(fds)).value, Low(Installed(r, fds).value));
    }
  }

  /** Values that must not move: those that the frames up to `depth` have saved. */
  ghost predicate Keeps(frames: seq<Frame>, depth: nat, before: Table, after: Table) {
    forall k, i :: Slot(frames, k, i) && k < depth ==> Value(after, frames[k][i]) == Value(before, frames[k][i])
  }

  datatype State = State(fds: Table, frames: seq<Frame>, owner: Owner)

  ghost predicate Good(a: State) {
    Fits(a.fds, a.frames, a.owner)
  }

  /** Descriptor `i` once the frames from `d` on are undone. */
  function Undone(a: State, d: nat, i: int): Option<Desc>
    requires 0 <= i < 10
  {
    Value(a.fds, Where(a.frames, d, i))
  }

  /**
   * What redirecting keeps: nothing is leaked, the other frames and what they have saved stay as they are, and,
   * when the old descriptors are saved in the last frame, undoing any number of frames gives what it gave before.
   */
  ghost predicate Steady(a: State, b: State, push: bool) {
    && Good(b) && Extra(b.fds, b.owner) == Extra(a.fds, a.owner) && |b.frames| == |a.frames|
    && (push ==> a.frames != [] && b.frames[..|a.frames| - 1] == a.frames[..|a.frames| - 1])
    && (!push ==> b.frames == a.frames)
    && Keeps(a.frames, if push then |a.frames| - 1 else |a.frames|, a.fds, b.fds)
    && (push ==> forall d, i :: 0 <= d < |a.frames| && 0 <= i < 10 ==> Undone(b, d, i) == Undone(a, d, i))
  }

  lemma SteadyTrans(a: State, b: State, c: State, push: bool)
    requires Steady(a, b, push) && Steady(b, c, push)
    ensures Steady(a, c, push)
  {
    hide Fits, Extra, Where;
    var depth := if push then |a.frames| - 1 else |a.frames|;
    forall k, i | Slot(a.frames, k, i) && k < depth
      ensures Value(c.fds, a.frames[k][i]) == Value(a.fds, a.frames[k][i])
    {
      assert a.frames[k] == b.frames[k] by {
        assert push ==> a.frames[..depth][k] == b.frames[..depth][k];
      }
      assert Slot(b.frames, k, i);
    }
  }

  /** The descriptors that the last frame has noted. */
  function LastNoted(a: State, push: bool): set<int>
    requires push ==> a.frames != []
  {
    if push then Noted(a.frames[|a.frames| - 1]) else {}
  }

  lemma NoteSteady(a: State, fd: int, noRoom: bool, r: int, b: State)
    requires Good(a) && 0 <= fd < 10 && a.frames != [] && a.frames[|a.frames| - 1][fd] == EMPTY
    requires if fd in a.fds then r >= 10 && r !in a.fds && b.fds == a.fds[r := a.fds[fd]] else r == CLOSED && b.fds == a.fds
    requires var top := |a.frames| - 1;
             && b.frames == a.frames[top := a.frames[top][fd := r]]
             && b.owner == if r == CLOSED then a.owner else a.owner[r := (top, fd)]
    ensures Steady(a, b, true) && Low(b.fds) == Low(a.fds) && LastNoted(b, true) == LastNoted(a, true) + {fd}
  {
    forall d, i | 0 <= d < |a.frames| && 0 <= i < 10
      ensures Undone(b, d, i) == Undone(a, d, i)
    {
      WhereSave(a.frames, d, i, fd, r);
      WhereBound(a.fds, a.frames, a.owner, d, i);
    }
  }

  lemma InstallSteady(a: State, r: Redirection, push: bool, b: State)
    requires Good(a) && Legal(r) && (push ==> a.frames != [] && r.fd in LastNoted(a, push))
    requires b == a.(fds := if Installed(r, a.fds).Some? then Installed(r, a.fds).value else a.fds)
    ensures Steady(a, b, push)
  {
    assert forall f :: f != r.fd ==> Value(b.fds, f) == Value(a.fds, f);
    assert Keeps(a.frames, |a.frames|, a.fds, b.fds);
    assert Extra(b.fds, b.owner) == Extra(a.fds, a.owner);
    if push {
      forall d, i | 0 <= d < |a.frames| && 0 <= i < 10
        ensures Undone(b, d, i) == Undone(a, d, i)
      {
        WhereBound(a.fds, a.frames, a.owner, d, i);
        WhereNoted(a.fds, a.frames, a.owner, d, r.fd);
      }
    }
  }

  /** The table when the first `n` slots of a frame are put back, or only given up when `drop`. */
  function PutBack(fds: Table, frame: Frame, n: nat, drop: bool): Table
    requires n <= 10
  {
    if n == 0 then fds
    else
      var i, r, done := n - 1, frame[n - 1], PutBack(fds, frame, n - 1, drop);
      if r == EMPTY then done
      else if r == CLOSED then (if drop then done else done - {i})
      else (if !drop && r in done then done[i := done[r]] else done) - {r}
  }

  /** What putting back does to each descriptor. */
  lemma {:induction false} PutBackValue(fds: Table, frame: Frame, n: nat, drop: bool, f: int)
    requires n <= 10
    requires forall i :: 0 <= i < 10 ==> frame[i] == EMPTY || frame[i] == CLOSED || (frame[i] >= 10 && frame[i] in fds)
    requires forall i, j :: 0 <= i < j < 10 && frame[i] >= 10 ==> frame[i] != frame[j]
    requires CLOSED !in fds
    ensures Value(PutBack(fds, frame, n, drop), f) ==
              if 0 <= f < n && !drop && frame[f] != EMPTY then Value(fds, frame[f])
              else if f >= 10 && f in frame[..n] then None
              else Value(fds, f)
  {
    if n > 0 {
      PutBackValue(fds, frame, n - 1, drop, f);
      PutBackValue(fds, frame, n - 1, drop, frame[n - 1]);
      assert frame[..n] == frame[..n - 1] + [frame[n - 1]];
    }
  }

  /** What undoing the frames from `stop` on does, or giving up what they have saved when `drop`. */
  ghost predicate Unwound(a: State, b: State, stop: nat, drop: bool) {
    && Good(b) && Extra(b.fds, b.owner) == Extra(a.fds, a.owner)
    && stop <= |a.frames| && b.frames == a.frames[..stop]
    && Keeps(b.frames, stop, a.fds, b.fds)
    && (!drop ==> forall d, i :: 0 <= d <= stop && 0 <= i < 10 ==> Undone(b, d, i) == Undone(a, d, i))
    && (drop ==> Low(b.fds) == Low(a.fds))
  }

  lemma UnwoundTrans(a: State, b: State, c: State, stop: nat, stop': nat, drop: bool)
    requires Unwound(a, b, stop, drop) && Unwound(b, c, stop', drop)
    ensures Unwound(a, c, stop', drop)
  {
    hide Fits, Where, Extra, Low;
    forall k, i | Slot(c.frames, k, i)
      ensures Value(c.fds, c.frames[k][i]) == Value(a.fds, c.frames[k][i])
    {
      assert b.frames[k] == c.frames[k] && Slot(b.frames, k, i);
    }
  }

  function Without(owner: Owner, top: int): Owner {
    map f | f in owner && owner[f].0 != top :: owner[f]
  }

  lemma FrameFits(a: State, k: nat)
    requires Good(a) && k < |a.frames|
    ensures forall i :: 0 <= i < 10 ==>
              var r := a.frames[k][i]; r == EMPTY || r == CLOSED || (r >= 10 && r in a.fds && a.owner[r] == (k, i))
    ensures forall i, j :: 0 <= i < j < 10 && a.frames[k][i] >= 10 ==> a.frames[k][i] != a.frames[k][j]
    ensures CLOSED !in a.fds
    ensures forall f :: f >= 10 && f in a.frames[k] <==> f in a.owner && a.owner[f].0 == k
  {
    assert forall i :: 0 <= i < 10 ==> Slot(a.frames, k, i);
  }

  lemma PopPopped(a: State, drop: bool, b: State)
    requires Good(a) && a.frames != []
    requires var top := |a.frames| - 1;
             b == State(PutBack(a.fds, a.frames[top], 10, drop), a.frames[..top], Without(a.owner, top))
    ensures Unwound(a, b, |a.frames| - 1, drop)
  {
    var top := |a.frames| - 1;
    var frame := a.frames[top];
    FrameFits(a, top);
    forall f
      ensures Value(b.fds, f) == if 0 <= f < 10 && !drop && frame[f] != EMPTY then Value(a.fds, frame[f])
                                 else if f >= 10 && f in frame then None else Value(a.fds, f)
    {
      PutBackValue(a.fds, frame, 10, drop, f);
      assert frame[..10] == frame;
    }
    assert PutBackAll(a, drop, b);
    PopFits(a, drop, b);
    PopExtra(a, drop, b);
    if !drop {
      forall d, i | 0 <= d < |a.frames| && 0 <= i < 10
        ensures Undone(b, d, i) == Undone(a, d, i)
      {
        PopUndone(a, b, d, i);
      }
    }
  }

  /** The values after popping, as `PopPopped` finds them. */
  ghost predicate PutBackAll(a: State, drop: bool, b: State)
    requires a.frames != []
  {
    var frame := a.frames[|a.frames| - 1];
    forall f ::
      Value(b.fds, f) == if 0 <= f < 10 && !drop && frame[f] != EMPTY then Value(a.fds, frame[f])
                         else if f >= 10 && f in frame then None else Value(a.fds, f)
  }

  lemma PopFits(a: State, drop: bool, b: State)
    requires Good(a) && a.frames != [] && PutBackAll(a, drop, b)
    requires var top := |a.frames| - 1; b.frames == a.frames[..top] && b.owner == Without(a.owner, top)
    ensures Good(b) && Keeps(b.frames, |b.frames|, a.fds, b.fds)
  {
    hide PutBack, Where;
    var top := |a.frames| - 1;
    FrameFits(a, top);
    forall k, i | Slot(b.frames, k, i)
      ensures Value(b.fds, b.frames[k][i]) == Value(a.fds, b.frames[k][i])
      ensures b.frames[k][i] >= 0 ==> b.frames[k][i] in b.owner
    {
      FrameFits(a, k);
      assert Slot(a.frames, k, i);
    }
    forall f
      ensures f in b.fds ==> f >= 0
      ensures f in b.owner ==> Value(b.fds, f) == Value(a.fds, f)
    {
      assert Value(b.fds, f).Some? ==> f >= 0;
    }
  }

  lemma PopExtra(a: State, drop: bool, b: State)
    requires Good(a) && a.frames != [] && PutBackAll(a, drop, b) && b.owner == Without(a.owner, |a.frames| - 1)
    ensures Extra(b.fds, b.owner) == Extra(a.fds, a.owner)
    ensures drop ==> Low(b.fds) == Low(a.fds)
  {
    hide PutBack, Where;
    FrameFits(a, |a.frames| - 1);
    forall f
      ensures Value(Extra(b.fds, b.owner), f) == Value(Extra(a.fds, a.owner), f)
      ensures drop ==> Value(Low(b.fds), f) == Value(Low(a.fds), f)
    {
      assert Value(b.fds, f).Some? <==> f in b.fds;
    }
    SameTable(Extra(b.fds, b.owner), Extra(a.fds, a.owner));
    if drop {
      SameTable(Low(b.fds), Low(a.fds));
    }
  }

  lemma PopUndone(a: State, b: State, d: nat, i: int)
    requires Good(a) && d < |a.frames| && 0 <= i < 10 && PutBackAll(a, false, b)
    requires b.frames == a.frames[..|a.frames| - 1]
    ensures Undone(b, d, i) == Undone(a, d, i)
  {
    var top := |a.frames| - 1;
    FrameFits(a, top);
    forall k | 0 <= k < |a.frames|
      ensures a.frames[k][i] != i
    {
      FrameFits(a, k);
    }
    WherePop(a.frames, d, i);
    WhereBelow(a, d, i);
  }

  /** What the frames below the last one have saved is not in the last one. */
  lemma WhereBelow(a: State, d: nat, i: int)
    requires Good(a) && d < |a.frames| && 0 <= i < 10
    ensures var below := Where(a.frames[..|a.frames| - 1], d, i);
            below == i || below == CLOSED || (below >= 10 && below !in a.frames[|a.frames| - 1])
  {
    var below := Where(a.frames[..|a.frames| - 1], d, i);
    if below != i {
      var k := Below(a, d, i);
      FrameFits(a, k);
      FrameFits(a, |a.frames| - 1);
    }
  }

  lemma {:induction false} Below(a: State, d: nat, i: int) returns (k: nat)
    requires d < |a.frames| && 0 <= i < 10
    requires Where(a.frames[..|a.frames| - 1], d, i) != i
    ensures k < |a.frames| - 1 && Where(a.frames[..|a.frames| - 1], d, i) == a.frames[k][i] && a.frames[k][i] != EMPTY
    decreases |a.frames| - d
  {
    k := d;
    if a.frames[d][i] == EMPTY {
      k := Below(a, d + 1, i);
    }
  }

  class Shell {
    var fds: Table
    var redirlist: seq<Frame>
    ghost var owner: Owner

    constructor ()
      ensures Valid() && fds == map[] && redirlist == []
    {
      fds, redirlist, owner := map[], [], map[];
    }

    ghost predicate Valid()
      reads this
    {
      Fits(fds, redirlist, owner)
    }

    ghost function Now(): State
      reads this
    {
      State(fds, redirlist, owner)
    }

    method OpenNew(desc: Desc) returns (f: int)
      requires Valid()
      modifies `fds
      ensures f !in old(fds) && f >= 0 && fds == old(fds)[f := desc]
      ensures forall g :: 0 <= g < f ==> g in old(fds)
    {
      f := LowestFree(fds.Keys, 0);
      fds := fds[f := desc];
    }

    /** `savefd(from, -1)`: a copy of a descriptor from 10 on; -1 when it is not open, None when there is no room. */
    method SaveFd(from: int, noRoom: bool) returns (r: Option<int>)
      requires Valid()
      modifies `fds
      ensures from !in old(fds) ==> r == Some(CLOSED) && fds == old(fds)
      ensures from in old(fds) && noRoom ==> r == None && fds == old(fds)
      ensures from in old(fds) && !noRoom ==> r.Some? && r.value >= 10 && r.value !in old(fds)
      ensures from in old(fds) && !noRoom ==> fds == old(fds)[r.value := old(fds)[from]]
    {
      if from !in fds {
        return Some(CLOSED);
      }
      if noRoom {
        return None;
      }
      var f := LowestFree(fds.Keys, 10);
      fds := fds[f := fds[from]];
      r := Some(f);
    }

    /** `openredirect`: the descriptor to take from; None is an error. */
    method OpenRedirect(r: Redirection) returns (f: Option<int>)
      requires Valid() && Legal(r)
      modifies `fds
      ensures f.None? ==> fds == old(fds) && Installed(r, old(fds)) == None
      ensures f.Some? && r.source.Descriptor? ==>
                fds == old(fds) && f.value == r.source.from && (f.value < 0 || f.value in fds)
      ensures f.Some? && !r.source.Descriptor? ==>
                && f.value !in old(fds) && f.value >= 0 && f.value in fds
                && Installed(r, old(fds)).Some? && Installed(r, old(fds)).value == old(fds)[r.fd := fds[f.value]]
                && fds == old(fds)[f.value := fds[f.value]]
    {
      match r.source {
        case File(open) =>
          if open.Fails? {
            return None;
          }
          var n := OpenNew(open.desc);
          if open.Refused? {
            fds := fds - {n};
            assert fds == old(fds);
            return None;
          }
          f := Some(n);
        case Here(reader, writer, pipeFails) =>
          if pipeFails {
            return None;
          }
          var n := OpenNew(reader);
          var w := OpenNew(writer);
          fds := fds - {w};
          assert fds == old(fds)[n := reader];
          f := Some(n);
        case Descriptor(from) =>
          if from >= 0 && from !in fds {
            return None;
          }
          f := Some(from);
      }
    }

    /** `dupredirect`, when the descriptor is not there already. */
    method DupRedirect(r: Redirection, f: int)
      requires Valid() && Legal(r) && f != r.fd && (f in fds || (r.source.Descriptor? && f < 0))
      modifies `fds
      ensures fds == if r.source.Descriptor? then (if f < 0 then old(fds) - {r.fd} else old(fds)[r.fd := old(fds)[f]])
                     else old(fds)[r.fd := old(fds)[f]] - {f}
    {
      var f := f;
      if r.source.Descriptor? {
        if f >= 0 {
          fds := fds[r.fd := fds[f]];
          return;
        }
        f := r.fd;
      } else {
        fds := fds[r.fd := fds[f]];
      }
      fds := fds - {f};
    }

    /** One turn of the loop of `redirect`, behind the saving. */
    method Install(r: Redirection) returns (ok: bool)
      requires Valid() && Legal(r)
      modifies `fds
      ensures ok == Installed(r, old(fds)).Some?
      ensures fds == if ok then Installed(r, old(fds)).value else old(fds)
    {
      var f := OpenRedirect(r);
      if f.None? {
        return false;
      }
      if f.value != r.fd {
        ghost var taken := fds;
        DupRedirect(r, f.value);
      } else if r.source.Descriptor? {
        assert fds == old(fds)[r.fd := old(fds)[r.fd]];
      }
      ok := true;
    }

    /** `*p = savefd(fd, -1)` for an empty slot of the last frame. */
    method Note(fd: int, noRoom: bool) returns (ok: bool)
      requires Valid() && 0 <= fd < 10 && redirlist != [] && redirlist[|redirlist| - 1][fd] == EMPTY
      modifies this
      ensures ok == !(fd in old(fds) && noRoom)
      ensures !ok ==> Now() == old(Now())
      ensures ok ==> Steady(old(Now()), Now(), true) && Low(fds) == Low(old(fds))
      ensures ok ==> LastNoted(Now(), true) == LastNoted(old(Now()), true) + {fd}
    {
      hide Fits, Steady, LastNoted, Low;
      var r := SaveFd(fd, noRoom);
      if r.None? {
        return false;
      }
      var top := |redirlist| - 1;
      redirlist := redirlist[top := redirlist[top][fd := r.value]];
      if r.value != CLOSED {
        owner := owner[r.value := (top, fd)];
      }
      NoteSteady(old(Now()), fd, noRoom, r.value, Now());
      ok := true;
    }

    /** One turn of the loop of `redirect`. */
    method RedirectOne(r: Redirection, push: bool) returns (ok: bool)
      requires Valid() && Legal(r) && (push ==> redirlist != [])
      modifies this
      ensures Steady(old(Now()), Now(), push)
      ensures Outcome(Low(fds), LastNoted(Now(), push), ok) == One(r, Low(old(fds)), LastNoted(old(Now()), push), push)
    {
      hide Fits, Steady, Installed;
      ghost var a := Now();
      SteadyRefl(a, push);
      if push && redirlist[|redirlist| - 1][r.fd] == EMPTY {
        ok := Note(r.fd, r.saveFails);
        if !ok {
          return;
        }
        SteadyGood(a, Now(), push);
      }
      ghost var b := Now();
      LowInstalled(r, fds);
      ok := Install(r);
      InstallSteady(b, r, push, Now());
      SteadyTrans(a, b, Now(), push);
    }

    /** `redirect`, with or without REDIR_PUSH. */
    method Redirect(list: seq<Redirection>, push: bool) returns (ok: bool)
      requires Valid() && LegalList(list) && (push ==> redirlist != [])
      modifies this
      ensures Steady(old(Now()), Now(), push)
      ensures Outcome(Low(fds), LastNoted(Now(), push), ok) ==
                Effect(list, Low(old(fds)), LastNoted(old(Now()), push), push)
    {
      hide Fits, Steady, One, Low, LastNoted;
      ghost var a, noted := Now(), LastNoted(Now(), push);
      SteadyRefl(a, push);
      var n := 0;
      assert list[0..] == list;
      while n < |list|
        invariant 0 <= n <= |list|
        invariant Steady(a, Now(), push) && (push ==> redirlist != [])
        invariant Effect(list, Low(a.fds), noted, push) == Effect(list[n..], Low(fds), LastNoted(Now(), push), push)
      {
        assert list[n..][0] == list[n] && list[n..][1..] == list[n + 1..];
        ghost var b := Now();
        SteadyGood(a, b, push);
        ok := RedirectOne(list[n], push);
        SteadyTrans(a, b, Now(), push);
        SteadyGood(b, Now(), push);
        if !ok {
          return;
        }
        n := n + 1;
      }
      ok := true;
    }

    /** `pushredir`: the depth to unwind to. */
    method PushRedir(list: seq<Redirection>) returns (stop: nat)
      requires Valid()
      modifies `redirlist
      ensures Valid() && stop == |old(redirlist)|
      ensures redirlist == if list == [] then old(redirlist) else old(redirlist) + [NO_SAVES]
    {
      stop := |redirlist|;
      if list != [] {
        redirlist := redirlist + [NO_SAVES];
      }
    }

    /** `popredir` */
    method PopRedir(drop: bool)
      requires Valid() && redirlist != []
      modifies this
      ensures Unwound(old(Now()), Now(), |old(redirlist)| - 1, drop)
    {
      hide Where, Unwound, Fits, Extra;
      var top := |redirlist| - 1;
      var rp := redirlist[top];
      FrameFits(Now(), top);
      for i := 0 to 10
        invariant fds == PutBack(old(fds), rp, i, drop)
        invariant redirlist == old(redirlist) && owner == old(owner)
      {
        if rp[i] == CLOSED {
          if !drop {
            fds := fds - {i};
          }
        } else if rp[i] != EMPTY {
          if !drop {
            PutBackValue(old(fds), rp, i, drop, rp[i]);
            fds := fds[i := fds[rp[i]]];
          }
          fds := fds - {rp[i]};
        }
      }
      redirlist := redirlist[..top];
      owner := Without(owner, top);
      PopPopped(old(Now()), drop, Now());
    }

    /** `unwindredir` */
    method UnwindRedir(stop: nat, drop: bool)
      requires Valid() && stop <= |redirlist|
      modifies this
      ensures Unwound(old(Now()), Now(), stop, drop)
    {
      hide Where, Unwound, Fits, Extra, Low;
      ghost var a := Now();
      UnwoundRefl(a, drop);
      while |redirlist| != stop
        invariant stop <= |redirlist| && Unwound(a, Now(), |redirlist|, drop)
        decreases |redirlist|
      {
        ghost var b := Now();
        UnwoundGood(a, b, |redirlist|, drop);
        PopRedir(drop);
        UnwoundGood(b, Now(), |b.frames| - 1, drop);
        UnwoundTrans(a, b, Now(), |b.frames|, |redirlist|, drop);
      }
    }
  }

  lemma UnwoundRefl(a: State, drop: bool)
    requires Good(a)
    ensures Unwound(a, a, |a.frames|, drop)
  {
    assert a.frames[..|a.frames|] == a.frames;
  }

  lemma UnwoundGood(a: State, b: State, stop: nat, drop: bool)
    requires Unwound(a, b, stop, drop)
    ensures Good(b) && b.frames == a.frames[..stop]
  {
  }

  lemma SteadyRefl(a: State, push: bool)
    requires Good(a) && (push ==> a.frames != [])
    ensures Steady(a, a, push)
  {
  }

  lemma SteadyGood(a: State, b: State, push: bool)
    requires Steady(a, b, push)
    ensures Good(b) && |b.frames| == |a.frames|
  {
  }

  /** A descriptor that the last frame has noted is not restored from itself. */
  lemma {:induction false} WhereNoted(fds: Table, frames: seq<Frame>, owner: Owner, d: nat, i: int)
    requires Fits(fds, frames, owner) && 0 <= i < 10 && d < |frames| && frames[|frames| - 1][i] != EMPTY
    ensures Where(frames, d, i) != i
    decreases |frames| - d
  {
    assert Slot(frames, d, i);
    if d < |frames| - 1 {
      WhereNoted(fds, frames, owner, d + 1, i);
    }
  }

  /** Where a value can be. */
  lemma {:induction false} WhereBound(fds: Table, frames: seq<Frame>, owner: Owner, d: nat, i: int)
    requires Fits(fds, frames, owner) && 0 <= i < 10
    ensures Where(frames, d, i) == i || Where(frames, d, i) == CLOSED || Where(frames, d, i) in owner
    ensures Where(frames, d, i) in owner ==> d <= owner[Where(frames, d, i)].0 && owner[Where(frames, d, i)].1 == i
    decreases |frames| - d
  {
    if d < |frames| {
      assert Slot(frames, d, i);
      WhereBound(fds, frames, owner, d + 1, i);
    }
  }
}
