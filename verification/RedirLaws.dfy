/** What single redirections do to the descriptors, in front of which commands, and for how long (section 2.7 of POSIX.1-2017 XCU). */
module RedirLaws {
  import opened Chars
  import opened Redir

  predicate Set(t: Table, f: int, d: Desc) { f in t && t[f] == d }

  /** The tables differ at most at `f`. */
  predicate Beside(a: Table, b: Table, f: int) { a - {f} == b - {f} }

  /** `exec`, as far as it did not fail. */
  function Behind(list: seq<Redirection>, fds: Table): Table {
    Meaning(Exec(list, false), fds).fds
  }

  function ToFile(fd: int, d: Desc): Redirection { Redirection(fd, File(Opens(d)), false) }

  function Copy(fd: int, other: int): Redirection { Redirection(fd, Descriptor(other), false) }

  lemma OneOnly(r: Redirection, fds: Table)
    ensures Effect([r], fds, {}, true) == One(r, fds, {}, true)
    ensures Behind([r], fds) == One(r, fds, {}, true).fds
  {
    var e := One(r, fds, {}, true);
    assert [r][1..] == [];
    assert e.ok ==> Effect([], e.fds, e.noted, true) == e;
  }

  lemma TwoOnly(r: Redirection, s: Redirection, fds: Table)
    ensures var e := One(r, fds, {}, true);
            Behind([r, s], fds) == if e.ok then One(s, e.fds, e.noted, true).fds else e.fds
  {
    var e := One(r, fds, {}, true);
    assert [r, s][1..] == [s] && [s][1..] == [];
    if e.ok {
      var e' := One(s, e.fds, e.noted, true);
      assert Effect([s], e.fds, e.noted, true) == e';
    }
  }

  /** `fd>file`: this descriptor is the file that was opened, and no other changes. */
  lemma FileOpens(fd: int, d: Desc, fds: Table)
    ensures var t := Behind([ToFile(fd, d)], fds); Set(t, fd, d) && Beside(t, fds, fd)
  {
    OneOnly(ToFile(fd, d), fds);
  }

  /** `fd<<end`: this descriptor is the end of the pipe to read from. */
  lemma HereOpens(fd: int, reader: Desc, writer: Desc, fds: Table)
    ensures var t := Behind([Redirection(fd, Here(reader, writer, false), false)], fds);
            Set(t, fd, reader) && Beside(t, fds, fd)
  {
    OneOnly(Redirection(fd, Here(reader, writer, false), false), fds);
  }

  /** `fd>&other`: both show the same; one that is not open cannot be copied. */
  lemma CopyOpens(fd: int, other: int, fds: Table)
    requires other >= 0
    ensures var t := Behind([Copy(fd, other)], fds);
            && Beside(t, fds, fd)
            && (other in fds ==> Set(t, fd, fds[other]) && Set(t, other, fds[other]))
            && (other !in fds ==> t == fds)
  {
    OneOnly(Copy(fd, other), fds);
  }

  /** `fd>&-` closes it. */
  lemma CloseCloses(fd: int, fds: Table)
    ensures var t := Behind([Copy(fd, -1)], fds); fd !in t && Beside(t, fds, fd)
  {
    OneOnly(Copy(fd, -1), fds);
  }

  /** Redirections are made from left to right: `>file 2>&1` and `2>&1 >file`. */
  lemma LeftToRight(a: int, b: int, d: Desc, fds: Table)
    requires a != b && a >= 0 && b >= 0 && a in fds
    ensures Behind([ToFile(a, d), Copy(b, a)], fds) == fds[a := d][b := d]
    ensures Behind([Copy(b, a), ToFile(a, d)], fds) == fds[a := d][b := fds[a]]
  {
    TwoOnly(ToFile(a, d), Copy(b, a), fds);
    TwoOnly(Copy(b, a), ToFile(a, d), fds);
  }

  /** When there is nothing to open, nothing changes: no file, one that `set -C` protects, no pipe, no place to save to. */
  predicate CannotOpen(r: Redirection, fds: Table) {
    || (r.source.File? && (r.source.open.Fails? || r.source.open.Refused?))
    || (r.source.Here? && r.source.pipeFails)
    || (r.source.Descriptor? && r.source.from >= 0 && r.source.from !in fds)
    || (r.saveFails && r.fd in fds)
  }

  /** Then the command is not run; the error is one of the shell's only if the builtin is special. */
  lemma FailureSkips(r: Redirection, body: Node, special: bool, fails: bool, catches: bool, fds: Table)
    requires CannotOpen(r, fds)
    ensures Meaning(Exec([r], false), fds) == Meant(fds, false)
    ensures Meaning(Redirected([r], body), fds) == Meant(fds, false)
    ensures Meaning(Builtin([r], body, special, fails, catches), fds) == Meant(fds, special)
    ensures Meaning(Exec([r], special), fds) == Meant(fds, special)
  {
    OneOnly(r, fds);
    var e := One(r, fds, {}, true);
    assert !e.ok && e.fds == fds;
    RestoreAll(e.fds, fds, e.noted);
  }

  /** The error of a builtin itself is raised unless it is caught there. */
  lemma BuiltinRaises(special: bool, fails: bool, catches: bool, fds: Table)
    ensures Meaning(Builtin([], Quiet, special, fails, catches), fds) == Meant(fds, fails && !catches)
    ensures Meaning(Builtin([], Raise, special, fails, catches), fds) == Meant(fds, !catches)
  {
    RestoreAll(fds, fds, {});
  }

  /** A command sees its redirections, and only those are taken back: `{ exec b>&a; } a>file` leaves b at the file. */
  lemma BodySees(a: int, b: int, d: Desc, fds: Table)
    requires a != b && a >= 0 && b >= 0
    ensures Meaning(Redirected([ToFile(a, d)], Exec([Copy(b, a)], false)), fds) == Meant(fds[b := d], false)
    ensures Meaning(Builtin([ToFile(a, d)], Exec([Copy(b, a)], false), false, false, false), fds) == Meant(fds[b := d], false)
  {
    OneOnly(ToFile(a, d), fds);
    var e := One(ToFile(a, d), fds, {}, true);
    assert e == Outcome(fds[a := d], {a}, true);
    OneOnly(Copy(b, a), e.fds);
    var t := fds[a := d][b := d];
    assert Meaning(Exec([Copy(b, a)], false), e.fds) == Meant(t, false);
    forall f
      ensures Value(Restore(t, fds, {a}), f) == Value(fds[b := d], f)
    {
    }
    SameTable(Restore(t, fds, {a}), fds[b := d]);
  }

  /** `exec` inside a redirection of the same descriptor is undone with it. */
  lemma InnerExecUndone(a: int, d: Desc, e: Desc, fds: Table)
    ensures Meaning(Redirected([ToFile(a, d)], Exec([ToFile(a, e)], false)), fds) == Meant(fds, false)
  {
    OneOnly(ToFile(a, d), fds);
    OneOnly(ToFile(a, e), fds[a := d]);
    var t := Meaning(Exec([ToFile(a, e)], false), fds[a := d]).fds;
    forall f
      ensures Value(Restore(t, fds, {a}), f) == Value(fds, f)
    {
    }
    SameTable(Restore(t, fds, {a}), fds);
  }

  /** An error leaves out what follows. */
  lemma RaiseSkips(n: Node, a: int, d: Desc, fds: Table)
    ensures Meaning(Seq(Raise, n), fds) == Meant(fds, true)
    ensures Meaning(Seq(Exec([ToFile(a, d)], false), Raise), fds) == Meant(fds[a := d], true)
  {
    OneOnly(ToFile(a, d), fds);
  }
}
