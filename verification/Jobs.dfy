/** Jobs, their processes and their states (src/jobs.c). */
module Jobs {
  /** What is known of a process: nothing yet (-1), or how it stopped or ended. */
  datatype Status = Pending | Stopped(signal: int) | Exited(code: int) | Signaled(signal: int)

  datatype Process = Process(pid: int, status: Status)

  datatype JobState = JobRunning | JobStopped | JobDone

  const NULL := -1

  /** `struct job`, but for its link to the next job of the list. */
  datatype Job = Job(ps: seq<Process>, state: JobState, used: bool, waited: bool, changed: bool, pipefail: bool)

  const EMPTY: Job := Job([], JobRunning, false, false, false, false)

  /** A job runs while a process does; else it is stopped while one is; else it is done. */
  function StateOf(ps: seq<Process>): JobState {
    if exists i :: 0 <= i < |ps| && ps[i].status == Pending then JobRunning
    else if exists i :: 0 <= i < |ps| && ps[i].status.Stopped? then JobStopped
    else JobDone
  }

  /** A job that has no process yet counts as running. */
  predicate StateFits(j: Job) {
    j.state == if j.ps == [] then JobRunning else StateOf(j.ps)
  }

  /** One process decides: any that runs, or any that is stopped if none runs. */
  lemma StateIs(a: seq<Process>, p: Process, b: seq<Process>)
    ensures p.status.Pending? ==> StateOf(a + [p] + b) == JobRunning
    ensures p.status.Stopped? ==> StateOf(a + [p] + b) == if StateOf(a + b) == JobRunning then JobRunning else JobStopped
    ensures p.status.Exited? || p.status.Signaled? ==> StateOf(a + [p] + b) == StateOf(a + b)
    ensures StateOf([]) == JobDone
  {
    var ps := a + [p] + b;
    assert ps[|a|] == p;
    assert forall i :: 0 <= i < |a| ==> ps[i] == (a + b)[i] && a[i] == ps[i];
    assert forall i :: |a| <= i < |a| + |b| ==> ps[i + 1] == (a + b)[i];
    assert forall i :: |a| < i < |ps| ==> ps[i] == (a + b)[i - 1];
  }

  // ---------- The list of jobs ----------

  predicate Distinct(list: seq<int>) {
    forall i, k :: 0 <= i < k < |list| ==> list[i] != list[k]
  }

  /** The jobs `list`, from the current one on, are linked to each other. */
  predicate IsList(prev: seq<int>, head: int, list: seq<int>) {
    && Distinct(list) && (forall i :: 0 <= i < |list| ==> 0 <= list[i] < |prev|)
    && head == At0(list, 0)
    && forall i :: 0 <= i < |list| ==> prev[list[i]] == At0(list, i + 1)
  }

  function At0(list: seq<int>, i: nat): int {
    if i < |list| then list[i] else NULL
  }

  function Index(list: seq<int>, jp: int): (k: nat)
    requires jp in list
    ensures k < |list| && list[k] == jp && forall i :: 0 <= i < k ==> list[i] != jp
  {
    if list[0] == jp then 0 else 1 + Index(list[1..], jp)
  }

  function Without(list: seq<int>, k: nat): seq<int>
    requires k < |list|
  {
    list[..k] + list[k + 1..]
  }

  function With(list: seq<int>, m: nat, jp: int): seq<int>
    requires m <= |list|
  {
    list[..m] + [jp] + list[m..]
  }

  /** How many stopped jobs come first. */
  function StoppedFirst(jobs: seq<Job>, list: seq<int>): (m: nat)
    requires forall i :: 0 <= i < |list| ==> 0 <= list[i] < |jobs|
    ensures m <= |list| && (forall i :: 0 <= i < m ==> jobs[list[i]].state.JobStopped?)
    ensures m < |list| ==> !jobs[list[m]].state.JobStopped?
  {
    if list != [] && jobs[list[0]].state.JobStopped? then 1 + StoppedFirst(jobs, list[1..]) else 0
  }

  datatype Mode = CurDelete | CurRunning | CurStopped

  /** `set_curjob`: where a job goes in the list. */
  function Reordered(jobs: seq<Job>, list: seq<int>, jp: int, mode: Mode): seq<int>
    requires jp in list && forall i :: 0 <= i < |list| ==> 0 <= list[i] < |jobs|
  {
    var rest := Without(list, Index(list, jp));
    match mode
    case CurDelete => rest
    case CurRunning => With(rest, StoppedFirst(jobs, rest), jp)
    case CurStopped => With(rest, 0, jp)
  }

  /** Setting a link: that of the job `at`, or the head of the list. */
  function Relinked(prev: seq<int>, at: int, to: int): seq<int>
    requires at == NULL || 0 <= at < |prev|
  {
    if at == NULL then prev else prev[at := to]
  }

  /** The other jobs, in their order. */
  function Others(list: seq<int>, jp: int): seq<int> {
    if list == [] then [] else (if list[0] == jp then [] else [list[0]]) + Others(list[1..], jp)
  }

  lemma {:induction false} OthersPlus(a: seq<int>, b: seq<int>, jp: int)
    ensures Others(a + b, jp) == Others(a, jp) + Others(b, jp)
  {
    if a == [] {
      assert a + b == b;
    } else {
      assert (a + b)[1..] == a[1..] + b;
      OthersPlus(a[1..], b, jp);
    }
  }

  lemma OthersOne(jp: int)
    ensures Others([jp], jp) == []
  {
  }

  lemma OthersWithout(list: seq<int>, k: nat)
    requires k < |list|
    ensures Others(Without(list, k), list[k]) == Others(list, list[k])
  {
    hide Others;
    var jp := list[k];
    OthersOne(jp);
    assert list == list[..k] + ([jp] + list[k + 1..]);
    OthersPlus(list[..k], [jp] + list[k + 1..], jp);
    OthersPlus([jp], list[k + 1..], jp);
    OthersPlus(list[..k], list[k + 1..], jp);
  }

  lemma OthersWith(list: seq<int>, m: nat, jp: int)
    requires m <= |list|
    ensures Others(With(list, m, jp), jp) == Others(list, jp)
  {
    OthersWithout(With(list, m, jp), m);
    assert Without(With(list, m, jp), m) == list;
  }

  /** The job `jp` is right behind those stopped jobs of the list that are in front of all others. */
  predicate BehindAllStopped(jobs: seq<Job>, now: seq<int>, m: nat, jp: int) {
    && m < |now| && now[m] == jp
    && (forall i :: 0 <= i < m ==> 0 <= now[i] < |jobs| && jobs[now[i]].state.JobStopped?)
    && (m + 1 < |now| ==> 0 <= now[m + 1] < |jobs| && !jobs[now[m + 1]].state.JobStopped?)
  }

  lemma PlacedBehind(jobs: seq<Job>, rest: seq<int>, jp: int)
    requires forall i :: 0 <= i < |rest| ==> 0 <= rest[i] < |jobs|
    ensures var m := StoppedFirst(jobs, rest); BehindAllStopped(jobs, With(rest, m, jp), m, jp)
  {
    var m := StoppedFirst(jobs, rest);
    hide StoppedFirst;
    var now := With(rest, m, jp);
    assert forall i :: 0 <= i < m ==> now[i] == rest[i];
    assert m < |rest| ==> now[m + 1] == rest[m];
  }

  /**
   * A job that stops becomes the current one, one that runs comes right behind the stopped ones, and one that goes
   * is in the list no more; the other jobs keep their order.
   */
  lemma ReorderedIs(jobs: seq<Job>, list: seq<int>, jp: int, mode: Mode)
    requires Distinct(list) && jp in list && forall i :: 0 <= i < |list| ==> 0 <= list[i] < |jobs|
    ensures var now := Reordered(jobs, list, jp, mode);
            && Others(now, jp) == Others(list, jp)
            && (mode.CurDelete? ==> jp !in now)
            && (mode.CurStopped? ==> now != [] && now[0] == jp)
            && (mode.CurRunning? ==> exists m :: BehindAllStopped(jobs, now, m, jp))
  {
    hide Distinct, With, Without, BehindAllStopped, StoppedFirst;
    var k := Index(list, jp);
    var rest := Without(list, k);
    WithoutMembers(list, k);
    OthersWithout(list, k);
    forall i | 0 <= i < |rest|
      ensures 0 <= rest[i] < |jobs|
    {
      var other := rest[i];
      assert other in rest;
      assert other in list;
    }
    if mode.CurRunning? {
      OthersWith(rest, StoppedFirst(jobs, rest), jp);
      PlacedBehind(jobs, rest, jp);
    } else if mode.CurStopped? {
      OthersWith(rest, 0, jp);
      WithAt(rest, 0, jp, 0);
    }
  }

  lemma WithoutAt(list: seq<int>, k: nat, i: nat)
    requires k < |list| && i < |list| - 1
    ensures |Without(list, k)| == |list| - 1 && Without(list, k)[i] == list[if i < k then i else i + 1]
  {
  }

  lemma DistinctWithout(list: seq<int>, k: nat)
    requires Distinct(list) && k < |list|
    ensures Distinct(Without(list, k)) && |Without(list, k)| == |list| - 1
  {
  }

  /** Where the link to number `k` of a list is: in the job before, or at the head. */
  function LinkAt(list: seq<int>, k: nat): int
    requires k <= |list|
  {
    if k == 0 then NULL else list[k - 1]
  }

  /** Each link of a list, and that every job of it is in the table. */
  lemma ListAt(prev: seq<int>, head: int, list: seq<int>, k: nat)
    requires IsList(prev, head, list)
    ensures head == At0(list, 0) && (k < |list| ==> 0 <= list[k] < |prev| && prev[list[k]] == At0(list, k + 1))
  {
  }

  lemma ListRange(prev: seq<int>, head: int, list: seq<int>)
    requires IsList(prev, head, list)
    ensures Distinct(list) && forall i :: 0 <= i < |list| ==> 0 <= list[i] < |prev|
  {
  }

  lemma MakeList(prev: seq<int>, head: int, list: seq<int>)
    requires Distinct(list) && head == At0(list, 0)
    requires forall i :: 0 <= i < |list| ==> 0 <= list[i] < |prev| && prev[list[i]] == At0(list, i + 1)
    ensures IsList(prev, head, list)
  {
    hide Distinct, At0;
  }

  lemma UnlinkAt(prev: seq<int>, head: int, list: seq<int>, k: nat, i: nat)
    requires IsList(prev, head, list) && k < |list| && i < |list| - 1
    ensures var w := Without(list, k);
            && |w| == |list| - 1 && 0 <= w[i] < |prev|
            && Relinked(prev, LinkAt(list, k), At0(list, k + 1))[w[i]] == At0(w, i + 1)
  {
    hide Without, Distinct, IsList;
    ListRange(prev, head, list);
    var j := if i < k then i else i + 1;
    WithoutAt(list, k, i);
    if i + 1 < |list| - 1 {
      WithoutAt(list, k, i + 1);
    }
    ListAt(prev, head, list, j);
    if k > 0 {
      ListAt(prev, head, list, k - 1);
    }
  }

  lemma Unlink(prev: seq<int>, head: int, list: seq<int>, k: nat)
    requires IsList(prev, head, list) && k < |list|
    ensures k > 0 ==> 0 <= LinkAt(list, k) < |prev|
    ensures IsList(Relinked(prev, LinkAt(list, k), At0(list, k + 1)), if k == 0 then At0(list, 1) else head, Without(list, k))
  {
    hide Without, Distinct, IsList;
    ListRange(prev, head, list);
    DistinctWithout(list, k);
    ListAt(prev, head, list, 0);
    var w := Without(list, k);
    forall i | 0 <= i < |w|
      ensures 0 <= w[i] < |prev|
      ensures Relinked(prev, LinkAt(list, k), At0(list, k + 1))[w[i]] == At0(w, i + 1)
    {
      UnlinkAt(prev, head, list, k, i);
    }
    if w != [] {
      WithoutAt(list, k, 0);
    }
    MakeList(Relinked(prev, LinkAt(list, k), At0(list, k + 1)), if k == 0 then At0(list, 1) else head, w);
  }

  lemma WithAt(list: seq<int>, m: nat, jp: int, i: nat)
    requires m <= |list| && i <= |list|
    ensures |With(list, m, jp)| == |list| + 1
    ensures With(list, m, jp)[i] == if i < m then list[i] else if i == m then jp else list[i - 1]
  {
  }

  lemma DistinctWith(list: seq<int>, m: nat, jp: int)
    requires Distinct(list) && m <= |list| && jp !in list
    ensures Distinct(With(list, m, jp)) && |With(list, m, jp)| == |list| + 1
  {
  }

  lemma InsertAt(prev: seq<int>, head: int, list: seq<int>, m: nat, jp: int, i: nat)
    requires IsList(prev, head, list) && m <= |list| && jp !in list && 0 <= jp < |prev| && i <= |list|
    requires m > 0 ==> 0 <= LinkAt(list, m) < |prev|
    ensures var w := With(list, m, jp);
            && |w| == |list| + 1 && 0 <= w[i] < |prev|
            && Relinked(prev[jp := At0(list, m)], LinkAt(list, m), jp)[w[i]] == At0(w, i + 1)
  {
    hide With, Distinct, IsList;
    ListRange(prev, head, list);
    WithAt(list, m, jp, i);
    if i + 1 <= |list| {
      WithAt(list, m, jp, i + 1);
    }
    if i != m {
      var j := if i < m then i else i - 1;
      assert list[j] in list;
      ListAt(prev, head, list, j);
    } else if m > 0 {
      assert list[m - 1] in list;
    }
  }

  lemma Insert(prev: seq<int>, head: int, list: seq<int>, m: nat, jp: int)
    requires IsList(prev, head, list) && m <= |list| && jp !in list && 0 <= jp < |prev|
    ensures m > 0 ==> 0 <= LinkAt(list, m) < |prev|
    ensures IsList(Relinked(prev[jp := At0(list, m)], LinkAt(list, m), jp), if m == 0 then jp else head, With(list, m, jp))
  {
    hide With, Distinct, IsList;
    ListRange(prev, head, list);
    DistinctWith(list, m, jp);
    ListAt(prev, head, list, 0);
    var w := With(list, m, jp);
    forall i | 0 <= i < |w|
      ensures 0 <= w[i] < |prev|
      ensures Relinked(prev[jp := At0(list, m)], LinkAt(list, m), jp)[w[i]] == At0(w, i + 1)
    {
      InsertAt(prev, head, list, m, jp, i);
    }
    WithAt(list, m, jp, 0);
    MakeList(Relinked(prev[jp := At0(list, m)], LinkAt(list, m), jp), if m == 0 then jp else head, w);
  }

  lemma WithoutMembers(list: seq<int>, k: nat)
    requires Distinct(list) && k < |list|
    ensures forall j :: j in Without(list, k) <==> j in list && j != list[k]
  {
    var w := Without(list, k);
    assert forall i :: 0 <= i < |w| ==> w[i] == list[if i < k then i else i + 1];
    forall j | j in list && j != list[k]
      ensures j in w
    {
      var i :| 0 <= i < |list| && list[i] == j;
      assert w[if i < k then i else i - 1] == j;
    }
  }

  lemma WithMembers(list: seq<int>, m: nat, jp: int)
    requires m <= |list|
    ensures forall j :: j in With(list, m, jp) <==> j in list || j == jp
  {
    assert list == list[..m] + list[m..];
  }

  // ---------- Events ----------

  /** The processes of a job when the process `pid` has changed. */
  function Updated(ps: seq<Process>, pid: int, status: Status): (r: seq<Process>)
    ensures |r| == |ps|
    ensures forall i :: 0 <= i < |ps| ==> r[i] == if ps[i].pid == pid then Process(pid, status) else ps[i]
  {
    if ps == [] then [] else [if ps[0].pid == pid then Process(pid, status) else ps[0]] + Updated(ps[1..], pid, status)
  }

  predicate HasPid(ps: seq<Process>, pid: int) {
    exists i :: 0 <= i < |ps| && ps[i].pid == pid
  }

  /** Behind `SIGCONT`: what was stopped is running. */
  function Continued(ps: seq<Process>): (r: seq<Process>)
    ensures |r| == |ps|
    ensures forall i :: 0 <= i < |ps| ==> r[i] == if ps[i].status.Stopped? then ps[i].(status := Pending) else ps[i]
  {
    if ps == [] then []
    else [if ps[0].status.Stopped? then ps[0].(status := Pending) else ps[0]] + Continued(ps[1..])
  }

  /** The first job of the list that is not done and has the process. */
  function Owner(jobs: seq<Job>, list: seq<int>, pid: int): (jp: int)
    requires forall i :: 0 <= i < |list| ==> 0 <= list[i] < |jobs|
    ensures jp == NULL || (jp in list && !jobs[jp].state.JobDone? && HasPid(jobs[jp].ps, pid))
  {
    if list == [] then NULL
    else if !jobs[list[0]].state.JobDone? && HasPid(jobs[list[0]].ps, pid) then list[0]
    else Owner(jobs, list[1..], pid)
  }

  /** A job behind a wait event for one of its processes. */
  function Told(j: Job, pid: int, status: Status): Job {
    var ps := Updated(j.ps, pid, status);
    j.(ps := ps, state := StateOf(ps), changed := j.changed || StateOf(ps) != JobRunning)
  }

  /** The exit status that a process stands for; -1, for one that nothing is known of, looks like signal 127. */
  function Value(status: Status): int {
    match status
    case Exited(code) => code
    case Stopped(signal) => signal + 128
    case Signaled(signal) => signal + 128
    case Pending => 255
  }

  /** With `pipefail`, the status of the rightmost process that failed; else that of the last. */
  ghost predicate IsStatus(j: Job, r: int)
    requires j.ps != []
  {
    var n := |j.ps| - 1;
    if !j.pipefail then r == Value(j.ps[n].status)
    else
      || (r == 0 && forall i :: 0 <= i <= n ==> Value(j.ps[i].status) == 0)
      || (r != 0 && exists i :: 0 <= i <= n && r == Value(j.ps[i].status) &&
                                forall k :: i < k <= n ==> Value(j.ps[k].status) == 0)
  }

  /** What is known of a process is what the last wait event for it said. */
  lemma TellsOne(j: Job, a: seq<Process>, was: Process, b: seq<Process>, status: Status)
    requires j.ps == a + [was] + b && !HasPid(a + b, was.pid)
    ensures Told(j, was.pid, status).ps == a + [Process(was.pid, status)] + b
  {
    hide StateOf;
    var ps, now := j.ps, Updated(j.ps, was.pid, status);
    forall i | 0 <= i < |ps| && i != |a|
      ensures now[i] == ps[i]
    {
      assert ps[i] == (a + b)[if i < |a| then i else i - 1];
    }
    assert now == now[..|a|] + [now[|a|]] + now[|a| + 1..] && now[..|a|] == a && now[|a| + 1..] == b;
  }

  /** The status of a pipeline of two: exit codes are what they are, signals count from 128 on. */
  lemma StatusOfTwo(j: Job, p: int, code: int, q: int, signal: int, r: int)
    requires code != 0 && signal > 0
    ensures IsStatus(j.(ps := [Process(p, Exited(code)), Process(q, Exited(0))], pipefail := false), r) <==> r == 0
    ensures IsStatus(j.(ps := [Process(p, Exited(code)), Process(q, Exited(0))], pipefail := true), r) <==> r == code
    ensures IsStatus(j.(ps := [Process(p, Exited(code)), Process(q, Signaled(signal))], pipefail := true), r) <==> r == 128 + signal
    ensures IsStatus(j.(ps := [Process(p, Exited(0)), Process(q, Exited(0))], pipefail := true), r) <==> r == 0
    ensures IsStatus(j.(ps := [Process(p, Stopped(signal))]), r) <==> r == 128 + signal
  {
    var ps := [Process(p, Exited(code)), Process(q, Exited(0))];
    assert Value(ps[0].status) == code && Value(ps[1].status) == 0;
    var signaled := [Process(p, Exited(code)), Process(q, Signaled(signal))];
    assert Value(signaled[1].status) == 128 + signal;
    var good := [Process(p, Exited(0)), Process(q, Exited(0))];
    assert Value(good[0].status) == 0 && Value(good[1].status) == 0;
    var one := [Process(p, Stopped(signal))];
    assert Value(one[0].status) == 128 + signal;
  }

  /** `getstatus` */
  method GetStatus(j: Job) returns (r: int)
    requires j.ps != []
    ensures IsStatus(j, r)
  {
    var i := |j.ps| - 1;
    var nproc := if j.pipefail then i else 0;
    while true
      invariant 0 <= nproc <= i < |j.ps| && (j.pipefail ==> nproc == i) && (!j.pipefail ==> nproc == 0 && i == |j.ps| - 1)
      invariant forall k :: i < k < |j.ps| ==> Value(j.ps[k].status) == 0
      decreases nproc
    {
      var retval := Value(j.ps[i].status);
      if retval != 0 || nproc == 0 {
        return retval;
      }
      nproc := nproc - 1;
      i := i - 1;
    }
  }

  /** The jobs of the list are those in use, and have the states of their processes. */
  ghost predicate TableFits(jobs: seq<Job>, list: seq<int>) {
    && (forall j :: 0 <= j < |jobs| ==> (jobs[j].used <==> j in list))
    && (forall j :: 0 <= j < |jobs| && jobs[j].used ==> StateFits(jobs[j]))
  }

  /** Changing one job that stays in use, and the order of the list. */
  lemma ChangeFits(jobs: seq<Job>, list: seq<int>, jp: int, j: Job, list': seq<int>)
    requires TableFits(jobs, list) && 0 <= jp < |jobs| && j.used
    requires forall k :: k in list' <==> k in list || k == jp
    ensures TableFits(jobs[jp := j], list') <==> StateFits(j)
  {
    hide StateFits;
    assert jobs[jp := j][jp] == j;
  }

  lemma FreeFits(jobs: seq<Job>, list: seq<int>, jp: int, j: Job, list': seq<int>)
    requires TableFits(jobs, list) && 0 <= jp < |jobs| && !j.used
    requires forall k :: k in list' <==> k in list && k != jp
    ensures TableFits(jobs[jp := j], list')
  {
    hide StateFits;
  }

  lemma FitsAt(jobs: seq<Job>, list: seq<int>, jp: int)
    requires TableFits(jobs, list) && 0 <= jp < |jobs|
    ensures (jobs[jp].used <==> jp in list) && (jobs[jp].used ==> StateFits(jobs[jp]))
  {
    hide StateFits;
  }

  lemma MoreFits(jobs: seq<Job>, prev: seq<int>, head: int, list: seq<int>, more: seq<Job>)
    requires TableFits(jobs, list) && (forall i :: 0 <= i < |more| ==> !more[i].used)
    requires |prev| == |jobs| && IsList(prev, head, list)
    ensures TableFits(jobs + more, list)
  {
    hide StateFits;
  }

  class JobTable {
    var jobs: seq<Job>
    var prev: seq<int>
    var curjob: int
    var mflag: bool
    var optpipefail: bool
    ghost var list: seq<int>

    /** The list names exactly the jobs in use, and every job's state is that of its processes. */
    ghost predicate Valid()
      reads this
    {
      |prev| == |jobs| && IsList(prev, curjob, list) && TableFits(jobs, list)
    }

    constructor ()
      ensures Valid() && jobs == [] && list == []
    {
      jobs, prev, curjob, list, mflag, optpipefail := [], [], NULL, [], false, false;
    }

    method SetLink(at: int, to: int)
      requires at == NULL || 0 <= at < |prev|
      modifies `prev, `curjob
      ensures prev == Relinked(old(prev), at, to) && curjob == if at == NULL then to else old(curjob)
    {
      if at == NULL {
        curjob := to;
      } else {
        prev := prev[at := to];
      }
    }

    /** The first half of `set_curjob`: the job leaves the list. */
    method Remove(jp: int)
      requires |prev| == |jobs| && IsList(prev, curjob, list) && jp in list
      modifies `prev, `curjob, `list
      ensures |prev| == |jobs| && IsList(prev, curjob, list) && jp !in list
      ensures list == Without(old(list), Index(old(list), jp))
    {
      hide Distinct, Without, IsList;
      var at := NULL;
      var jp1 := curjob;
      ghost var k, end := 0, Index(list, jp);
      ListAt(prev, curjob, list, 0);
      while jp1 != jp
        invariant 0 <= k <= end && jp1 == list[k] && at == LinkAt(list, k)
        modifies {}
        decreases end - k
      {
        ListAt(prev, curjob, list, k);
        at := jp1;
        jp1 := prev[at];
        k := k + 1;
      }
      Unlink(prev, curjob, list, k);
      ListAt(prev, curjob, list, k);
      ListRange(prev, curjob, list);
      Gone(list, k);
      SetLink(at, prev[jp]);
      list := Without(list, k);
    }

    /** The place in the list behind all stopped jobs: the link to it, and where that leads. */
    method BehindStopped() returns (at: int, next: int)
      requires |prev| == |jobs| && IsList(prev, curjob, list) && forall i :: 0 <= i < |list| ==> 0 <= list[i] < |jobs|
      ensures next == At0(list, StoppedFirst(jobs, list)) && at == LinkAt(list, StoppedFirst(jobs, list))
    {
      hide StoppedFirst, IsList, Distinct, TableFits;
      ListAt(prev, curjob, list, 0);
      at, next := NULL, curjob;
      ghost var m := 0;
      assert list[0..] == list;
      while next != NULL && jobs[next].state == JobStopped
        invariant 0 <= m <= |list| && next == At0(list, m) && at == LinkAt(list, m)
        invariant StoppedFirst(jobs, list) == m + StoppedFirst(jobs, list[m..])
        decreases |list| - m
      {
        ListAt(prev, curjob, list, m);
        StoppedStep(jobs, list, m);
        at := next;
        next := prev[at];
        m := m + 1;
      }
      StoppedStep(jobs, list, m);
      if m < |list| {
        ListAt(prev, curjob, list, m);
      }
    }

    /** The second half: it is put in again behind all stopped jobs, or in front. */
    method Place(jp: int, running: bool)
      requires |prev| == |jobs| && IsList(prev, curjob, list) && jp !in list && 0 <= jp < |jobs|
      modifies `prev, `curjob, `list
      ensures |prev| == |jobs| && IsList(prev, curjob, list)
      ensures list == With(old(list), if running then StoppedFirst(jobs, old(list)) else 0, jp)
    {
      ListRange(prev, curjob, list);
      ListAt(prev, curjob, list, 0);
      hide StoppedFirst, With, IsList;
      var at, jp1 := NULL, curjob;
      ghost var m := 0;
      if running {
        m := StoppedFirst(jobs, list);
        at, jp1 := BehindStopped();
      }
      Insert(prev, curjob, list, m, jp);
      if m > 0 {
        ListAt(prev, curjob, list, m - 1);
      }
      prev := prev[jp := jp1];
      SetLink(at, jp);
      list := With(list, m, jp);
    }

    /** `set_curjob` */
    method SetCurJob(jp: int, mode: Mode)
      requires |prev| == |jobs| && IsList(prev, curjob, list) && jp in list
      modifies `prev, `curjob, `list
      ensures |prev| == |jobs| && IsList(prev, curjob, list)
      ensures list == Reordered(jobs, old(list), jp, mode)
    {
      InRange(prev, curjob, list, jp);
      hide IsList, Without, With, StoppedFirst;
      Remove(jp);
      if mode != CurDelete {
        Place(jp, mode == CurRunning);
      }
    }

    /** `freejob` */
    method FreeJob(jp: int)
      requires Valid() && jp in list
      modifies `jobs, `prev, `curjob, `list
      ensures Valid() && jobs == old(jobs)[jp := old(jobs)[jp].(used := false)]
      ensures list == Without(old(list), Index(old(list), jp))
    {
      hide IsList, TableFits, Without;
      LeaveList(prev, curjob, list, jp);
      FreeFits(jobs, list, jp, jobs[jp].(used := false), Without(list, Index(list, jp)));
      jobs := jobs[jp := jobs[jp].(used := false)];
      SetCurJob(jp, CurDelete);
    }

    /** The search of `makejob` for a place in the table; a job that has been waited for may have to go. */
    method FindSlot() returns (jp: int)
      requires Valid()
      modifies `jobs, `prev, `curjob, `list
      ensures Valid() && 0 <= jp < |jobs| && jp !in list && |jobs| >= |old(jobs)|
      ensures forall j :: 0 <= j < |old(jobs)| && j != jp ==> jobs[j] == old(jobs)[j]
      ensures jp in old(list) ==> old(jobs)[jp].state.JobDone? && old(jobs)[jp].waited && !mflag
      ensures list == if jp in old(list) then Without(old(list), Index(old(list), jp)) else old(list)
    {
      hide IsList, TableFits, Without;
      jp := 0;
      while jp < |jobs| && jobs[jp].used && (!jobs[jp].state.JobDone? || !jobs[jp].waited || mflag)
        invariant 0 <= jp <= |jobs|
        modifies {}
      {
        jp := jp + 1;
      }
      if jp == |jobs| {
        MoreRoom(prev, curjob, list, [NULL, NULL, NULL, NULL]);
        MoreFits(jobs, prev, curjob, list, [EMPTY, EMPTY, EMPTY, EMPTY]);
        jobs := jobs + [EMPTY, EMPTY, EMPTY, EMPTY];
        prev := prev + [NULL, NULL, NULL, NULL];
        FitsAt(jobs, list, jp);
      } else {
        FitsAt(jobs, list, jp);
        if jobs[jp].used {
          LeaveList(prev, curjob, list, jp);
          FreeJob(jp);
        }
      }
    }

    /** `makejob`: a new job is the current one, and runs. */
    method MakeJob() returns (jp: int)
      requires Valid()
      modifies `jobs, `prev, `curjob, `list
      ensures Valid() && 0 <= jp < |jobs| && jobs[jp] == EMPTY.(used := true, pipefail := optpipefail)
      ensures |jobs| >= |old(jobs)| && forall j :: 0 <= j < |old(jobs)| && j != jp ==> jobs[j] == old(jobs)[j]
      ensures jp in old(list) ==> old(jobs)[jp].state.JobDone? && old(jobs)[jp].waited
      ensures list == [jp] + if jp in old(list) then Without(old(list), Index(old(list), jp)) else old(list)
    {
      hide IsList, Distinct, TableFits, Without;
      jp := FindSlot();
      Insert(prev, curjob, list, 0, jp);
      ListAt(prev, curjob, list, 0);
      assert With(list, 0, jp) == [jp] + list;
      ChangeFits(jobs, list, jp, EMPTY.(used := true, pipefail := optpipefail), [jp] + list);
      jobs := jobs[jp := EMPTY.(used := true, pipefail := optpipefail)];
      prev := prev[jp := curjob];
      curjob := jp;
      list := [jp] + list;
    }

    /** `forkparent`; the state of the job stays right exactly if it still ran. */
    method ForkParent(jp: int, pid: int, background: bool)
      requires Valid() && jp in list
      modifies `jobs, `prev, `curjob, `list
      ensures |prev| == |jobs| && IsList(prev, curjob, list)
      ensures Valid() <==> old(jobs)[jp].state.JobRunning?
      ensures jobs == old(jobs)[jp := old(jobs)[jp].(ps := old(jobs)[jp].ps + [Process(pid, Pending)])]
      ensures list == if background then Reordered(old(jobs), old(list), jp, CurRunning) else old(list)
    {
      ListRange(prev, curjob, list);
      ReorderedMembers(jobs, list, jp, CurRunning);
      hide IsList, Distinct, TableFits, Reordered, StateFits, StateOf, StoppedFirst;
      FitsAt(jobs, list, jp);
      ForkFits(jobs[jp], pid);
      var j := jobs[jp].(ps := jobs[jp].ps + [Process(pid, Pending)]);
      ghost var was := list;
      if background {
        SetCurJob(jp, CurRunning);
      }
      ChangeFits(jobs, was, jp, j, list);
      jobs := jobs[jp := j];
    }

    /** `restartjob`, up to waiting for it. */
    method RestartJob(jp: int)
      requires Valid() && jp in list && jobs[jp].ps != []
      modifies `jobs
      ensures Valid()
      ensures jobs == if old(jobs)[jp].state.JobDone? then old(jobs) else old(jobs)[jp := Restarted(old(jobs)[jp])]
    {
      InRange(prev, curjob, list, jp);
      hide IsList, TableFits, StateFits, StateOf;
      var j := jobs[jp];
      if j.state == JobDone {
        return;
      }
      FitsAt(jobs, list, jp);
      RestartedFits(j);
      var ps := Resume(j.ps);
      j := j.(state := JobRunning, ps := ps);
      ChangeFits(jobs, list, jp, j, list);
      jobs := jobs[jp := j];
    }

    /** The outer loop of `dowait`: the job that has the process, and what becomes of it. */
    method FindOwner(pid: int, status: Status) returns (jp: int, ps: seq<Process>, state: JobState)
      requires |prev| == |jobs| && IsList(prev, curjob, list) && status != Pending
      requires forall i :: 0 <= i < |list| ==> 0 <= list[i] < |jobs|
      ensures jp == Owner(jobs, list, pid)
      ensures jp != NULL ==> ps == Updated(jobs[jp].ps, pid, status) && state == StateOf(ps)
    {
      hide IsList, Distinct, TableFits, StateOf, HasPid, Owner;
      ps, state := [], JobDone;
      jp := curjob;
      ghost var k := 0;
      ListAt(prev, curjob, list, 0);
      assert list[0..] == list;
      while jp != NULL
        invariant 0 <= k <= |list| && jp == At0(list, k)
        invariant Owner(jobs, list, pid) == Owner(jobs, list[k..], pid)
        decreases |list| - k
      {
        ListAt(prev, curjob, list, k);
        OwnerStep(jobs, list, k, pid);
        if jobs[jp].state != JobDone {
          var found;
          ps, found, state := Visit(jobs[jp].ps, pid, status);
          if found {
            return;
          }
        }
        jp := prev[jp];
        k := k + 1;
      }
    }

    /** `dowait`, when a wait event for the process `pid` has come. */
    method DoWait(pid: int, status: Status)
      requires Valid() && status != Pending && forall i :: 0 <= i < |list| ==> jobs[list[i]].ps != []
      modifies `jobs, `prev, `curjob, `list
      ensures Valid()
      ensures var jp := Owner(old(jobs), old(list), pid);
              if jp == NULL then jobs == old(jobs) && list == old(list)
              else
                var told := Told(old(jobs)[jp], pid, status);
                && jobs == old(jobs)[jp := told]
                && list == if told.state.JobStopped? && !old(jobs)[jp].state.JobStopped?
                           then Reordered(jobs, old(list), jp, CurStopped) else old(list)
    {
      ListRange(prev, curjob, list);
      hide IsList, Distinct, TableFits, StateFits, StateOf, Reordered, HasPid;
      var jp, ps, state := FindOwner(pid, status);
      if jp == NULL {
        return;
      }
      var j := jobs[jp];
      var oldstate := j.state;
      FitsAt(jobs, list, jp);
      j := j.(ps := ps);
      if state != JobRunning {
        j := j.(changed := true);
        if j.state != state {
          j := j.(state := state);
        }
      }
      ChangeFits(jobs, list, jp, j, list);
      jobs := jobs[jp := j];
      if state == JobStopped && oldstate != JobStopped {
        ReorderedMembers(jobs, list, jp, CurStopped);
        ghost var before := list;
        SetCurJob(jp, CurStopped);
        ReorderFits(jobs, before, list);
      }
    }
  }

  lemma ReorderFits(jobs: seq<Job>, list: seq<int>, list': seq<int>)
    requires TableFits(jobs, list) && forall k :: k in list' <==> k in list
    ensures TableFits(jobs, list')
  {
    hide StateFits;
  }

  /** The loop of `restartjob` over the processes. */
  method Resume(ps0: seq<Process>) returns (ps: seq<Process>)
    ensures ps == Continued(ps0)
  {
    ps := ps0;
    var i := 0;
    while i < |ps|
      invariant 0 <= i <= |ps| == |ps0|
      invariant forall k :: 0 <= k < |ps0| ==> ps[k] == if k < i then Continued(ps0)[k] else ps0[k]
    {
      if ps[i].status.Stopped? {
        ps := ps[i := ps[i].(status := Pending)];
      }
      i := i + 1;
    }
  }

  lemma OwnerStep(jobs: seq<Job>, list: seq<int>, k: nat, pid: int)
    requires k < |list| && forall i :: 0 <= i < |list| ==> 0 <= list[i] < |jobs|
    ensures Owner(jobs, list[k..], pid) ==
              if !jobs[list[k]].state.JobDone? && HasPid(jobs[list[k]].ps, pid) then list[k]
              else Owner(jobs, list[k + 1..], pid)
  {
    hide HasPid;
    assert list[k..][1..] == list[k + 1..];
  }

  /** The state of a job with one more process. */
  lemma StateSnoc(ps: seq<Process>, p: Process)
    ensures StateOf(ps + [p]) ==
              if StateOf(ps) == JobRunning || p.status == Pending then JobRunning
              else if StateOf(ps) == JobStopped || p.status.Stopped? then JobStopped else JobDone
  {
    var all := ps + [p];
    assert forall i :: 0 <= i < |ps| ==> all[i] == ps[i];
    assert all[|ps|] == p;
  }

  lemma PidSnoc(ps: seq<Process>, p: Process, pid: int)
    ensures HasPid(ps + [p], pid) <==> HasPid(ps, pid) || p.pid == pid
  {
    var all := ps + [p];
    assert forall i :: 0 <= i < |ps| ==> all[i] == ps[i];
    assert all[|ps|] == p;
  }

  function Changed(p: Process, pid: int, status: Status): Process {
    if p.pid == pid then Process(pid, status) else p
  }

  lemma UpdatedSnoc(ps: seq<Process>, p: Process, pid: int, status: Status)
    ensures Updated(ps + [p], pid, status) == Updated(ps, pid, status) + [Changed(p, pid, status)]
  {
  }

  /** The loop of `dowait` over the processes of a job: one may be meant, and what state the job then is in. */
  method Visit(ps0: seq<Process>, pid: int, status: Status) returns (ps: seq<Process>, found: bool, state: JobState)
    requires status != Pending
    ensures found == HasPid(ps0, pid) && ps == Updated(ps0, pid, status) && state == StateOf(ps)
  {
    hide HasPid, StateOf, Updated;
    ps, found, state := ps0, false, JobDone;
    ghost var done, told := [], [];
    VisitNothing(pid, status);
    var i := 0;
    while i < |ps0|
      invariant 0 <= i <= |ps0| == |ps| && done == ps0[..i] && |told| == i
      invariant told == Updated(done, pid, status) && ps == told + ps0[i..]
      invariant found == HasPid(done, pid) && state == StateOf(told)
    {
      ghost var p, q := ps0[i], Changed(ps0[i], pid, status);
      UpdatedSnoc(done, p, pid, status);
      PidSnoc(done, p, pid);
      StateSnoc(told, q);
      Replace(told, ps0, i, q);
      if ps[i].pid == pid {
        ps := ps[i := Process(pid, status)];
        found := true;
      }
      if ps[i].status == Pending {
        state := JobRunning;
      }
      if state != JobRunning && ps[i].status.Stopped? {
        state := JobStopped;
      }
      done, told := done + [p], told + [q];
      i := i + 1;
    }
    Replaced(told, ps0);
  }

  lemma Replace(told: seq<Process>, ps0: seq<Process>, i: nat, q: Process)
    requires i < |ps0| && |told| == i
    ensures var ps := told + ps0[i..];
            && ps[i] == ps0[i] && ps[i := q] == told + [q] + ps0[i + 1..] && (q == ps0[i] ==> ps == ps[i := q])
    ensures ps0[..i + 1] == ps0[..i] + [ps0[i]]
  {
  }

  lemma Replaced(told: seq<Process>, ps0: seq<Process>)
    ensures told + ps0[|ps0|..] == told && ps0[..|ps0|] == ps0
  {
  }

  lemma VisitNothing(pid: int, status: Status)
    ensures !HasPid([], pid) && Updated([], pid, status) == [] && StateOf([]) == JobDone
  {
  }

  /** Who is left when a job leaves the list. */
  lemma LeaveList(prev: seq<int>, head: int, list: seq<int>, jp: int)
    requires IsList(prev, head, list) && jp in list
    ensures 0 <= jp < |prev| && forall j :: j in Without(list, Index(list, jp)) <==> j in list && j != jp
  {
    hide Distinct, Without;
    WithoutMembers(list, Index(list, jp));
  }

  lemma InRange(prev: seq<int>, head: int, list: seq<int>, jp: int)
    requires IsList(prev, head, list) && jp in list
    ensures 0 <= jp < |prev|
  {
  }

  /** A process that is forked into a job leaves its state right exactly when the job runs. */
  lemma ForkFits(j: Job, pid: int)
    requires StateFits(j)
    ensures StateFits(j.(ps := j.ps + [Process(pid, Pending)])) <==> j.state.JobRunning?
  {
    var ps := j.ps + [Process(pid, Pending)];
    assert ps[|j.ps|].status == Pending;
    if exists i :: 0 <= i < |j.ps| && j.ps[i].status == Pending {
      var i :| 0 <= i < |j.ps| && j.ps[i].status == Pending;
      assert ps[i].status == Pending;
    }
  }

  /** A stopped job that goes on. */
  function Restarted(j: Job): Job {
    j.(state := JobRunning, ps := Continued(j.ps))
  }

  lemma RestartedFits(j: Job)
    requires StateFits(j) && j.ps != [] && !j.state.JobDone?
    ensures StateFits(Restarted(j)) && Restarted(j).used == j.used
  {
    if j.state.JobRunning? {
      var i :| 0 <= i < |j.ps| && j.ps[i].status == Pending;
      assert Continued(j.ps)[i].status == Pending;
    } else {
      var i :| 0 <= i < |j.ps| && j.ps[i].status.Stopped?;
      assert Continued(j.ps)[i].status == Pending;
    }
  }

  lemma MoreRoom(prev: seq<int>, head: int, list: seq<int>, more: seq<int>)
    requires IsList(prev, head, list)
    ensures IsList(prev + more, head, list)
  {
  }

  lemma ReorderedMembers(jobs: seq<Job>, list: seq<int>, jp: int, mode: Mode)
    requires Distinct(list) && jp in list && forall i :: 0 <= i < |list| ==> 0 <= list[i] < |jobs|
    ensures forall j :: j in Reordered(jobs, list, jp, mode) <==> j in list && (j != jp || mode != CurDelete)
  {
    hide StoppedFirst;
    var rest := Without(list, Index(list, jp));
    WithoutMembers(list, Index(list, jp));
    WithMembers(rest, StoppedFirst(jobs, rest), jp);
    WithMembers(rest, 0, jp);
  }

  lemma StoppedStep(jobs: seq<Job>, list: seq<int>, m: nat)
    requires m <= |list| && forall i :: 0 <= i < |list| ==> 0 <= list[i] < |jobs|
    ensures StoppedFirst(jobs, list[m..]) ==
              if m < |list| && jobs[list[m]].state.JobStopped? then 1 + StoppedFirst(jobs, list[m + 1..]) else 0
  {
    if m < |list| {
      assert list[m..][1..] == list[m + 1..];
    }
  }

  lemma Gone(list: seq<int>, k: nat)
    requires Distinct(list) && k < |list|
    ensures list[k] !in Without(list, k)
  {
    WithoutMembers(list, k);
  }

  // ---------- Runs ----------

  /** A pipeline is started, a process stops or ends, a job goes on, a job is freed. */
  datatype Event =
    | Launch(pids: seq<int>, background: bool)
    | Change(pid: int, status: Status)
    | Continue(jp: int)
    | Forget(jp: int)

  /** No job without a process. */
  predicate Populated(jobs: seq<Job>) {
    forall j :: 0 <= j < |jobs| && jobs[j].used ==> jobs[j].ps != []
  }

  /** A job that is in use and not `jp` was there before. */
  lemma OldJobs(jobs: seq<Job>, list: seq<int>, before: seq<Job>, was: seq<int>, jp: int)
    requires TableFits(jobs, list) && Populated(before) && TableFits(before, was)
    requires forall i :: 0 <= i < |was| ==> 0 <= was[i] < |before|
    requires forall j :: 0 <= j < |before| && j < |jobs| && j != jp ==> jobs[j] == before[j]
    requires forall j :: j in list ==> j == jp || j in was
    ensures forall j :: 0 <= j < |jobs| && j != jp && jobs[j].used ==> jobs[j].ps != []
  {
    hide StateFits;
  }

  lemma ListedBefore(list: seq<int>, was: seq<int>, jp: int)
    requires list == [jp] + if jp in was then Without(was, Index(was, jp)) else was
    ensures forall j :: j in list ==> j == jp || j in was
  {
  }

  /** `makejob`, and `forkparent` for each process of a pipeline. */
  method LaunchJob(t: JobTable, pids: seq<int>, background: bool)
    requires t.Valid() && Populated(t.jobs) && pids != []
    modifies t`jobs, t`prev, t`curjob, t`list
    ensures t.Valid() && Populated(t.jobs)
  {
    ghost var before, was := t.jobs, t.list;
    ListRange(t.prev, t.curjob, t.list);
    hide IsList, TableFits, Reordered, Without, Populated;
    var jp := t.MakeJob();
    ListedBefore(t.list, was, jp);
    OldJobs(t.jobs, t.list, before, was, jp);
    for k := 0 to |pids|
      invariant t.Valid() && 0 <= jp < |t.jobs| && t.jobs[jp].used && t.jobs[jp].state.JobRunning? && |t.jobs[jp].ps| == k
      invariant forall j :: 0 <= j < |t.jobs| && j != jp && t.jobs[j].used ==> t.jobs[j].ps != []
    {
      FitsAt(t.jobs, t.list, jp);
      t.ForkParent(jp, pids[k], background);
    }
    PopulatedNow(t.jobs, jp);
  }

  lemma PopulatedNow(jobs: seq<Job>, jp: int)
    requires 0 <= jp < |jobs| && jobs[jp].ps != []
    requires forall j :: 0 <= j < |jobs| && j != jp && jobs[j].used ==> jobs[j].ps != []
    ensures Populated(jobs)
  {
  }

  /** Changing one job of a table to one that has processes, or is not in use. */
  lemma StillPopulated(jobs: seq<Job>, jp: int, j: Job)
    requires Populated(jobs) && 0 <= jp < |jobs| && (j.used ==> j.ps != [])
    ensures Populated(jobs[jp := j])
  {
  }

  lemma ListedPopulated(prev: seq<int>, curjob: int, jobs: seq<Job>, list: seq<int>)
    requires |prev| == |jobs| && IsList(prev, curjob, list) && TableFits(jobs, list) && Populated(jobs)
    ensures forall i :: 0 <= i < |list| ==> 0 <= list[i] < |jobs| && jobs[list[i]].ps != []
  {
    hide StateFits;
  }

  /**
   * In every run, the list names exactly the jobs in use, and each has the state of its processes. Nothing is waited
   * for while a pipeline is being started.
   */
  method Run(t: JobTable, events: seq<Event>)
    requires t.Valid() && Populated(t.jobs)
    modifies t`jobs, t`prev, t`curjob, t`list
    ensures t.Valid() && Populated(t.jobs)
  {
    hide IsList, TableFits, Reordered, Without, Populated, Owner;
    for k := 0 to |events|
      invariant t.Valid() && Populated(t.jobs)
    {
      ghost var before := t.jobs;
      ListedPopulated(t.prev, t.curjob, t.jobs, t.list);
      match events[k] {
        case Launch(pids, background) =>
          if pids != [] {
            LaunchJob(t, pids, background);
          }
        case Change(pid, status) =>
          if status != Pending {
            ghost var jp := Owner(t.jobs, t.list, pid);
            t.DoWait(pid, status);
            if jp != NULL {
              StillPopulated(before, jp, Told(before[jp], pid, status));
            }
          }
        case Continue(jp) =>
          if 0 <= jp < |t.jobs| && t.jobs[jp].used {
            FitsAt(t.jobs, t.list, jp);
            t.RestartJob(jp);
            StillPopulated(before, jp, Restarted(before[jp]));
          }
        case Forget(jp) =>
          if 0 <= jp < |t.jobs| && t.jobs[jp].used {
            FitsAt(t.jobs, t.list, jp);
            t.FreeJob(jp);
            StillPopulated(before, jp, before[jp].(used := false));
          }
      }
    }
  }
}
