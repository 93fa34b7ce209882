/** Any number of processes forking, exiting, waiting, sleeping and being killed: every run of steps.
  *
  * A step is one critical section under ptable.lock, or one of fork's unlocked stores into the process it is
  * setting up.  A process in the middle of fork has the new process's place in busy.
  */
module ExitWait {
  import opened Proc

  /** exited: every pid that has exited.  gone: the place of each that has not been reaped.  reaped: those that
    * have, and reaps: in how many waits.
    */
  datatype History = History(exited: set<nat>, gone: map<nat, nat>, reaped: set<nat>, reaps: nat)

  /** maker[k] is the process that set up place k. */
  datatype State = State(t: seq<Proc>, busy: seq<int>, maker: seq<int>, nextpid: nat, h: History)

  datatype Event =
    | Alloc(i: nat, np: nat)       // fork: allocproc finds place np
    | ForkFails(i: nat)            // no kernel stack or no memory: the place is UNUSED again
    | SetParent(i: nat)            // np->parent = curproc
    | Publish(i: nat)              // np->state = RUNNABLE
    | Exit(i: nat)
    | Reap(i: nat, z: nat)         // wait finds zombie child z
    | WaitSleeps(i: nat)           // wait finds children, none a zombie
    | Sched(i: nat)                // the scheduler runs i
    | Yield(i: nat)
    | Sleep(i: nat, c: nat)        // sleep on some other channel
    | Wakeup(c: nat)
    | Kill(pid: nat, k: nat)

  /** When the step can happen in state s. */
  ghost predicate Enabled(s: State, e: Event)
    requires |s.t| == |s.busy| == NPROC
  {
    match e
    case Alloc(i, np) => i < NPROC && s.t[i].state == RUNNING && s.busy[i] == NOPROC && FirstUnused(s.t, np)
    case ForkFails(i) => i < NPROC && s.t[i].state == RUNNING && 0 <= s.busy[i] < NPROC && s.t[s.busy[i]].parent == NOPROC
    case SetParent(i) => i < NPROC && s.t[i].state == RUNNING && 0 <= s.busy[i] < NPROC
    case Publish(i) => i < NPROC && s.t[i].state == RUNNING && 0 <= s.busy[i] < NPROC && s.t[s.busy[i]].parent == i
    case Exit(i) => i < NPROC && i != INIT && s.t[i].state == RUNNING && s.busy[i] == NOPROC
    case Reap(i, z) => i < NPROC && s.t[i].state == RUNNING && s.busy[i] == NOPROC && FirstZombieKid(s.t, i, z)
    case WaitSleeps(i) =>
      && i < NPROC && s.t[i].state == RUNNING && s.busy[i] == NOPROC
      && HasKid(s.t, i) && !HasZombieKid(s.t, i) && !s.t[i].killed
    case Sched(i) => i < NPROC && s.t[i].state == RUNNABLE
    case Yield(i) => i < NPROC && s.t[i].state == RUNNING
    case Sleep(i, c) => i < NPROC && s.t[i].state == RUNNING
    case Wakeup(c) => true
    case Kill(pid, k) => FirstWithPid(s.t, pid, k)
  }

  ghost function ExitTable(t: seq<Proc>, i: nat, n: nat): (r: seq<Proc>)
    requires i < |t| && n <= |t|
    ensures |r| == n && forall k :: 0 <= k < n ==> r[k] == ExitedAt(t, i, k)
  {
    if n == 0 then [] else ExitTable(t, i, n - 1) + [ExitedAt(t, i, n - 1)]
  }

  function WakeTable(t: seq<Proc>, chan: Chan): (r: seq<Proc>)
    ensures |r| == |t| && forall k :: 0 <= k < |t| ==> r[k] == WokenAt(t[k], chan)
  {
    if t == [] then [] else WakeTable(t[..|t| - 1], chan) + [WokenAt(t[|t| - 1], chan)]
  }

  /** The process table after the step; initproc is at place 0. */
  ghost function NextTable(s: State, e: Event): (r: seq<Proc>)
    requires |s.t| == |s.busy| == NPROC && Enabled(s, e)
    ensures |r| == NPROC
  {
    match e
    case Alloc(i, np) => s.t[np := s.t[np].(state := EMBRYO, pid := s.nextpid)]
    case ForkFails(i) => s.t[s.busy[i] := s.t[s.busy[i]].(state := UNUSED)]
    case SetParent(i) => s.t[s.busy[i] := s.t[s.busy[i]].(parent := i)]
    case Publish(i) => s.t[s.busy[i] := s.t[s.busy[i]].(state := RUNNABLE)]
    case Exit(i) => ExitTable(s.t, i, NPROC)
    case Reap(i, z) => s.t[z := Reaped(s.t[z])]
    case WaitSleeps(i) => s.t[i := s.t[i].(chan := OnProc(i), state := SLEEPING)]
    case Sched(i) => s.t[i := s.t[i].(chan := NoChan, state := RUNNING)]
    case Yield(i) => s.t[i := s.t[i].(state := RUNNABLE)]
    case Sleep(i, c) => s.t[i := s.t[i].(chan := OnOther(c), state := SLEEPING)]
    case Wakeup(c) => WakeTable(s.t, OnOther(c))
    case Kill(pid, k) => s.t[k := KilledAt(s.t[k])]
  }

  ghost function NextHistory(s: State, e: Event): History
    requires |s.t| == |s.busy| == NPROC && Enabled(s, e)
  {
    match e
    case Exit(i) => s.h.(exited := s.h.exited + {s.t[i].pid}, gone := s.h.gone[s.t[i].pid := i])
    case Reap(i, z) =>
      s.h.(gone := s.h.gone - {s.t[z].pid}, reaped := s.h.reaped + {s.t[z].pid}, reaps := s.h.reaps + 1)
    case _ => s.h
  }

  ghost function Next(s: State, e: Event): (r: State)
    requires |s.t| == |s.busy| == |s.maker| == NPROC && Enabled(s, e)
    ensures |r.t| == |r.busy| == |r.maker| == NPROC
  {
    State(NextTable(s, e),
          if e.Alloc? then s.busy[e.i := e.np] else if e.ForkFails? || e.Publish? then s.busy[e.i := NOPROC] else s.busy,
          if e.Alloc? then s.maker[e.np := e.i] else s.maker,
          if e.Alloc? then s.nextpid + 1 else s.nextpid,
          NextHistory(s, e))
  }

  // ----- the invariant

  predicate InWait(p: Proc) {
    p.state == SLEEPING && p.chan.OnProc?
  }

  /** A place's parent is in order: none if the place is free, none or its maker while it is set up, else a live
    * process; init has no parent and lives.
    */
  predicate ParentAt(s: State, k: nat)
    requires k < |s.t| == |s.busy| == |s.maker| == NPROC
  {
    var p := s.t[k];
    && (p.state == UNUSED ==> p.parent == NOPROC)
    && (p.state == EMBRYO ==> 0 <= s.maker[k] < NPROC && s.busy[s.maker[k]] == k && (p.parent == NOPROC || p.parent == s.maker[k]))
    && (p.state != UNUSED && p.state != EMBRYO && k != INIT ==> 0 <= p.parent < NPROC && p.parent != k && Alive(s.t[p.parent]))
    && (k == INIT ==> Alive(p) && p.parent == NOPROC)
  }

  predicate BusyAt(s: State, k: nat)
    requires k < |s.t| == |s.busy| == |s.maker| == NPROC
  {
    && s.busy[k] < NPROC
    && (s.busy[k] >= 0 ==> Alive(s.t[k]) && !InWait(s.t[k]) && s.t[s.busy[k]].state == EMBRYO && s.maker[s.busy[k]] == k)
    && s.busy[k] >= NOPROC
  }

  /** A process asleep in wait has a child and no zombie child. */
  ghost predicate WaitAt(s: State, k: nat)
    requires k < |s.t|
  {
    InWait(s.t[k]) ==> s.t[k].chan == OnProc(k) && HasKid(s.t, k) && !HasZombieKid(s.t, k)
  }

  predicate PidAt(s: State, k: nat)
    requires k < |s.t|
  {
    var p := s.t[k];
    && p.pid < s.nextpid
    && (p.state != UNUSED ==> 0 < p.pid && p.pid !in s.h.reaped && (p.pid in s.h.exited <==> p.state == ZOMBIE))
    && (p.state == ZOMBIE ==> p.pid in s.h.gone && s.h.gone[p.pid] == k)
  }

  predicate PidsDiffer(t: seq<Proc>, j: nat, k: nat)
    requires j < |t| && k < |t|
  {
    j < k && t[j].state != UNUSED && t[k].state != UNUSED ==> t[j].pid != t[k].pid
  }

  predicate GoneAt(t: seq<Proc>, gone: map<nat, nat>, x: nat) {
    x in gone ==> gone[x] < |t| && t[gone[x]].state == ZOMBIE && t[gone[x]].pid == x
  }

  ghost predicate HistoryOk(h: History, nextpid: nat) {
    && (forall x :: x in h.exited ==> x < nextpid)
    && h.exited == h.reaped + h.gone.Keys && h.reaped !! h.gone.Keys && h.reaps == |h.reaped|
  }

  ghost predicate Pids(s: State) {
    && s.nextpid > 0 && HistoryOk(s.h, s.nextpid)
    && (forall j, k :: 0 <= j < |s.t| && 0 <= k < |s.t| ==> PidsDiffer(s.t, j, k))
    && (forall x: nat :: GoneAt(s.t, s.h.gone, x))
  }

  ghost predicate Inv(s: State) {
    && |s.t| == |s.busy| == |s.maker| == NPROC
    && (forall k :: 0 <= k < NPROC ==> ParentAt(s, k))
    && (forall k :: 0 <= k < NPROC ==> BusyAt(s, k))
    && (forall k :: 0 <= k < NPROC ==> WaitAt(s, k))
    && (forall k :: 0 <= k < NPROC ==> PidAt(s, k))
    && Pids(s)
  }

  // ----- every step keeps it

  lemma ParentStep(s: State, e: Event, k: nat)
    requires Inv(s) && Enabled(s, e) && k < NPROC
    ensures ParentAt(Next(s, e), k)
  {
    hide Pids, PidAt, WaitAt, HasKid, HasZombieKid;
    assert ParentAt(s, k) && BusyAt(s, k) && ParentAt(s, INIT);
    match e {
      case Exit(i) => ParentExit(s, i, k);
      case Alloc(i, np) => ParentFork(s, e, k);
      case ForkFails(i) => ParentFork(s, e, k);
      case SetParent(i) => ParentFork(s, e, k);
      case Publish(i) => ParentFork(s, e, k);
      case Reap(i, z) => assert ParentAt(s, i) && BusyAt(s, i);
      case _ =>
    }
  }

  lemma ParentFork(s: State, e: Event, k: nat)
    requires Inv(s) && Enabled(s, e) && k < NPROC && (e.Alloc? || e.ForkFails? || e.SetParent? || e.Publish?)
    ensures ParentAt(Next(s, e), k)
  {
    hide Pids, PidAt, WaitAt, HasKid, HasZombieKid;
    assert ParentAt(s, k) && BusyAt(s, k) && ParentAt(s, e.i) && BusyAt(s, e.i);
    if s.t[k].state == EMBRYO {
      assert BusyAt(s, s.maker[k]);
    }
  }

  lemma ParentExit(s: State, i: nat, k: nat)
    requires Inv(s) && Enabled(s, Exit(i)) && k < NPROC
    ensures ParentAt(Next(s, Exit(i)), k)
  {
    hide Pids, PidAt, WaitAt, HasKid, HasZombieKid;
    assert ParentAt(s, k) && ParentAt(s, INIT) && ParentAt(s, i) && BusyAt(s, i);
    if s.t[k].state == EMBRYO {
      assert BusyAt(s, s.maker[k]);
    }
    var t' := Next(s, Exit(i)).t;
    assert t'[k] == ExitedAt(s.t, i, k) && t'[INIT] == ExitedAt(s.t, i, INIT);
    if 0 <= s.t[k].parent < NPROC {
      assert t'[s.t[k].parent] == ExitedAt(s.t, i, s.t[k].parent);
    }
  }

  lemma BusyStep(s: State, e: Event, k: nat)
    requires Inv(s) && Enabled(s, e) && k < NPROC
    ensures BusyAt(Next(s, e), k)
  {
    hide Pids, PidAt, WaitAt, HasKid, HasZombieKid, ParentAt;
    assert BusyAt(s, k);
    match e {
      case Exit(i) => BusyExit(s, i, k);
      case Alloc(i, np) => assert BusyAt(s, i);
      case ForkFails(i) => assert BusyAt(s, i);
      case SetParent(i) => assert BusyAt(s, i);
      case Publish(i) => assert BusyAt(s, i);
      case _ =>
    }
  }

  lemma BusyExit(s: State, i: nat, k: nat)
    requires Inv(s) && Enabled(s, Exit(i)) && k < NPROC
    ensures BusyAt(Next(s, Exit(i)), k)
  {
    hide Pids, PidAt, WaitAt, HasKid, HasZombieKid, ParentAt;
    assert BusyAt(s, k) && BusyAt(s, i);
    var t' := Next(s, Exit(i)).t;
    assert t'[k] == ExitedAt(s.t, i, k);
    if s.busy[k] >= 0 {
      assert t'[s.busy[k]] == ExitedAt(s.t, i, s.busy[k]);
    }
  }

  /** A child of a process that stays asleep in wait stays its child. */
  lemma KidStays(s: State, e: Event, k: nat, c: nat)
    requires Inv(s) && Enabled(s, e) && k < NPROC && c < NPROC && InWait(s.t[k]) && KidOf(s.t[c], k)
    ensures KidOf(Next(s, e).t[c], k)
  {
    hide Pids, PidAt, WaitAt, HasKid, HasZombieKid;
    assert ParentAt(s, c);
    match e {
      case Alloc(i, np) =>
      case SetParent(i) => assert BusyAt(s, i) && BusyAt(s, k);
      case Exit(i) => assert Next(s, e).t[c] == ExitedAt(s.t, i, c);
      case _ =>
    }
  }

  /** It gains no zombie child without being woken. */
  lemma NoZombieGained(s: State, e: Event, k: nat, c: nat)
    requires Inv(s) && Enabled(s, e) && k < NPROC && c < NPROC && InWait(s.t[k]) && InWait(Next(s, e).t[k])
    ensures !ZombieKidOf(Next(s, e).t[c], k)
  {
    hide Pids, PidAt, HasKid;
    assert WaitAt(s, k) && !ZombieKidOf(s.t[c], k) && ParentAt(s, c);
    match e {
      case Exit(i) =>
        var t' := Next(s, e).t;
        assert t'[c] == ExitedAt(s.t, i, c) && t'[k] == ExitedAt(s.t, i, k) && ParentAt(s, i);
        if s.t[c].parent == i && s.t[c].state == ZOMBIE {
          assert ZombieKidOf(s.t[c], i);
        }
      case SetParent(i) => assert BusyAt(s, i);
      case _ =>
    }
  }

  lemma WaitStep(s: State, e: Event, k: nat)
    requires Inv(s) && Enabled(s, e) && k < NPROC
    ensures WaitAt(Next(s, e), k)
  {
    var s' := Next(s, e);
    if InWait(s'.t[k]) {
      if InWait(s.t[k]) {
        SleeperStep(s, e, k);
      } else {
        FallsAsleep(s, e, k);
      }
    }
  }

  lemma SleeperStep(s: State, e: Event, k: nat)
    requires Inv(s) && Enabled(s, e) && k < NPROC && InWait(s.t[k]) && InWait(Next(s, e).t[k])
    ensures WaitAt(Next(s, e), k)
  {
    var s' := Next(s, e);
    assert WaitAt(s, k);
    SameChan(s, e, k);
    var c :| 0 <= c < |s.t| && KidOf(s.t[c], k);
    hide Next, Enabled, Inv, KidOf, ZombieKidOf;
    KidStays(s, e, k, c);
    assert HasKid(s'.t, k);
    forall d: nat | d < |s'.t|
      ensures !ZombieKidOf(s'.t[d], k)
    {
      NoZombieGained(s, e, k, d);
    }
  }

  lemma SameChan(s: State, e: Event, k: nat)
    requires Inv(s) && Enabled(s, e) && k < NPROC && InWait(s.t[k]) && InWait(Next(s, e).t[k])
    ensures Next(s, e).t[k].chan == s.t[k].chan && |s.t| == |Next(s, e).t| == NPROC
  {
    hide Pids, PidAt, WaitAt, HasKid, HasZombieKid, ParentAt, BusyAt;
    if e.Exit? {
      assert Next(s, e).t[k] == ExitedAt(s.t, e.i, k);
    }
  }

  lemma FallsAsleep(s: State, e: Event, k: nat)
    requires Inv(s) && Enabled(s, e) && k < NPROC && !InWait(s.t[k]) && InWait(Next(s, e).t[k])
    ensures WaitAt(Next(s, e), k)
  {
    hide Pids, PidAt, HasKid, HasZombieKid, ParentAt, BusyAt;
    assert !e.Exit? && e == WaitSleeps(k) by {
      ExitWakesOnly(s, e, k);
    }
    SleepKeepsKids(s.t, k);
  }

  lemma ExitWakesOnly(s: State, e: Event, k: nat)
    requires Inv(s) && Enabled(s, e) && k < NPROC
    ensures e.Exit? && InWait(Next(s, e).t[k]) ==> InWait(s.t[k])
  {
    hide Pids, PidAt, HasKid, HasZombieKid, ParentAt, BusyAt, WaitAt;
    if e.Exit? {
      assert Next(s, e).t[k] == ExitedAt(s.t, e.i, k);
    }
  }

  /** Going to sleep changes nobody's parent and makes nobody a zombie. */
  lemma SleepKeepsKids(t: seq<Proc>, k: nat)
    requires k < |t| && t[k].state == RUNNING && HasKid(t, k) && !HasZombieKid(t, k)
    ensures var t' := t[k := t[k].(chan := OnProc(k), state := SLEEPING)]; HasKid(t', k) && !HasZombieKid(t', k)
  {
    var t' := t[k := t[k].(chan := OnProc(k), state := SLEEPING)];
    var c :| 0 <= c < |t| && KidOf(t[c], k);
    assert KidOf(t'[c], k);
    forall d: nat | d < |t'|
      ensures !ZombieKidOf(t'[d], k)
    {
      assert !ZombieKidOf(t[d], k);
    }
  }

  /** How a step changes the pid and the kind of place k. */
  ghost predicate PlaceStepped(s: State, e: Event, k: nat)
    requires |s.t| == |s.busy| == NPROC && Enabled(s, e) && k < NPROC
  {
    var p, q := s.t[k], NextTable(s, e)[k];
    if e.Alloc? && e.np == k then p.state == UNUSED && q.state == EMBRYO && q.pid == s.nextpid
    else if e.Reap? && e.z == k then p.state == ZOMBIE && q.state == UNUSED && q.pid == 0
    else if e.Exit? && e.i == k then p.state == RUNNING && q.state == ZOMBIE && q.pid == p.pid
    else q.pid == p.pid && (q.state == ZOMBIE <==> p.state == ZOMBIE) && (q.state != UNUSED ==> p.state != UNUSED)
  }

  lemma PlaceStep(s: State, e: Event, k: nat)
    requires Inv(s) && Enabled(s, e) && k < NPROC
    ensures PlaceStepped(s, e, k)
  {
    hide WaitAt, HasKid, HasZombieKid, ParentAt, Pids, PidAt;
    assert BusyAt(s, k);
    match e {
      case Exit(i) => assert NextTable(s, e)[k] == ExitedAt(s.t, i, k);
      case ForkFails(i) => assert BusyAt(s, i);
      case Publish(i) => assert BusyAt(s, i);
      case SetParent(i) => assert BusyAt(s, i);
      case _ =>
    }
  }

  lemma PidStep(s: State, e: Event, k: nat)
    requires Inv(s) && Enabled(s, e) && k < NPROC
    ensures PidAt(Next(s, e), k)
  {
    assert PidAt(s, k) && forall x :: x in s.h.exited ==> x < s.nextpid;
    PlaceStep(s, e, k);
    match e {
      case Exit(i) =>
        assert PidAt(s, i) && PidsDiffer(s.t, i, k) && PidsDiffer(s.t, k, i);
      case Reap(i, z) =>
        assert PidAt(s, z) && PidsDiffer(s.t, z, k) && PidsDiffer(s.t, k, z);
      case _ =>
    }
    PidAgain(s, e, k);
  }

  lemma PidAgain(s: State, e: Event, k: nat)
    requires |s.t| == |s.busy| == |s.maker| == NPROC && Enabled(s, e) && k < NPROC && PidAt(s, k) && s.nextpid > 0
    requires (forall x :: x in s.h.exited ==> x < s.nextpid) && forall x :: x in s.h.reaped ==> x in s.h.exited
    requires PlaceStepped(s, e, k)
    requires e.Exit? && e.i != k && s.t[k].state != UNUSED ==> s.t[e.i].pid != s.t[k].pid
    requires e.Reap? && e.z != k && s.t[k].state != UNUSED ==> s.t[e.z].pid != s.t[k].pid
    requires e.Exit? ==> s.t[e.i].pid !in s.h.reaped
    ensures PidAt(Next(s, e), k)
  {
    hide NextTable;
  }

  lemma DistinctStep(s: State, e: Event, j: nat, k: nat)
    requires Inv(s) && Enabled(s, e) && j < NPROC && k < NPROC
    ensures PidsDiffer(NextTable(s, e), j, k)
  {
    assert PidAt(s, j) && PidAt(s, k) && PidsDiffer(s.t, j, k);
    PlaceStep(s, e, j);
    PlaceStep(s, e, k);
    hide NextTable, WaitAt, ParentAt, BusyAt, Enabled, GoneAt, Inv;
  }

  lemma GoneStep(s: State, e: Event, x: nat)
    requires Inv(s) && Enabled(s, e)
    ensures GoneAt(NextTable(s, e), NextHistory(s, e).gone, x)
  {
    assert GoneAt(s.t, s.h.gone, x);
    match e {
      case Exit(i) =>
        PlaceStep(s, e, i);
        assert PidAt(s, i);
      case Reap(i, z) => assert PidAt(s, z);
      case _ =>
    }
    if x in s.h.gone {
      PlaceStep(s, e, s.h.gone[x]);
    }
    hide NextTable, WaitAt, ParentAt, BusyAt, PidAt, Pids;
  }

  lemma HistoryExit(h: History, n: nat, pid: nat, i: nat)
    requires HistoryOk(h, n) && pid < n && pid !in h.exited
    ensures HistoryOk(h.(exited := h.exited + {pid}, gone := h.gone[pid := i]), n)
  {
    var gone := h.gone[pid := i];
    assert gone.Keys == h.gone.Keys + {pid} && pid !in h.reaped;
    SetsMove(h.exited, h.reaped, h.gone.Keys, pid);
  }

  lemma SetsMove(exited: set<nat>, reaped: set<nat>, gone: set<nat>, pid: nat)
    requires exited == reaped + gone && reaped !! gone && pid !in exited
    ensures exited + {pid} == reaped + (gone + {pid}) && reaped !! gone + {pid}
  {
  }

  lemma HistoryReap(h: History, n: nat, pid: nat)
    requires HistoryOk(h, n) && pid in h.gone
    ensures HistoryOk(h.(gone := h.gone - {pid}, reaped := h.reaped + {pid}, reaps := h.reaps + 1), n)
  {
    assert (h.gone - {pid}).Keys == h.gone.Keys - {pid};
  }

  lemma HistoryStep(s: State, e: Event)
    requires Inv(s) && Enabled(s, e)
    ensures HistoryOk(NextHistory(s, e), if e.Alloc? then s.nextpid + 1 else s.nextpid)
  {
    assert HistoryOk(s.h, s.nextpid);
    match e {
      case Exit(i) =>
        assert PidAt(s, i);
        HistoryExit(s.h, s.nextpid, s.t[i].pid, i);
      case Reap(i, z) =>
        assert PidAt(s, z);
        HistoryReap(s.h, s.nextpid, s.t[z].pid);
      case Alloc(i, np) => HistoryGrows(s.h, s.nextpid);
      case _ =>
    }
  }

  lemma HistoryGrows(h: History, n: nat)
    requires HistoryOk(h, n)
    ensures HistoryOk(h, n + 1)
  {
  }

  lemma PidsStep(s: State, e: Event)
    requires Inv(s) && Enabled(s, e)
    ensures Pids(Next(s, e))
  {
    var t, gone := NextTable(s, e), NextHistory(s, e).gone;
    HistoryStep(s, e);
    hide NextTable, NextHistory, WaitAt, ParentAt, BusyAt, PidAt, PidsDiffer, GoneAt, HistoryOk, Enabled;
    forall j: nat, k: nat | j < NPROC && k < NPROC
      ensures PidsDiffer(t, j, k)
    {
      DistinctStep(s, e, j, k);
    }
    forall x: nat
      ensures GoneAt(t, gone, x)
    {
      GoneStep(s, e, x);
    }
  }

  lemma StepKeepsInv(s: State, e: Event)
    requires Inv(s) && Enabled(s, e)
    ensures Inv(Next(s, e))
  {
    PidsStep(s, e);
    var r := Next(s, e);
    forall k: nat | k < NPROC
      ensures ParentAt(r, k) && BusyAt(r, k) && WaitAt(r, k) && PidAt(r, k)
    {
      ParentStep(s, e, k);
      BusyStep(s, e, k);
      WaitStep(s, e, k);
      PidStep(s, e, k);
    }
  }

  // ----- runs

  /** userinit's state: init is runnable, every other place is free. */
  function Booted(): State {
    State([Proc(RUNNABLE, 1, NOPROC, NoChan, false)] + Unused(NPROC - 1), Nobody(NPROC), Nobody(NPROC), 2, History({}, map[], {}, 0))
  }

  function Unused(n: nat): (r: seq<Proc>)
    ensures |r| == n && forall k :: 0 <= k < n ==> r[k] == Proc(UNUSED, 0, NOPROC, NoChan, false)
  {
    if n == 0 then [] else Unused(n - 1) + [Proc(UNUSED, 0, NOPROC, NoChan, false)]
  }

  function Nobody(n: nat): (r: seq<int>)
    ensures |r| == n && forall k :: 0 <= k < n ==> r[k] == NOPROC
  {
    if n == 0 then [] else Nobody(n - 1) + [NOPROC]
  }

  lemma BootedOk()
    ensures Inv(Booted())
  {
  }

  /** The state after a run; an event that is not enabled does not happen. */
  ghost function Run(s: State, es: seq<Event>): (r: State)
    requires Inv(s)
    ensures Inv(r)
    decreases |es|
  {
    if es == [] then s
    else if Enabled(s, es[0]) then
      StepKeepsInv(s, es[0]);
      Run(Next(s, es[0]), es[1..])
    else Run(s, es[1..])
  }

  /** In every reachable state a process asleep in wait has a child and no zombie child to reap. */
  lemma WaitersHaveReason(es: seq<Event>, k: nat)
    requires k < NPROC
    ensures Inv(Booted())
    ensures var s := Run(Booted(), es);
      |s.t| == NPROC && (s.t[k].state == SLEEPING && s.t[k].chan == OnProc(k) ==> HasKid(s.t, k) && !HasZombieKid(s.t, k))
  {
    BootedOk();
    assert WaitAt(Run(Booted(), es), k);
  }

  /** wakeup(c): nobody is left asleep on c, whoever was is RUNNABLE, and nothing else changes. */
  lemma WakeupWakes(s: State, c: nat, k: nat)
    requires |s.t| == |s.busy| == |s.maker| == NPROC && k < NPROC
    ensures var r := Next(s, Wakeup(c)).t[k];
      && !(r.state == SLEEPING && r.chan == OnOther(c))
      && (s.t[k].state == SLEEPING && s.t[k].chan == OnOther(c) ==> r == s.t[k].(state := RUNNABLE))
      && (!(s.t[k].state == SLEEPING && s.t[k].chan == OnOther(c)) ==> r == s.t[k])
  {
  }

  /** Only its own sleep puts a process to sleep on a channel that is no process. */
  lemma OnlySleepSleeps(s: State, e: Event, c: nat, k: nat)
    requires |s.t| == |s.busy| == |s.maker| == NPROC && Enabled(s, e) && k < NPROC
    requires !(s.t[k].state == SLEEPING && s.t[k].chan == OnOther(c))
    requires var r := Next(s, e).t[k]; r.state == SLEEPING && r.chan == OnOther(c)
    ensures e == Sleep(k, c)
  {
  }

  lemma {:induction false} SleptSince(s: State, es: seq<Event>, c: nat, k: nat)
    requires Inv(s) && |s.t| == NPROC && k < NPROC && !(s.t[k].state == SLEEPING && s.t[k].chan == OnOther(c))
    requires var r := Run(s, es); |r.t| == NPROC && r.t[k].state == SLEEPING && r.t[k].chan == OnOther(c)
    ensures Sleep(k, c) in es
    decreases |es|
  {
    hide Inv, Next, Enabled;
    InvSizes(s);
    if es != [] {
      if Enabled(s, es[0]) {
        StepKeepsInv(s, es[0]);
        var r := Next(s, es[0]);
        if r.t[k].state == SLEEPING && r.t[k].chan == OnOther(c) {
          OnlySleepSleeps(s, es[0], c, k);
        } else {
          SleptSince(r, es[1..], c, k);
        }
      } else {
        SleptSince(s, es[1..], c, k);
      }
    }
  }

  lemma InvSizes(s: State)
    requires Inv(s)
    ensures |s.t| == |s.busy| == |s.maker| == NPROC
  {
  }

  /** Over all runs: whoever sleeps on channel c has gone to sleep since the last wakeup(c). */
  lemma NoWakeupSinceSleep(es: seq<Event>, c: nat, fs: seq<Event>, k: nat)
    requires k < NPROC
    ensures Inv(Booted())
    ensures var s := Run(Booted(), es);
      && |s.t| == |s.busy| == |s.maker| == NPROC && Inv(Next(s, Wakeup(c)))
      && var r := Run(Next(s, Wakeup(c)), fs);
      && |r.t| == NPROC && (r.t[k].state == SLEEPING && r.t[k].chan == OnOther(c) ==> Sleep(k, c) in fs)
  {
    BootedOk();
    var s := Run(Booted(), es);
    InvSizes(s);
    StepKeepsInv(s, Wakeup(c));
    WakeupWakes(s, c, k);
    var s1 := Next(s, Wakeup(c));
    var r := Run(s1, fs);
    InvSizes(r);
    hide Inv, Next, Enabled, Run;
    if r.t[k].state == SLEEPING && r.t[k].chan == OnOther(c) {
      SleptSince(s1, fs, c, k);
    }
  }

  /** In every reachable state every process but init that is past EMBRYO has a parent that is neither UNUSED
    * nor ZOMBIE.
    */
  lemma ParentsLive(es: seq<Event>, k: nat)
    requires k < NPROC
    ensures Inv(Booted())
    ensures var s := Run(Booted(), es);
      && |s.t| == NPROC
      && (k != INIT && s.t[k].state != UNUSED && s.t[k].state != EMBRYO ==>
            0 <= s.t[k].parent < NPROC && Alive(s.t[s.t[k].parent]))
  {
    BootedOk();
    assert ParentAt(Run(Booted(), es), k);
  }

  /** Every exited process is a zombie or has been reaped, never both; no pid is reaped twice (as many reaps as
    * reaped pids); and whoever reaps it is its parent, which init becomes when the first parent exits.
    */
  lemma ReapedOnce(es: seq<Event>, i: nat, z: nat)
    ensures Inv(Booted())
    ensures var s := Run(Booted(), es);
      && s.h.exited == s.h.reaped + s.h.gone.Keys && s.h.reaped !! s.h.gone.Keys && s.h.reaps == |s.h.reaped|
      && (forall x :: x in s.h.gone ==> s.h.gone[x] < NPROC && s.t[s.h.gone[x]].pid == x && s.t[s.h.gone[x]].state == ZOMBIE)
      && (Enabled(s, Reap(i, z)) ==> s.t[z].pid in s.h.exited && s.t[z].pid !in s.h.reaped && s.t[z].parent == i)
  {
    BootedOk();
    var s := Run(Booted(), es);
    if z < NPROC {
      assert PidAt(s, z);
    }
    forall x | x in s.h.gone
      ensures s.h.gone[x] < NPROC && s.t[s.h.gone[x]].pid == x && s.t[s.h.gone[x]].state == ZOMBIE
    {
      assert GoneAt(s.t, s.h.gone, x);
    }
  }
}
