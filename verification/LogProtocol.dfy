/** begin_op, log_write and end_op of log.c as a step machine over any number of processes.
  *
  * Each event is one section of the C code that other processes cannot interleave with.
  * log_write has two: the panic tests read log.lh.n before log.lock is taken, so any
  * number of events may come between the tests and the append.
  */
module LogProtocol {
  import opened Param
  import LogRecovery

  datatype Pc =
    | Outside                              // not in an operation (or about to retry begin_op)
    | Asleep                               // in begin_op, sleeping on &log
    | Inside(id: nat, blocks: set<nat>)    // between begin_op and end_op; blocks already logged
    | Checked(id: nat, blocks: set<nat>, b: nat)  // in log_write, past the panic tests
    | Committer(erased: bool)              // the last end_op, running commit without the lock

  datatype State = State(
    outstanding: int,
    committing: bool,
    lh: seq<nat>,
    ps: seq<Pc>,
    panicked: bool,
    nextId: nat,                           // operations are numbered as they begin
    current: set<(nat, nat)>,              // (operation, block) pairs in the open transaction
    done: seq<set<(nat, nat)>>             // the same for every committed transaction
  )

  datatype Event =
    | BeginOp(p: nat)
    | LogWriteCheck(p: nat, b: nat)
    | LogWriteAppend(p: nat)
    | EndOp(p: nat)
    | CommitErase(p: nat)
    | CommitDone(p: nat)

  function Init(n: nat): State {
    State(0, false, [], seq(n, _ => Outside), false, 0, {}, [])
  }

  predicate InOp(pc: Pc) {
    pc.Inside? || pc.Checked?
  }

  /** wakeup(&log) */
  function Woken(ps: seq<Pc>): (r: seq<Pc>)
    ensures |r| == |ps|
  {
    seq(|ps|, i requires 0 <= i < |ps| => if ps[i].Asleep? then Outside else ps[i])
  }

  /** begin_op lets an operation in exactly when no commit runs and the log could take ten more blocks from each
    * operation in progress and from this one, whatever they have logged already.
    */
  predicate MustWait(s: State): (wait: bool)
    ensures !wait <==> !s.committing && |s.lh| + (s.outstanding + 1) * 10 <= 30
  {
    LogRecovery.MustWait(s.committing, |s.lh|, s.outstanding)
  }

  predicate TooBig(s: State, size: int) {
    LogRecovery.TooBig(|s.lh|, size)
  }

  predicate Enabled(s: State, e: Event) {
    && !s.panicked && e.p < |s.ps|
    && match e
       case BeginOp(p) => s.ps[p].Outside?
       case LogWriteCheck(p, b) => s.ps[p].Inside?
       case LogWriteAppend(p) => s.ps[p].Checked?
       case EndOp(p) => s.ps[p].Inside?
       case CommitErase(p) => s.ps[p] == Committer(false)
       case CommitDone(p) => s.ps[p] == Committer(true)
  }

  /** One step; size is log.size. */
  function Step(s: State, e: Event, size: int): (r: State)
    requires Enabled(s, e)
    ensures |r.ps| == |s.ps|
  {
    match e
    case BeginOp(p) =>
      if MustWait(s) then s.(ps := s.ps[p := Asleep])
      else s.(outstanding := s.outstanding + 1, ps := s.ps[p := Inside(s.nextId, {})], nextId := s.nextId + 1)
    case LogWriteCheck(p, b) =>
      if TooBig(s, size) || s.outstanding < 1 then s.(panicked := true)
      else s.(ps := s.ps[p := Checked(s.ps[p].id, s.ps[p].blocks, b)])
    case LogWriteAppend(p) =>
      var pc := s.ps[p];
      s.(lh := LogRecovery.Absorb(s.lh, pc.b), ps := s.ps[p := Inside(pc.id, pc.blocks + {pc.b})],
         current := s.current + {(pc.id, pc.b)})
    case EndOp(p) =>
      if s.committing then s.(outstanding := s.outstanding - 1, panicked := true)
      else if s.outstanding - 1 == 0 then
        s.(outstanding := 0, committing := true, ps := s.ps[p := Committer(false)])
      else s.(outstanding := s.outstanding - 1, ps := Woken(s.ps[p := Outside]))
    case CommitErase(p) =>
      if s.lh == [] then s.(ps := s.ps[p := Committer(true)])
      else s.(lh := [], ps := s.ps[p := Committer(true)], current := {}, done := s.done + [s.current])
    case CommitDone(p) =>
      s.(committing := false, ps := Woken(s.ps[p := Outside]))
  }

  predicate CanRun(s: State, es: seq<Event>, size: int)
    decreases |es|
  {
    es == [] || (Enabled(s, es[0]) && CanRun(Step(s, es[0], size), es[1..], size))
  }

  function Run(s: State, es: seq<Event>, size: int): State
    requires CanRun(s, es, size)
    decreases |es|
  {
    if es == [] then s else Run(Step(s, es[0], size), es[1..], size)
  }

  // ----- counting processes

  function Count(ps: seq<Pc>, f: Pc -> nat): nat {
    if ps == [] then 0 else Count(ps[..|ps| - 1], f) + f(ps[|ps| - 1])
  }

  lemma {:induction false} CountUpdate(ps: seq<Pc>, f: Pc -> nat, i: nat, x: Pc)
    requires i < |ps|
    ensures Count(ps[i := x], f) == Count(ps, f) - f(ps[i]) + f(x)
    ensures Count(ps, f) >= f(ps[i])
  {
    var n := |ps| - 1;
    if i < n {
      CountUpdate(ps[..n], f, i, x);
      assert ps[i := x][..n] == ps[..n][i := x];
    } else {
      assert ps[i := x][..n] == ps[..n];
    }
  }

  lemma {:induction false} CountWoken(ps: seq<Pc>, f: Pc -> nat)
    requires f(Asleep) == f(Outside)
    ensures Count(Woken(ps), f) == Count(ps, f)
  {
    if ps != [] {
      var n := |ps| - 1;
      CountWoken(ps[..n], f);
      assert Woken(ps)[..n] == Woken(ps[..n]);
    }
  }

  lemma {:induction false} CountZero(ps: seq<Pc>, f: Pc -> nat)
    requires forall i :: 0 <= i < |ps| ==> f(ps[i]) == 0
    ensures Count(ps, f) == 0
  {
    if ps != [] {
      CountZero(ps[..|ps| - 1], f);
    }
  }

  const OP_ONE: Pc -> nat := (pc: Pc) => if InOp(pc) then 1 else 0
  const COMMIT_ONE: Pc -> nat := (pc: Pc) => if pc.Committer? then 1 else 0

  /** Blocks an operation may still log: reserved at begin_op, not yet used. */
  function Unused(pc: Pc): nat {
    if InOp(pc) && |pc.blocks| < MAXOPBLOCKS then MAXOPBLOCKS - |pc.blocks| else 0
  }

  const UNUSED: Pc -> nat := (pc: Pc) => Unused(pc)

  // ----- what every run keeps

  ghost predicate NoDuplicates(lh: seq<nat>) {
    forall i, j :: 0 <= i < j < |lh| ==> lh[i] != lh[j]
  }

  /** The counters agree with the processes, and a commit excludes operations. */
  ghost predicate Counted(s: State) {
    && s.outstanding == Count(s.ps, OP_ONE)
    && Count(s.ps, COMMIT_ONE) == (if s.committing then 1 else 0)
    && (s.committing ==> s.outstanding == 0)
  }

  ghost predicate LoggedIn(t: set<(nat, nat)>, b: nat) {
    exists w :: w in t && w.1 == b
  }

  /** The header lists, once each, exactly the blocks of the open transaction. */
  ghost predicate HeaderExact(s: State) {
    && NoDuplicates(s.lh)
    && (forall b :: b in s.lh <==> LoggedIn(s.current, b))
  }

  /** An operation in progress has all its blocks in the open transaction and none in an earlier one. */
  ghost predicate OpWhole(s: State, pc: Pc) {
    InOp(pc) ==>
      && pc.id < s.nextId
      && (forall b :: b in pc.blocks <==> (pc.id, b) in s.current)
      && (forall k, b :: 0 <= k < |s.done| ==> (pc.id, b) !in s.done[k])
  }

  /** No operation's blocks are split across two transactions. */
  ghost predicate Unsplit(s: State) {
    && (forall k, o, b, c :: 0 <= k < |s.done| && (o, b) in s.done[k] ==> (o, c) !in s.current)
    && (forall j, k, o, b, c :: 0 <= j < k < |s.done| && (o, b) in s.done[j] ==> (o, c) !in s.done[k])
  }

  ghost predicate IdsFresh(s: State) {
    && (forall o, b :: (o, b) in s.current ==> o < s.nextId)
    && (forall k, o, b :: 0 <= k < |s.done| && (o, b) in s.done[k] ==> o < s.nextId)
    && (forall p, q :: 0 <= p < q < |s.ps| && InOp(s.ps[p]) && InOp(s.ps[q]) ==> s.ps[p].id != s.ps[q].id)
  }

  /** Whoever sleeps in begin_op would have to wait if woken now; and with no operation and no commit in progress the
    * log is empty, so nobody sleeps.
    */
  ghost predicate NoLostWakeup(s: State) {
    && (forall p :: 0 <= p < |s.ps| && s.ps[p].Asleep? ==> MustWait(s))
    && (s.outstanding == 0 && !s.committing ==> s.lh == [])
    && (s.outstanding == 0 && !s.committing ==> forall p :: 0 <= p < |s.ps| ==> !s.ps[p].Asleep?)
    && (forall p :: 0 <= p < |s.ps| && s.ps[p] == Committer(true) ==> s.lh == [])
  }

  ghost predicate Inv(s: State) {
    && Counted(s) && HeaderExact(s) && Unsplit(s) && IdsFresh(s) && NoLostWakeup(s)
    && (forall p :: 0 <= p < |s.ps| ==> OpWhole(s, s.ps[p]))
  }

  lemma StepKeepsCounted(s: State, e: Event, size: int)
    requires Enabled(s, e) && Counted(s)
    ensures Counted(Step(s, e, size))
  {
    var r := Step(s, e, size);
    match e {
      case BeginOp(p) =>
        CountUpdate(s.ps, OP_ONE, p, r.ps[p]);
        CountUpdate(s.ps, COMMIT_ONE, p, r.ps[p]);
      case LogWriteCheck(p, b) =>
        CountUpdate(s.ps, OP_ONE, p, r.ps[p]);
        CountUpdate(s.ps, COMMIT_ONE, p, r.ps[p]);
      case LogWriteAppend(p) =>
        CountUpdate(s.ps, OP_ONE, p, r.ps[p]);
        CountUpdate(s.ps, COMMIT_ONE, p, r.ps[p]);
      case EndOp(p) =>
        CountUpdate(s.ps, OP_ONE, p, Committer(false));
        CountUpdate(s.ps, COMMIT_ONE, p, Committer(false));
        CountUpdate(s.ps, OP_ONE, p, Outside);
        CountUpdate(s.ps, COMMIT_ONE, p, Outside);
        CountWoken(s.ps[p := Outside], OP_ONE);
        CountWoken(s.ps[p := Outside], COMMIT_ONE);
      case CommitErase(p) =>
        CountUpdate(s.ps, OP_ONE, p, r.ps[p]);
        CountUpdate(s.ps, COMMIT_ONE, p, r.ps[p]);
      case CommitDone(p) =>
        CountUpdate(s.ps, OP_ONE, p, Outside);
        CountUpdate(s.ps, COMMIT_ONE, p, Outside);
        CountWoken(s.ps[p := Outside], OP_ONE);
        CountWoken(s.ps[p := Outside], COMMIT_ONE);
    }
  }

  /** While somebody commits nobody is inside an operation, and conversely. */
  lemma CommitExcludesOps(s: State, p: nat, q: nat)
    requires Counted(s) && p < |s.ps| && q < |s.ps| && s.ps[p].Committer?
    ensures s.committing && !InOp(s.ps[q]) && (s.ps[q].Committer? ==> p == q)
  {
    CountUpdate(s.ps, COMMIT_ONE, p, s.ps[p]);
    CountUpdate(s.ps, OP_ONE, q, s.ps[q]);
    if p != q {
      CountUpdate(s.ps, COMMIT_ONE, p, Outside);
      CountUpdate(s.ps[p := Outside], COMMIT_ONE, q, s.ps[q]);
    }
  }

  lemma StepKeepsHeader(s: State, e: Event, size: int)
    requires Enabled(s, e) && HeaderExact(s)
    ensures HeaderExact(Step(s, e, size))
  {
    var r := Step(s, e, size);
    if e.LogWriteAppend? {
      var w := (s.ps[e.p].id, s.ps[e.p].b);
      forall b: nat
        ensures b in r.lh <==> LoggedIn(r.current, b)
      {
        assert w in r.current;
        assert LoggedIn(s.current, b) ==> LoggedIn(r.current, b);
        assert LoggedIn(r.current, b) ==> LoggedIn(s.current, b) || b == w.1;
      }
    }
  }

  lemma StepKeepsIds(s: State, e: Event, size: int)
    requires Enabled(s, e) && IdsFresh(s) && forall p :: 0 <= p < |s.ps| ==> OpWhole(s, s.ps[p])
    ensures IdsFresh(Step(s, e, size))
  {
    var r := Step(s, e, size);
    forall k, o: nat, b: nat | 0 <= k < |r.done| && (o, b) in r.done[k]
      ensures o < r.nextId
    {
      if k == |s.done| {
        assert (o, b) in s.current;
      } else {
        assert (o, b) in s.done[k];
      }
    }
  }

  lemma StepKeepsUnsplit(s: State, e: Event, size: int)
    requires Enabled(s, e) && Unsplit(s) && forall p :: 0 <= p < |s.ps| ==> OpWhole(s, s.ps[p])
    ensures Unsplit(Step(s, e, size))
  {
    var r := Step(s, e, size);
    if e.LogWriteAppend? {
      assert OpWhole(s, s.ps[e.p]);
    }
  }

  lemma StepKeepsOps(s: State, e: Event, size: int)
    requires Enabled(s, e) && Inv(s)
    ensures forall p :: 0 <= p < |s.ps| ==> OpWhole(Step(s, e, size), Step(s, e, size).ps[p])
  {
    var r := Step(s, e, size);
    forall p | 0 <= p < |s.ps|
      ensures OpWhole(r, r.ps[p])
    {
      assert OpWhole(s, s.ps[p]);
      if e.CommitErase? {
        CommitExcludesOps(s, e.p, p);
      }
    }
  }

  lemma StepKeepsWakeups(s: State, e: Event, size: int)
    requires Enabled(s, e) && Counted(s) && NoLostWakeup(s)
    requires HeaderExact(s)
    ensures NoLostWakeup(Step(s, e, size))
  {
    var r := Step(s, e, size);
    StepKeepsCounted(s, e, size);
    CountUpdate(s.ps, OP_ONE, e.p, s.ps[e.p]);
    assert e.CommitDone? ==> s.ps[e.p] == Committer(true);
    if s.ps[e.p].Committer? {
      CommitExcludesOps(s, e.p, e.p);
    }
    forall q | 0 <= q < |s.ps| && r.ps[q] == Committer(true)
      ensures r.lh == []
    {
      if e.LogWriteAppend? {
        CommitExcludesOps(s, q, e.p);
      }
    }
  }

  lemma StepKeepsInv(s: State, e: Event, size: int)
    requires Enabled(s, e) && Inv(s)
    ensures Inv(Step(s, e, size))
  {
    StepKeepsCounted(s, e, size);
    StepKeepsHeader(s, e, size);
    StepKeepsIds(s, e, size);
    StepKeepsUnsplit(s, e, size);
    StepKeepsOps(s, e, size);
    StepKeepsWakeups(s, e, size);
    hide Step, Counted, HeaderExact, IdsFresh, Unsplit, OpWhole, NoLostWakeup;
  }

  lemma InitInv(n: nat)
    ensures Inv(Init(n))
  {
    CountZero(Init(n).ps, OP_ONE);
    CountZero(Init(n).ps, COMMIT_ONE);
  }

  lemma {:induction false} RunKeepsInv(s: State, es: seq<Event>, size: int)
    requires Inv(s) && CanRun(s, es, size)
    ensures Inv(Run(s, es, size))
    decreases |es|
  {
    if es != [] {
      StepKeepsInv(s, es[0], size);
      RunKeepsInv(Step(s, es[0], size), es[1..], size);
    }
  }

  /** Over every interleaving of any number of processes: commits and operations exclude each
    * other, the header never lists a block twice, no operation's blocks are split across two
    * transactions, and nobody is left asleep once the log is idle.
    */
  lemma ReachableSafe(n: nat, es: seq<Event>, size: int)
    requires CanRun(Init(n), es, size)
    ensures var s := Run(Init(n), es, size);
      && (s.committing ==> s.outstanding == 0)
      && NoDuplicates(s.lh) && Unsplit(s) && NoLostWakeup(s)
  {
    InitInv(n);
    RunKeepsInv(Init(n), es, size);
  }

  /** Of the three panics only "too big a transaction" can happen, exactly when its test says so. */
  lemma OnlyTooBigPanics(s: State, e: Event, size: int)
    requires Enabled(s, e) && Inv(s)
    ensures Step(s, e, size).panicked <==> e.LogWriteCheck? && TooBig(s, size)
  {
    CountUpdate(s.ps, OP_ONE, e.p, s.ps[e.p]);
  }

  // ----- reservations

  /** Each operation logs at most MAXOPBLOCKS distinct blocks. */
  predicate Limited(s: State, e: Event)
    requires Enabled(s, e)
  {
    e.LogWriteCheck? ==> |s.ps[e.p].blocks + {e.b}| <= MAXOPBLOCKS
  }

  predicate LimitedRun(s: State, es: seq<Event>, size: int)
    requires CanRun(s, es, size)
    decreases |es|
  {
    es == [] || (Limited(s, es[0]) && LimitedRun(Step(s, es[0], size), es[1..], size))
  }

  predicate PcLimited(pc: Pc) {
    (InOp(pc) ==> |pc.blocks| <= MAXOPBLOCKS) && (pc.Checked? ==> |pc.blocks + {pc.b}| <= MAXOPBLOCKS)
  }

  /** lh.n plus every unused reservation fits in the log. */
  predicate Reserved(s: State) {
    && (forall p :: 0 <= p < |s.ps| ==> PcLimited(s.ps[p]))
    && |s.lh| + Count(s.ps, UNUSED) <= LOGSIZE
  }

  lemma {:induction false} UnusedBound(ps: seq<Pc>)
    ensures Count(ps, UNUSED) <= MAXOPBLOCKS * Count(ps, OP_ONE)
  {
    if ps != [] {
      UnusedBound(ps[..|ps| - 1]);
    }
  }

  predicate AppendFits(s: State, p: nat)
    requires p < |s.ps| && s.ps[p].Checked?
  {
    var pc := s.ps[p];
    |LogRecovery.Absorb(s.lh, pc.b)| + Unused(Inside(pc.id, pc.blocks + {pc.b})) <= |s.lh| + Unused(pc)
  }

  lemma AppendUses(s: State, p: nat)
    requires p < |s.ps| && s.ps[p].Checked? && PcLimited(s.ps[p]) && HeaderExact(s) && OpWhole(s, s.ps[p])
    ensures AppendFits(s, p)
  {
    var pc := s.ps[p];
    if pc.b in pc.blocks {
      assert (pc.id, pc.b) in s.current;
      assert pc.b in s.lh;
      assert pc.blocks + {pc.b} == pc.blocks;
    } else {
      assert |pc.blocks + {pc.b}| == |pc.blocks| + 1;
    }
  }

  lemma StepKeepsSum(s: State, e: Event, size: int)
    requires Enabled(s, e) && s.outstanding == Count(s.ps, OP_ONE)
    requires e.LogWriteAppend? ==> AppendFits(s, e.p)
    requires |s.lh| + Count(s.ps, UNUSED) <= LOGSIZE
    ensures var r := Step(s, e, size); |r.lh| + Count(r.ps, UNUSED) <= LOGSIZE
  {
    var r := Step(s, e, size);
    match e {
      case BeginOp(p) =>
        CountUpdate(s.ps, UNUSED, p, r.ps[p]);
        UnusedBound(s.ps);
      case LogWriteCheck(p, b) =>
        CountUpdate(s.ps, UNUSED, p, r.ps[p]);
      case LogWriteAppend(p) =>
        CountUpdate(s.ps, UNUSED, p, r.ps[p]);
      case EndOp(p) =>
        CountUpdate(s.ps, UNUSED, p, Committer(false));
        CountUpdate(s.ps, UNUSED, p, Outside);
        CountWoken(s.ps[p := Outside], UNUSED);
      case CommitErase(p) =>
        CountUpdate(s.ps, UNUSED, p, r.ps[p]);
      case CommitDone(p) =>
        CountUpdate(s.ps, UNUSED, p, Outside);
        CountWoken(s.ps[p := Outside], UNUSED);
    }
  }

  lemma StepKeepsReserved(s: State, e: Event, size: int)
    requires Enabled(s, e) && Inv(s) && Reserved(s) && Limited(s, e)
    ensures Reserved(Step(s, e, size))
  {
    if e.LogWriteAppend? {
      AppendUses(s, e.p);
    }
    StepKeepsSum(s, e, size);
    hide Count;
  }

  lemma {:induction false} RunKeepsReserved(s: State, es: seq<Event>, size: int)
    requires Inv(s) && Reserved(s) && CanRun(s, es, size) && LimitedRun(s, es, size)
    ensures Inv(Run(s, es, size)) && Reserved(Run(s, es, size))
    decreases |es|
  {
    if es != [] {
      StepKeepsInv(s, es[0], size);
      StepKeepsReserved(s, es[0], size);
      RunKeepsReserved(Step(s, es[0], size), es[1..], size);
    }
  }

  /** If no operation logs more than MAXOPBLOCKS distinct blocks, the header array is never overrun
    * although log_write tests lh.n before it takes the lock.
    */
  lemma HeaderNeverOverflows(n: nat, es: seq<Event>, size: int)
    requires CanRun(Init(n), es, size) && LimitedRun(Init(n), es, size)
    ensures var s := Run(Init(n), es, size);
      |s.lh| + Count(s.ps, UNUSED) <= LOGSIZE
  {
    InitInv(n);
    CountZero(Init(n).ps, UNUSED);
    RunKeepsReserved(Init(n), es, size);
  }

  /** When log.size exceeds LOGSIZE, log_write of a block new to the operation never panics. */
  lemma FreshBlockNeverPanics(s: State, e: Event, size: int)
    requires Enabled(s, e) && Inv(s) && Reserved(s) && Limited(s, e) && size > LOGSIZE
    requires e.LogWriteCheck? && e.b !in s.ps[e.p].blocks
    ensures !Step(s, e, size).panicked
  {
    OnlyTooBigPanics(s, e, size);
    CountUpdate(s.ps, UNUSED, e.p, s.ps[e.p]);
  }

  // ----- where log_write does panic

  function LogBlocks(p: nat, lo: nat, n: nat): seq<Event>
    decreases n
  {
    if n == 0 then [] else [LogWriteCheck(p, lo), LogWriteAppend(p)] + LogBlocks(p, lo + 1, n - 1)
  }

  /** Three operations begin; they log i, j and k distinct blocks. */
  function ThreeOps(i: nat, j: nat, k: nat): seq<Event> {
    [BeginOp(0), BeginOp(1), BeginOp(2)] + LogBlocks(0, 0, i) + LogBlocks(1, 10, j) + LogBlocks(2, 20, k)
  }

  lemma {:induction false} RunConcat(s: State, a: seq<Event>, b: seq<Event>, size: int)
    requires CanRun(s, a, size) && CanRun(Run(s, a, size), b, size)
    requires LimitedRun(s, a, size) && LimitedRun(Run(s, a, size), b, size)
    ensures CanRun(s, a + b, size) && LimitedRun(s, a + b, size)
    ensures Run(s, a + b, size) == Run(Run(s, a, size), b, size)
    decreases |a|
  {
    if a == [] {
      assert a + b == b;
    } else {
      RunConcat(Step(s, a[0], size), a[1..], b, size);
      assert (a + b)[1..] == a[1..] + b;
    }
  }

  predicate Below(s: State, p: nat, lo: nat) {
    && p < |s.ps| && s.ps[p].Inside?
    && !s.panicked && s.outstanding >= 1
    && (forall b :: b in s.ps[p].blocks ==> b < lo)
    && (forall i :: 0 <= i < |s.lh| ==> s.lh[i] < lo)
  }

  lemma {:induction false} RunLogBlocks(s: State, p: nat, lo: nat, n: nat, size: int)
    requires Below(s, p, lo) && |s.lh| + n <= Min(LOGSIZE, size - 1) && |s.ps[p].blocks| + n <= MAXOPBLOCKS
    ensures CanRun(s, LogBlocks(p, lo, n), size) && LimitedRun(s, LogBlocks(p, lo, n), size)
    ensures var r := Run(s, LogBlocks(p, lo, n), size);
      && Below(r, p, lo + n) && |r.lh| == |s.lh| + n
      && r.ps == s.ps[p := r.ps[p]] && |r.ps[p].blocks| == |s.ps[p].blocks| + n
      && s.ps[p].blocks <= r.ps[p].blocks && (n > 0 ==> lo in r.ps[p].blocks)
      && r.outstanding == s.outstanding && r.committing == s.committing
    decreases n
  {
    if n > 0 {
      var es := LogBlocks(p, lo, n);
      var s1 := Step(s, es[0], size);
      var s2 := Step(s1, es[1], size);
      assert es[1..][0] == es[1] && es[1..][1..] == LogBlocks(p, lo + 1, n - 1);
      assert lo !in s.lh && lo !in s.ps[p].blocks;
      assert Limited(s, es[0]);
      RunLogBlocks(s2, p, lo + 1, n - 1, size);
      assert CanRun(s1, es[1..], size) && LimitedRun(s1, es[1..], size);
    }
  }

  lemma RunBegins(size: int)
    ensures var begins := [BeginOp(0), BeginOp(1), BeginOp(2)];
      && CanRun(Init(3), begins, size) && LimitedRun(Init(3), begins, size)
      && var r := Run(Init(3), begins, size);
         r == Init(3).(outstanding := 3, nextId := 3, ps := [Inside(0, {}), Inside(1, {}), Inside(2, {})])
  {
    var s0 := Init(3);
    var s1 := Step(s0, BeginOp(0), size);
    var s2 := Step(s1, BeginOp(1), size);
    var s3 := Step(s2, BeginOp(2), size);
    var e2: seq<Event> := [BeginOp(2)];
    var e1 := [BeginOp(1), BeginOp(2)];
    assert e2[1..] == [] && e1[1..] == e2 && [BeginOp(0), BeginOp(1), BeginOp(2)][1..] == e1;
    assert CanRun(s3, [], size) && LimitedRun(s3, [], size) && Run(s3, [], size) == s3;
    assert CanRun(s2, e2, size) && LimitedRun(s2, e2, size) && Run(s2, e2, size) == s3;
    assert CanRun(s1, e1, size) && LimitedRun(s1, e1, size) && Run(s1, e1, size) == s3;
    assert s3.ps == [Inside(0, {}), Inside(1, {}), Inside(2, {})];
  }

  ghost predicate Reaches(es: seq<Event>, size: int, r: State) {
    CanRun(Init(3), es, size) && LimitedRun(Init(3), es, size) && Run(Init(3), es, size) == r
  }

  lemma ReachLogBlocks(es: seq<Event>, s: State, p: nat, lo: nat, n: nat, size: int) returns (r: State)
    requires Reaches(es, size, s)
    requires Below(s, p, lo) && |s.lh| + n <= Min(LOGSIZE, size - 1) && |s.ps[p].blocks| + n <= MAXOPBLOCKS
    ensures Reaches(es + LogBlocks(p, lo, n), size, r)
    ensures Below(r, p, lo + n) && |r.lh| == |s.lh| + n
    ensures r.ps == s.ps[p := r.ps[p]] && |r.ps[p].blocks| == |s.ps[p].blocks| + n
    ensures n > 0 ==> lo in r.ps[p].blocks
    ensures r.outstanding == s.outstanding && r.committing == s.committing
  {
    RunLogBlocks(s, p, lo, n, size);
    RunConcat(Init(3), es, LogBlocks(p, lo, n), size);
    r := Run(s, LogBlocks(p, lo, n), size);
  }

  lemma RunThreeOps(i: nat, j: nat, k: nat, size: int)
    requires i <= MAXOPBLOCKS && j <= MAXOPBLOCKS && k <= MAXOPBLOCKS
    requires i + j + k > 0 ==> i + j + k <= Min(LOGSIZE, size - 1)
    ensures CanRun(Init(3), ThreeOps(i, j, k), size) && LimitedRun(Init(3), ThreeOps(i, j, k), size)
    ensures var r := Run(Init(3), ThreeOps(i, j, k), size);
      && !r.panicked && |r.ps| == 3 && |r.lh| == i + j + k && r.outstanding == 3 && !r.committing
      && r.ps[0].Inside? && |r.ps[0].blocks| == i && (i > 0 ==> 0 in r.ps[0].blocks)
      && r.ps[1].Inside? && |r.ps[1].blocks| == j
      && r.ps[2].Inside? && |r.ps[2].blocks| == k && forall b :: b in r.ps[2].blocks ==> b < 20 + k
  {
    var begins := [BeginOp(0), BeginOp(1), BeginOp(2)];
    RunBegins(size);
    var s := Run(Init(3), begins, size);
    hide Run, CanRun, LimitedRun, LogBlocks, Step;
    assert Reaches(begins, size, s);
    var s1 := ReachMaybe(begins, s, 0, 0, i, size);
    var s2 := ReachMaybe(begins + LogBlocks(0, 0, i), s1, 1, 10, j, size);
    var s3 := ReachMaybe(begins + LogBlocks(0, 0, i) + LogBlocks(1, 10, j), s2, 2, 20, k, size);
  }

  /** The same when there may be nothing to log, which any log has room for. */
  lemma ReachMaybe(es: seq<Event>, s: State, p: nat, lo: nat, n: nat, size: int) returns (r: State)
    requires Reaches(es, size, s) && Below(s, p, lo) && |s.ps[p].blocks| + n <= MAXOPBLOCKS
    requires n > 0 ==> |s.lh| + n <= Min(LOGSIZE, size - 1)
    ensures Reaches(es + LogBlocks(p, lo, n), size, r)
    ensures Below(r, p, lo + n) && |r.lh| == |s.lh| + n
    ensures r.ps == s.ps[p := r.ps[p]] && |r.ps[p].blocks| == |s.ps[p].blocks| + n
    ensures n > 0 ==> lo in r.ps[p].blocks
    ensures r.outstanding == s.outstanding && r.committing == s.committing
  {
    if n > 0 {
      r := ReachLogBlocks(es, s, p, lo, n, size);
    } else {
      r := s;
      assert es + LogBlocks(p, lo, 0) == es;
    }
  }

  /** Blocks an operation has logged are counted twice, in lh.n and in its reservation, so begin_op also waits where
    * the reservations still unused and ten more blocks would fit: with 10 blocks logged by two operations.
    */
  lemma AdmissionIsConservative(size: int)
    requires size > 10
    ensures var es := ThreeOps(5, 5, 0) + [EndOp(2)];
      && CanRun(Init(3), es, size) && LimitedRun(Init(3), es, size)
      && var s := Run(Init(3), es, size);
         && Enabled(s, BeginOp(2)) && !s.committing && Step(s, BeginOp(2), size).ps[2] == Asleep
         && |s.lh| + Count(s.ps, UNUSED) + 10 <= 30
  {
    hide CanRun, LimitedRun, LogBlocks, ThreeOps, Count;
    RunThreeOps(5, 5, 0, size);
    var s := Run(Init(3), ThreeOps(5, 5, 0), size);
    var r := Step(s, EndOp(2), size);
    OneStep(s, EndOp(2), size);
    RunConcat(Init(3), ThreeOps(5, 5, 0), [EndOp(2)], size);
    ThreeUnused(r.ps);
  }

  lemma OneStep(s: State, e: Event, size: int)
    requires Enabled(s, e) && Limited(s, e)
    ensures CanRun(s, [e], size) && LimitedRun(s, [e], size) && Run(s, [e], size) == Step(s, e, size)
  {
    assert CanRun(Step(s, e, size), [], size);
  }

  lemma ThreeUnused(ps: seq<Pc>)
    requires |ps| == 3
    ensures Count(ps, UNUSED) == Unused(ps[0]) + Unused(ps[1]) + Unused(ps[2])
  {
    assert ps[..2][..1] == [ps[0]] && ps[..2][1] == ps[1] && ps[..1][..0] == [];
    assert Count([ps[0]], UNUSED) == Unused(ps[0]);
    assert Count(ps[..2], UNUSED) == Unused(ps[0]) + Unused(ps[1]);
  }

  /** With all 30 blocks reserved and used, logging an already logged block again panics, although
    * absorption would have needed no room: the test comes before the search.
    */
  lemma RelogInFullLogPanics(size: int)
    requires size > LOGSIZE
    ensures var es := ThreeOps(10, 10, 10);
      && CanRun(Init(3), es, size) && LimitedRun(Init(3), es, size)
      && var s := Run(Init(3), es, size);
         Enabled(s, LogWriteCheck(0, 0)) && Limited(s, LogWriteCheck(0, 0))
         && 0 in s.ps[0].blocks && Step(s, LogWriteCheck(0, 0), size).panicked
  {
    hide Run, CanRun, LimitedRun, LogBlocks, ThreeOps;
    RunThreeOps(10, 10, 10, size);
    var s := Run(Init(3), ThreeOps(10, 10, 10), size);
    assert s.ps[0].blocks + {0} == s.ps[0].blocks;
  }

  /** Event e, in a run that keeps to its reservations, is the log_write of a block new to its operation. */
  ghost predicate FreshWrite(n: nat, es: seq<Event>, e: Event, size: int) {
    && CanRun(Init(n), es, size) && LimitedRun(Init(n), es, size)
    && var s := Run(Init(n), es, size);
       Enabled(s, e) && Limited(s, e) && e.LogWriteCheck? && e.b !in s.ps[e.p].blocks
  }

  /** No such log_write ever panics. */
  ghost predicate FreshWritesSafe(size: int) {
    forall n, es, e :: FreshWrite(n, es, e, size) ==> !Step(Run(Init(n), es, size), e, size).panicked
  }

  /** In any log of at most LOGSIZE blocks a block the operation has room reserved for can panic. */
  lemma ShortLogPanics(size: int) returns (es: seq<Event>, e: Event)
    requires size <= LOGSIZE
    ensures FreshWrite(3, es, e, size) && Step(Run(Init(3), es, size), e, size).panicked
  {
    hide Run, CanRun, LimitedRun, LogBlocks, ThreeOps;
    var m := Max(0, size - 1);
    var i := Min(m, 10);
    var j := Min(m - i, 10);
    es, e := ThreeOps(i, j, m - i - j), LogWriteCheck(2, 30);
    RunThreeOps(i, j, m - i - j, size);
    assert TooBig(Run(Init(3), es, size), size);
    assert 30 !in Run(Init(3), es, size).ps[2].blocks;
  }

  /** log_write never panics for lack of room, absorption aside, exactly when the log has more than LOGSIZE blocks. */
  lemma FreshWritesSafeExactly(size: int)
    ensures FreshWritesSafe(size) <==> size > LOGSIZE
  {
    if size > LOGSIZE {
      forall n, es, e | FreshWrite(n, es, e, size)
        ensures !Step(Run(Init(n), es, size), e, size).panicked
      {
        InitInv(n);
        CountZero(Init(n).ps, UNUSED);
        RunKeepsReserved(Init(n), es, size);
        FreshBlockNeverPanics(Run(Init(n), es, size), e, size);
      }
    } else {
      var es, e := ShortLogPanics(size);
    }
  }

  /** mkfs makes the log LOGSIZE blocks, header included, which is one too few. */
  lemma MkfsLogIsOneBlockShort()
    ensures !FreshWritesSafe(LOGSIZE) && FreshWritesSafe(LOGSIZE + 1)
  {
    FreshWritesSafeExactly(LOGSIZE);
    FreshWritesSafeExactly(LOGSIZE + 1);
  }
}
