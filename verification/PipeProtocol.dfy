/** Any number of processes writing, reading and closing one pipe, step by step.
  *
  * A process's program counter says where it is in pipewrite, piperead or pipeclose.  Steps are as small as
  * the locks allow to be seen: each acquire, each release, each byte, each wakeup (atomic under ptable.lock),
  * and the three steps of sleep: acquire ptable.lock, release p->lock, mark itself SLEEPING.  kill is left out.
  */
module PipeProtocol {
  import opened Param
  import opened Pipe

  datatype PC =
    | Out
    | WAcq(rest: seq<Byte>)       // pipewrite: acquiring p->lock, at first or after a sleep
    | WLoop(rest: seq<Byte>)      // at the top of its loops
    | WWake(rest: seq<Byte>)      // full: wakeup(&p->nread)
    | WSleep(rest: seq<Byte>)     // entering sleep(&p->nwrite, &p->lock)
    | WSleepP(rest: seq<Byte>)    // sleep has ptable.lock too
    | WCommit(rest: seq<Byte>)    // sleep has released p->lock
    | WAsleep(rest: seq<Byte>)    // SLEEPING on &p->nwrite
    | WDone                       // all written: wakeup(&p->nread)
    | WRel                        // releasing p->lock
    | RAcq(n: nat) | RTest(n: nat) | RSleep(n: nat) | RSleepP(n: nat) | RCommit(n: nat) | RAsleep(n: nat)
    | RCopy(n: nat)               // piperead's copy loop
    | RDone                       // wakeup(&p->nwrite)
    | RRel
    | CAcq(writable: bool) | CWake(writable: bool) | CRel

  /** NOBODY is a free lock.  rref and wref: a read or a write descriptor is still open. */
  const NOBODY: int := -1

  datatype State = State(pc: seq<PC>, lk: int, pt: int, data: seq<Byte>, nread: Word, nwrite: Word,
                         readopen: bool, writeopen: bool, rref: bool, wref: bool, accepted: seq<Byte>, delivered: seq<Byte>)

  datatype Event = Act(i: nat) | StartWrite(i: nat, bytes: seq<Byte>) | StartRead(i: nat, n: nat) | StartClose(i: nat, writable: bool)

  predicate HoldsLk(pc: PC) {
    pc.WLoop? || pc.WWake? || pc.WSleep? || pc.WSleepP? || pc.WDone? || pc.WRel?
    || pc.RTest? || pc.RSleep? || pc.RSleepP? || pc.RCopy? || pc.RDone? || pc.RRel? || pc.CWake? || pc.CRel?
  }

  predicate HoldsPt(pc: PC) {
    pc.WSleepP? || pc.WCommit? || pc.RSleepP? || pc.RCommit?
  }

  predicate InWrite(pc: PC) {
    pc.WAcq? || pc.WLoop? || pc.WWake? || pc.WSleep? || pc.WSleepP? || pc.WCommit? || pc.WAsleep? || pc.WDone? || pc.WRel?
  }

  predicate InRead(pc: PC) {
    pc.RAcq? || pc.RTest? || pc.RSleep? || pc.RSleepP? || pc.RCommit? || pc.RAsleep? || pc.RCopy? || pc.RDone? || pc.RRel?
  }

  /** wakeup1 on the writers' or the readers' channel. */
  function Woken(pc: PC, writers: bool): PC {
    if writers && pc.WAsleep? then WAcq(pc.rest) else if !writers && pc.RAsleep? then RAcq(pc.n) else pc
  }

  function WakeAll(pcs: seq<PC>, writers: bool): (r: seq<PC>)
    ensures |r| == |pcs| && forall k :: 0 <= k < |pcs| ==> r[k] == Woken(pcs[k], writers)
  {
    if pcs == [] then [] else WakeAll(pcs[..|pcs| - 1], writers) + [Woken(pcs[|pcs| - 1], writers)]
  }

  function At(s: State, i: nat, pc: PC): (t: State)
    requires i < |s.pc|
    ensures |t.pc| == |s.pc|
  {
    s.(pc := s.pc[i := pc])
  }

  /** A step of process i inside pipewrite; a step that must wait for a lock changes nothing. */
  function StepWrite(s: State, i: nat): (t: State)
    requires i < |s.pc| && |s.data| == PIPESIZE
    ensures |t.pc| == |s.pc|
  {
    match s.pc[i]
    case WAcq(rest) => if s.lk == NOBODY then At(s, i, WLoop(rest)).(lk := i) else s
    case WLoop(rest) =>
      if rest == [] then At(s, i, WDone)
      else if Full(s.nread, s.nwrite) then At(s, i, if !s.readopen then WRel else WWake(rest))
      else At(s, i, WLoop(rest[1..])).(data := s.data[s.nwrite % PIPESIZE := rest[0]], nwrite := (s.nwrite + 1) % U32,
                                       accepted := s.accepted + [rest[0]])
    case WWake(rest) => if s.pt == NOBODY then At(s.(pc := WakeAll(s.pc, false)), i, WSleep(rest)) else s
    case WSleep(rest) => if s.pt == NOBODY then At(s, i, WSleepP(rest)).(pt := i) else s
    case WSleepP(rest) => At(s, i, WCommit(rest)).(lk := NOBODY)
    case WCommit(rest) => At(s, i, WAsleep(rest)).(pt := NOBODY)
    case WDone => if s.pt == NOBODY then At(s.(pc := WakeAll(s.pc, false)), i, WRel) else s
    case WRel => At(s, i, Out).(lk := NOBODY)
    case _ => s
  }

  function StepRead(s: State, i: nat): (t: State)
    requires i < |s.pc| && |s.data| == PIPESIZE
    ensures |t.pc| == |s.pc|
  {
    match s.pc[i]
    case RAcq(n) => if s.lk == NOBODY then At(s, i, RTest(n)).(lk := i) else s
    case RTest(n) => At(s, i, if Empty(s.nread, s.nwrite) && s.writeopen then RSleep(n) else RCopy(n))
    case RSleep(n) => if s.pt == NOBODY then At(s, i, RSleepP(n)).(pt := i) else s
    case RSleepP(n) => At(s, i, RCommit(n)).(lk := NOBODY)
    case RCommit(n) => At(s, i, RAsleep(n)).(pt := NOBODY)
    case RCopy(n) =>
      if n == 0 || Empty(s.nread, s.nwrite) then At(s, i, RDone)
      else At(s, i, RCopy(n - 1)).(nread := (s.nread + 1) % U32, delivered := s.delivered + [s.data[s.nread % PIPESIZE]])
    case RDone => if s.pt == NOBODY then At(s.(pc := WakeAll(s.pc, true)), i, RRel) else s
    case RRel => At(s, i, Out).(lk := NOBODY)
    case _ => s
  }

  function StepClose(s: State, i: nat): (t: State)
    requires i < |s.pc| && |s.data| == PIPESIZE
    ensures |t.pc| == |s.pc|
  {
    match s.pc[i]
    case CAcq(writable) =>
      if s.lk != NOBODY then s
      else if writable then At(s, i, CWake(true)).(lk := i, writeopen := false)
      else At(s, i, CWake(false)).(lk := i, readopen := false)
    case CWake(writable) => if s.pt == NOBODY then At(s.(pc := WakeAll(s.pc, !writable)), i, CRel) else s
    case CRel => At(s, i, Out).(lk := NOBODY)
    case _ => s
  }

  /** Calls start only through an open descriptor; the last descriptor of an end is closed only when no call is using it. */
  function Start(s: State, e: Event): State
    requires !e.Act? && e.i < |s.pc|
  {
    if s.pc[e.i] != Out then s
    else match e
    case StartWrite(i, bytes) => if s.wref then At(s, i, WAcq(bytes)) else s
    case StartRead(i, n) => if s.rref then At(s, i, RAcq(n)) else s
    case StartClose(i, true) =>
      if s.wref && forall k :: 0 <= k < |s.pc| ==> !InWrite(s.pc[k]) then At(s, i, CAcq(true)).(wref := false) else s
    case StartClose(i, false) =>
      if s.rref && forall k :: 0 <= k < |s.pc| ==> !InRead(s.pc[k]) then At(s, i, CAcq(false)).(rref := false) else s
    case _ => s
  }

  function Next(s: State, e: Event): State
    requires |s.data| == PIPESIZE
  {
    if e.i >= |s.pc| then s
    else if !e.Act? then Start(s, e)
    else if InWrite(s.pc[e.i]) then StepWrite(s, e.i)
    else if InRead(s.pc[e.i]) then StepRead(s, e.i)
    else StepClose(s, e.i)
  }

  /** pipealloc's state, with n processes. */
  function Outs(n: nat): (r: seq<PC>)
    ensures |r| == n && forall i :: 0 <= i < n ==> r[i] == Out
  {
    if n == 0 then [] else Outs(n - 1) + [Out]
  }

  function Initial(n: nat, data: seq<Byte>): State {
    State(Outs(n), NOBODY, NOBODY, data, 0, 0, true, true, true, true, [], [])
  }

  // ----- the invariant

  predicate OwesWriters(s: State) {
    0 <= s.lk < |s.pc| && var pc := s.pc[s.lk]; pc.RCopy? || pc.RDone? || pc == CWake(false)
  }

  predicate OwesReaders(s: State) {
    0 <= s.lk < |s.pc| && var pc := s.pc[s.lk]; pc.WLoop? || pc.WWake? || pc.WDone? || pc == CWake(true)
  }

  /** The locks are held exactly by the processes at the places that hold them. */
  predicate LocksAt(s: State, i: nat)
    requires i < |s.pc|
  {
    (HoldsLk(s.pc[i]) <==> s.lk == i) && (HoldsPt(s.pc[i]) <==> s.pt == i)
  }

  /** A process that sleeps, or has let go of p->lock to sleep, has reason to, or the holder of p->lock is about to
    * wake it; and one on its way there under p->lock still has reason to.
    */
  predicate WaitsAt(s: State, i: nat)
    requires i < |s.pc|
  {
    var pc := s.pc[i];
    && (pc.WCommit? || pc.WAsleep? ==> (Full(s.nread, s.nwrite) && s.readopen) || OwesWriters(s))
    && (pc.RCommit? || pc.RAsleep? ==> (Empty(s.nread, s.nwrite) && s.writeopen) || OwesReaders(s))
    && (pc.WWake? || pc.WSleep? || pc.WSleepP? ==> Full(s.nread, s.nwrite) && s.readopen)
    && (pc.RSleep? || pc.RSleepP? ==> Empty(s.nread, s.nwrite) && s.writeopen)
  }

  predicate RefsAt(s: State, i: nat)
    requires i < |s.pc|
  {
    && (InWrite(s.pc[i]) ==> s.wref) && (InRead(s.pc[i]) ==> s.rref)
    && (s.pc[i] == CAcq(true) ==> !s.wref) && (s.pc[i] == CAcq(false) ==> !s.rref)
  }

  ghost predicate Inv(s: State) {
    && PipeOk(s.data, s.nread, s.nwrite, s.accepted, s.delivered)
    && NOBODY <= s.lk < |s.pc| && NOBODY <= s.pt < |s.pc|
    && (s.wref ==> s.writeopen) && (s.rref ==> s.readopen)
    && (forall i :: 0 <= i < |s.pc| ==> LocksAt(s, i))
    && (forall i :: 0 <= i < |s.pc| ==> WaitsAt(s, i))
    && (forall i :: 0 <= i < |s.pc| ==> RefsAt(s, i))
  }

  /** What holds of one process. */
  predicate OkAt(s: State, i: nat)
    requires i < |s.pc|
  {
    LocksAt(s, i) && WaitsAt(s, i) && RefsAt(s, i)
  }

  predicate Bounds(s: State) {
    && NOBODY <= s.lk < |s.pc| && NOBODY <= s.pt < |s.pc| && |s.data| == PIPESIZE
    && (s.wref ==> s.writeopen) && (s.rref ==> s.readopen)
  }

  /** A step of i takes a free lock for i, or frees one that i held; another process k at most wakes up. */
  predicate Moved(s: State, t: State, i: nat, k: nat)
    requires |s.pc| == |t.pc| && i < |s.pc| && k < |s.pc|
  {
    && (t.lk == s.lk || (s.lk == NOBODY && t.lk == i) || (s.lk == i && t.lk == NOBODY))
    && (t.pt == s.pt || (s.pt == NOBODY && t.pt == i) || (s.pt == i && t.pt == NOBODY))
    && (k != i ==> (HoldsLk(t.pc[k]) <==> HoldsLk(s.pc[k])) && (HoldsPt(t.pc[k]) <==> HoldsPt(s.pc[k])))
  }

  lemma WokenHolds(pc: PC)
    ensures forall writers :: (HoldsLk(Woken(pc, writers)) <==> HoldsLk(pc)) && (HoldsPt(Woken(pc, writers)) <==> HoldsPt(pc))
  {
  }

  lemma WokenIn(pc: PC)
    ensures forall writers :: (InWrite(Woken(pc, writers)) <==> InWrite(pc)) && (InRead(Woken(pc, writers)) <==> InRead(pc))
    ensures forall writers :: (Woken(pc, writers).CAcq? <==> pc.CAcq?) && (pc.CAcq? ==> Woken(pc, writers) == pc)
  {
  }

  lemma WriteStepLocks(s: State, i: nat, k: nat)
    requires Bounds(s) && i < |s.pc| && k < |s.pc| && OkAt(s, i) && OkAt(s, k) && InWrite(s.pc[i])
    ensures var t := StepWrite(s, i); |t.pc| == |s.pc| && NOBODY <= t.lk < |t.pc| && NOBODY <= t.pt < |t.pc| && LocksAt(t, k)
  {
    WriteStepSelf(s, i);
    WriteStepMoves(s, i, k);
    hide StepWrite, WaitsAt, RefsAt, HoldsLk, HoldsPt;
  }

  lemma WriteStepLk(s: State, i: nat)
    requires Bounds(s) && i < |s.pc| && LocksAt(s, i) && InWrite(s.pc[i])
    ensures var t := StepWrite(s, i); |t.pc| == |s.pc| && (HoldsLk(t.pc[i]) <==> t.lk == i)
  {
    hide Full, Empty, Woken, WakeAll, HoldsPt;
    match s.pc[i] {
      case WAcq(_) =>
      case WLoop(_) =>
      case WWake(_) =>
      case WSleep(_) =>
      case WSleepP(_) =>
      case WCommit(_) =>
      case WDone =>
      case _ =>
    }
  }

  lemma WriteStepPt(s: State, i: nat)
    requires Bounds(s) && i < |s.pc| && LocksAt(s, i) && InWrite(s.pc[i])
    ensures var t := StepWrite(s, i); |t.pc| == |s.pc| && (HoldsPt(t.pc[i]) <==> t.pt == i)
  {
    hide Full, Empty, Woken, WakeAll, HoldsLk;
    match s.pc[i] {
      case WAcq(_) =>
      case WLoop(_) =>
      case WWake(_) =>
      case WSleep(_) =>
      case WSleepP(_) =>
      case WCommit(_) =>
      case WDone =>
      case _ =>
    }
  }

  lemma WriteStepSelf(s: State, i: nat)
    requires Bounds(s) && i < |s.pc| && LocksAt(s, i) && InWrite(s.pc[i])
    ensures var t := StepWrite(s, i); |t.pc| == |s.pc| && LocksAt(t, i)
  {
    WriteStepLk(s, i);
    WriteStepPt(s, i);
    hide StepWrite, HoldsLk, HoldsPt;
  }

  lemma WriteStepMoves(s: State, i: nat, k: nat)
    requires Bounds(s) && i < |s.pc| && k < |s.pc| && LocksAt(s, i) && InWrite(s.pc[i])
    ensures var t := StepWrite(s, i); |t.pc| == |s.pc| && Moved(s, t, i, k)
  {
    hide Full, Empty, Woken, WakeAll;
    WokenHolds(s.pc[k]);
    match s.pc[i] {
      case WAcq(_) =>
      case WLoop(_) =>
      case WWake(_) =>
      case WSleep(_) =>
      case WSleepP(_) =>
      case WCommit(_) =>
      case WDone =>
      case _ =>
    }
  }

  lemma WriteStepWaits(s: State, i: nat, k: nat)
    requires Bounds(s) && i < |s.pc| && k < |s.pc| && OkAt(s, i) && OkAt(s, k) && InWrite(s.pc[i])
    ensures var t := StepWrite(s, i); |t.pc| == |s.pc| && WaitsAt(t, k)
  {
    hide Full, Empty;
    match s.pc[i] {
      case WAcq(_) =>
      case WLoop(_) =>
      case WWake(_) =>
      case WSleep(_) =>
      case WSleepP(_) =>
      case WCommit(_) =>
      case WDone =>
      case _ =>
    }
  }

  lemma WriteStepRefs(s: State, i: nat, k: nat)
    requires Bounds(s) && i < |s.pc| && k < |s.pc| && OkAt(s, i) && OkAt(s, k) && InWrite(s.pc[i])
    ensures var t := StepWrite(s, i); |t.pc| == |s.pc| && (t.wref ==> t.writeopen) && (t.rref ==> t.readopen) && RefsAt(t, k)
  {
    hide Full, Empty, WaitsAt, LocksAt, HoldsLk, HoldsPt, Woken;
    WokenIn(s.pc[k]);
  }

  lemma WriteStepOk(s: State, i: nat, k: nat)
    requires Bounds(s) && i < |s.pc| && k < |s.pc| && OkAt(s, i) && OkAt(s, k) && InWrite(s.pc[i])
    ensures var t := StepWrite(s, i); |t.pc| == |s.pc| && Bounds(t) && OkAt(t, k)
  {
    WriteStepLocks(s, i, k);
    WriteStepWaits(s, i, k);
    WriteStepRefs(s, i, k);
    hide LocksAt, WaitsAt, RefsAt, Full, Empty;
  }

  lemma ReadStepLocks(s: State, i: nat, k: nat)
    requires Bounds(s) && i < |s.pc| && k < |s.pc| && OkAt(s, i) && OkAt(s, k) && InRead(s.pc[i])
    ensures var t := StepRead(s, i); |t.pc| == |s.pc| && NOBODY <= t.lk < |t.pc| && NOBODY <= t.pt < |t.pc| && LocksAt(t, k)
  {
    ReadStepSelf(s, i);
    ReadStepMoves(s, i, k);
    hide StepRead, WaitsAt, RefsAt, HoldsLk, HoldsPt;
  }

  lemma ReadStepSelf(s: State, i: nat)
    requires Bounds(s) && i < |s.pc| && LocksAt(s, i) && InRead(s.pc[i])
    ensures var t := StepRead(s, i); |t.pc| == |s.pc| && LocksAt(t, i)
  {
    hide Full, Empty, Woken;
    match s.pc[i] {
      case RAcq(_) =>
      case RTest(_) =>
      case RSleep(_) =>
      case RSleepP(_) =>
      case RCommit(_) =>
      case RCopy(_) =>
      case RDone =>
      case _ =>
    }
  }

  lemma ReadStepMoves(s: State, i: nat, k: nat)
    requires Bounds(s) && i < |s.pc| && k < |s.pc| && LocksAt(s, i) && InRead(s.pc[i])
    ensures var t := StepRead(s, i); |t.pc| == |s.pc| && Moved(s, t, i, k)
  {
    hide Full, Empty, Woken;
    WokenHolds(s.pc[k]);
    match s.pc[i] {
      case RAcq(_) =>
      case RTest(_) =>
      case RSleep(_) =>
      case RSleepP(_) =>
      case RCommit(_) =>
      case RCopy(_) =>
      case RDone =>
      case _ =>
    }
  }

  lemma ReadStepWaits(s: State, i: nat, k: nat)
    requires Bounds(s) && i < |s.pc| && k < |s.pc| && OkAt(s, i) && OkAt(s, k) && InRead(s.pc[i])
    ensures var t := StepRead(s, i); |t.pc| == |s.pc| && WaitsAt(t, k)
  {
    hide Full, Empty;
    match s.pc[i] {
      case RAcq(_) =>
      case RTest(_) =>
      case RSleep(_) =>
      case RSleepP(_) =>
      case RCommit(_) =>
      case RCopy(_) =>
      case RDone =>
      case _ =>
    }
  }

  lemma ReadStepRefs(s: State, i: nat, k: nat)
    requires Bounds(s) && i < |s.pc| && k < |s.pc| && OkAt(s, i) && OkAt(s, k) && InRead(s.pc[i])
    ensures var t := StepRead(s, i); |t.pc| == |s.pc| && (t.wref ==> t.writeopen) && (t.rref ==> t.readopen) && RefsAt(t, k)
  {
    hide Full, Empty, WaitsAt, LocksAt, HoldsLk, HoldsPt, Woken;
    WokenIn(s.pc[k]);
    match s.pc[i] {
      case RAcq(_) =>
      case RTest(_) =>
      case RSleep(_) =>
      case RSleepP(_) =>
      case RCommit(_) =>
      case RCopy(_) =>
      case RDone =>
      case _ =>
    }
  }

  lemma ReadStepOk(s: State, i: nat, k: nat)
    requires Bounds(s) && i < |s.pc| && k < |s.pc| && OkAt(s, i) && OkAt(s, k) && InRead(s.pc[i])
    ensures var t := StepRead(s, i); |t.pc| == |s.pc| && Bounds(t) && OkAt(t, k)
  {
    ReadStepLocks(s, i, k);
    ReadStepWaits(s, i, k);
    ReadStepRefs(s, i, k);
    hide LocksAt, WaitsAt, RefsAt, Full, Empty;
  }

  lemma CloseStepLocks(s: State, i: nat, k: nat)
    requires Bounds(s) && i < |s.pc| && k < |s.pc| && OkAt(s, i) && OkAt(s, k) && !InWrite(s.pc[i]) && !InRead(s.pc[i])
    ensures var t := StepClose(s, i); |t.pc| == |s.pc| && NOBODY <= t.lk < |t.pc| && NOBODY <= t.pt < |t.pc| && LocksAt(t, k)
  {
    CloseStepSelf(s, i);
    CloseStepMoves(s, i, k);
    hide StepClose, WaitsAt, RefsAt, HoldsLk, HoldsPt;
  }

  lemma CloseStepSelf(s: State, i: nat)
    requires Bounds(s) && i < |s.pc| && LocksAt(s, i) && !InWrite(s.pc[i]) && !InRead(s.pc[i])
    ensures var t := StepClose(s, i); |t.pc| == |s.pc| && LocksAt(t, i)
  {
    hide Full, Empty, Woken;
  }

  lemma CloseStepMoves(s: State, i: nat, k: nat)
    requires Bounds(s) && i < |s.pc| && k < |s.pc| && LocksAt(s, i) && !InWrite(s.pc[i]) && !InRead(s.pc[i])
    ensures var t := StepClose(s, i); |t.pc| == |s.pc| && Moved(s, t, i, k)
  {
    hide Full, Empty, Woken;
    WokenHolds(s.pc[k]);
    match s.pc[i] {
      case CAcq(_) =>
      case CWake(_) =>
      case _ =>
    }
  }

  lemma CloseStepWaits(s: State, i: nat, k: nat)
    requires Bounds(s) && i < |s.pc| && k < |s.pc| && OkAt(s, i) && OkAt(s, k) && !InWrite(s.pc[i]) && !InRead(s.pc[i])
    ensures var t := StepClose(s, i); |t.pc| == |s.pc| && WaitsAt(t, k)
  {
    hide Full, Empty;
    match s.pc[i] {
      case CAcq(_) =>
      case CWake(_) =>
      case _ =>
    }
  }

  /** The end of the pipe a closing process is about to close is no longer held by anybody else. */
  lemma CloseStepEnds(s: State, i: nat)
    requires Bounds(s) && i < |s.pc| && RefsAt(s, i) && !InWrite(s.pc[i]) && !InRead(s.pc[i])
    ensures var t := StepClose(s, i);
      t.wref == s.wref && t.rref == s.rref && (t.wref ==> t.writeopen) && (t.rref ==> t.readopen)
  {
    hide InWrite, InRead, WakeAll;
  }

  lemma CloseStepRefs(s: State, i: nat, k: nat)
    requires Bounds(s) && i < |s.pc| && k < |s.pc| && OkAt(s, i) && OkAt(s, k) && !InWrite(s.pc[i]) && !InRead(s.pc[i])
    ensures var t := StepClose(s, i); |t.pc| == |s.pc| && (t.wref ==> t.writeopen) && (t.rref ==> t.readopen) && RefsAt(t, k)
  {
    hide Full, Empty, WaitsAt, LocksAt, Woken;
    CloseStepEnds(s, i);
    WokenIn(s.pc[k]);
  }

  lemma CloseStepOk(s: State, i: nat, k: nat)
    requires Bounds(s) && i < |s.pc| && k < |s.pc| && OkAt(s, i) && OkAt(s, k) && !InWrite(s.pc[i]) && !InRead(s.pc[i])
    ensures var t := StepClose(s, i); |t.pc| == |s.pc| && Bounds(t) && OkAt(t, k)
  {
    CloseStepLocks(s, i, k);
    CloseStepWaits(s, i, k);
    CloseStepRefs(s, i, k);
    hide LocksAt, WaitsAt, RefsAt, Full, Empty;
  }

  lemma StartLocks(s: State, e: Event, k: nat)
    requires Bounds(s) && !e.Act? && e.i < |s.pc| && k < |s.pc| && OkAt(s, e.i) && OkAt(s, k)
    ensures var t := Start(s, e); |t.pc| == |s.pc| && LocksAt(t, k) && WaitsAt(t, k)
  {
    hide Full, Empty, RefsAt;
  }

  lemma StartRefs(s: State, e: Event, k: nat)
    requires Bounds(s) && !e.Act? && e.i < |s.pc| && k < |s.pc| && OkAt(s, e.i) && OkAt(s, k)
    ensures var t := Start(s, e); |t.pc| == |s.pc| && Bounds(t) && RefsAt(t, k)
  {
    hide LocksAt, WaitsAt;
  }

  lemma StartOk(s: State, e: Event, k: nat)
    requires Bounds(s) && !e.Act? && e.i < |s.pc| && k < |s.pc| && OkAt(s, e.i) && OkAt(s, k)
    ensures var t := Start(s, e); |t.pc| == |s.pc| && Bounds(t) && OkAt(t, k)
  {
    hide Start, Bounds, LocksAt, WaitsAt, RefsAt;
    StartLocks(s, e, k);
    StartRefs(s, e, k);
  }

  /** Only a byte put and a byte taken change the ring. */
  lemma WriteStepRing(s: State, i: nat)
    requires i < |s.pc| && PipeOk(s.data, s.nread, s.nwrite, s.accepted, s.delivered) && InWrite(s.pc[i])
    ensures var t := StepWrite(s, i); PipeOk(t.data, t.nread, t.nwrite, t.accepted, t.delivered)
  {
    if s.pc[i].WLoop? && s.pc[i].rest != [] && !Full(s.nread, s.nwrite) {
      PutOk(s.data, s.nread, s.nwrite, s.accepted, s.delivered, s.pc[i].rest[0]);
    }
    hide PipeOk, Full, Empty;
  }

  lemma ReadStepRing(s: State, i: nat)
    requires i < |s.pc| && PipeOk(s.data, s.nread, s.nwrite, s.accepted, s.delivered) && InRead(s.pc[i])
    ensures var t := StepRead(s, i); PipeOk(t.data, t.nread, t.nwrite, t.accepted, t.delivered)
  {
    if s.pc[i].RCopy? && s.pc[i].n > 0 && !Empty(s.nread, s.nwrite) {
      GetOk(s.data, s.nread, s.nwrite, s.accepted, s.delivered);
    }
    hide PipeOk, Full, Empty;
  }

  lemma PipeStep(s: State, e: Event)
    requires Inv(s) && e.i < |s.pc|
    ensures var t := Next(s, e); PipeOk(t.data, t.nread, t.nwrite, t.accepted, t.delivered)
  {
    hide PipeOk, StepWrite, StepRead, LocksAt, WaitsAt, RefsAt;
    if e.Act? && InWrite(s.pc[e.i]) {
      WriteStepRing(s, e.i);
    } else if e.Act? && InRead(s.pc[e.i]) {
      ReadStepRing(s, e.i);
    }
  }

  /** Every step of every process keeps the invariant. */
  lemma StepKeepsInv(s: State, e: Event)
    requires Inv(s)
    ensures Inv(Next(s, e)) && |Next(s, e).pc| == |s.pc|
  {
    if e.i < |s.pc| {
      PipeStep(s, e);
      hide OkAt, Start, StepWrite, StepRead, StepClose, PipeOk;
      forall k: nat | k < |s.pc|
        ensures |Next(s, e).pc| == |s.pc| && Bounds(Next(s, e)) && OkAt(Next(s, e), k)
      {
        ProcessStepOk(s, e, k);
      }
      ProcessStepOk(s, e, e.i);
      AllOk(Next(s, e));
    }
  }

  lemma ProcessStepOk(s: State, e: Event, k: nat)
    requires Inv(s) && e.i < |s.pc| && k < |s.pc|
    ensures |Next(s, e).pc| == |s.pc| && Bounds(Next(s, e)) && OkAt(Next(s, e), k)
  {
    assert LocksAt(s, k) && LocksAt(s, e.i) && WaitsAt(s, k) && WaitsAt(s, e.i) && RefsAt(s, k) && RefsAt(s, e.i);
    hide Start, StepWrite, StepRead, StepClose, LocksAt, WaitsAt, RefsAt;
    if !e.Act? {
      StartOk(s, e, k);
    } else if InWrite(s.pc[e.i]) {
      WriteStepOk(s, e.i, k);
    } else if InRead(s.pc[e.i]) {
      ReadStepOk(s, e.i, k);
    } else {
      CloseStepOk(s, e.i, k);
    }
  }

  lemma AllOk(s: State)
    requires Bounds(s) && PipeOk(s.data, s.nread, s.nwrite, s.accepted, s.delivered)
    requires forall k: nat :: k < |s.pc| ==> OkAt(s, k)
    ensures Inv(s)
  {
    hide PipeOk;
    forall k: nat | k < |s.pc|
      ensures LocksAt(s, k) && WaitsAt(s, k) && RefsAt(s, k)
    {
      assert OkAt(s, k);
    }
  }

  /** The state after a run. */
  function Run(s: State, es: seq<Event>): (t: State)
    requires Inv(s)
    ensures Inv(t)
    decreases |es|
  {
    if es == [] then s
    else
      StepKeepsInv(s, es[0]);
      Run(Next(s, es[0]), es[1..])
  }

  lemma InitialOk(n: nat, data: seq<Byte>)
    requires |data| == PIPESIZE
    ensures Inv(Initial(n, data))
  {
  }

  // ----- what holds in every reachable state

  /** The stream property and the bound, over all interleavings. */
  lemma PipeOverRuns(n: nat, data: seq<Byte>, es: seq<Event>)
    requires |data| == PIPESIZE
    ensures Inv(Initial(n, data))
    ensures var s := Run(Initial(n, data), es);
      && s.delivered + Buffered(s.data, s.nread, s.nwrite) == s.accepted
      && (s.nwrite - s.nread) % U32 <= PIPESIZE
  {
    InitialOk(n, data);
    var s := Run(Initial(n, data), es);
    StreamIntact(s.data, s.nread, s.nwrite, s.accepted, s.delivered);
    TestsExact(s.data, s.nread, s.nwrite, s.accepted, s.delivered);
  }

  /** No lost wakeup: whenever p->lock is free, whoever sleeps on the pipe has reason to: writers because it is
    * full and can still be read, readers because it is empty and can still be written.  The same goes for a
    * process that has let go of p->lock and is about to be marked SLEEPING.
    */
  lemma NoLostWakeup(n: nat, data: seq<Byte>, es: seq<Event>, i: nat)
    requires |data| == PIPESIZE && i < n
    ensures Inv(Initial(n, data))
    ensures var s := Run(Initial(n, data), es);
      && |s.pc| == n
      && (s.lk == NOBODY && (s.pc[i].WAsleep? || s.pc[i].WCommit?) ==>
            |s.accepted| - |s.delivered| == PIPESIZE && s.readopen)
      && (s.lk == NOBODY && (s.pc[i].RAsleep? || s.pc[i].RCommit?) ==> s.accepted == s.delivered && s.writeopen)
  {
    InitialOk(n, data);
    RunLength(Initial(n, data), es);
    var s := Run(Initial(n, data), es);
    assert WaitsAt(s, i);
    TestsExact(s.data, s.nread, s.nwrite, s.accepted, s.delivered);
  }

  lemma {:induction false} RunLength(s: State, es: seq<Event>)
    requires Inv(s)
    ensures |Run(s, es).pc| == |s.pc|
    decreases |es|
  {
    if es != [] {
      StepKeepsInv(s, es[0]);
      RunLength(Next(s, es[0]), es[1..]);
    }
  }

  /** In no run do two processes hold p->lock, or two ptable.lock. */
  lemma MutualExclusion(n: nat, data: seq<Byte>, es: seq<Event>, i: nat, j: nat)
    requires |data| == PIPESIZE && i < n && j < n
    ensures Inv(Initial(n, data))
    ensures var s := Run(Initial(n, data), es);
      && |s.pc| == n
      && (HoldsLk(s.pc[i]) && HoldsLk(s.pc[j]) ==> i == j)
      && (HoldsPt(s.pc[i]) && HoldsPt(s.pc[j]) ==> i == j)
  {
    InitialOk(n, data);
    RunLength(Initial(n, data), es);
    var s := Run(Initial(n, data), es);
    assert LocksAt(s, i) && LocksAt(s, j);
  }

  // ----- what becomes of the bytes of one call of write

  /** A state with the writer of each accepted byte and, for each process, its last call of pipewrite: the bytes it was
    * given and how many bytes the pipe had accepted when it started.
    */
  datatype Traced = Traced(s: State, writer: seq<nat>, given: seq<seq<Byte>>, since: seq<nat>)

  predicate StartsWrite(s: State, e: Event) {
    e.StartWrite? && e.i < |s.pc| && s.pc[e.i] == Out && s.wref
  }

  function NextTraced(t: Traced, e: Event): Traced
    requires |t.s.data| == PIPESIZE && |t.given| == |t.since| == |t.s.pc|
  {
    var s := Next(t.s, e);
    var writer := if |s.accepted| > |t.s.accepted| then t.writer + [e.i] else t.writer;
    if StartsWrite(t.s, e) then Traced(s, writer, t.given[e.i := e.bytes], t.since[e.i := |t.s.accepted|])
    else Traced(s, writer, t.given, t.since)
  }

  /** Of the bytes accepted from position since on, those process i put. */
  function Mine(accepted: seq<Byte>, writer: seq<nat>, since: nat, i: nat): seq<Byte>
    requires |writer| == |accepted|
    decreases |accepted|
  {
    var n := |accepted| - 1;
    if n < since then [] else Mine(accepted[..n], writer[..n], since, i) + (if writer[n] == i then [accepted[n]] else [])
  }

  lemma MineMore(accepted: seq<Byte>, writer: seq<nat>, since: nat, i: nat, b: Byte, k: nat)
    requires |writer| == |accepted| && since <= |accepted|
    ensures Mine(accepted + [b], writer + [k], since, i) == Mine(accepted, writer, since, i) + if k == i then [b] else []
  {
    assert (accepted + [b])[..|accepted|] == accepted && (writer + [k])[..|writer|] == writer;
  }

  /** The bytes still to be written by a process before it has done with them. */
  predicate Writing(pc: PC) {
    pc.WAcq? || pc.WLoop? || pc.WWake? || pc.WSleep? || pc.WSleepP? || pc.WCommit? || pc.WAsleep?
  }

  /** The bytes process i has had accepted are the first of those given, all but the ones it still holds; it leaves
    * the loop with all of them accepted, unless the read end is closed.
    */
  predicate CallAt(t: Traced, i: nat)
    requires i < |t.s.pc| == |t.given| == |t.since| && |t.writer| == |t.s.accepted|
  {
    var pc, mine := t.s.pc[i], Mine(t.s.accepted, t.writer, t.since[i], i);
    && (InWrite(pc) ==> t.since[i] <= |t.s.accepted|)
    && (Writing(pc) ==> mine + pc.rest == t.given[i])
    && (pc.WDone? ==> mine == t.given[i])
    && (pc.WRel? ==> mine <= t.given[i] && (mine == t.given[i] || !t.s.readopen))
  }

  ghost predicate TracedOk(t: Traced) {
    && Inv(t.s) && |t.given| == |t.since| == |t.s.pc| && |t.writer| == |t.s.accepted|
    && forall i :: 0 <= i < |t.s.pc| ==> CallAt(t, i)
  }

  /** A step of writer i that puts a byte. */
  predicate Puts(s: State, t: State, i: nat)
    requires i < |s.pc|
  {
    && s.pc[i].WLoop? && s.pc[i].rest != [] && t.accepted == s.accepted + [s.pc[i].rest[0]]
    && t.pc == s.pc[i := WLoop(s.pc[i].rest[1..])]
  }

  /** A step of i that puts none keeps the bytes it holds, and it gives them up only when no reader is left. */
  predicate Holds(s: State, t: State, i: nat)
    requires i < |s.pc|
  {
    && t.accepted == s.accepted && |t.pc| == |s.pc|
    && var pc, pc' := s.pc[i], t.pc[i];
       && (Writing(pc') ==> Writing(pc) && pc'.rest == pc.rest)
       && (pc'.WDone? ==> pc.WDone? || (pc.WLoop? && pc.rest == []))
       && (pc'.WRel? ==> pc.WRel? || pc.WDone? || (pc.WLoop? && !t.readopen))
  }

  /** Another process at most wakes up, and the read end never opens again. */
  predicate Others(s: State, t: State, i: nat, k: nat) {
    && |t.pc| == |s.pc| && (t.readopen ==> s.readopen)
    && (k != i && k < |s.pc| ==>
          t.pc[k] == s.pc[k] || t.pc[k] == Woken(s.pc[k], true) || t.pc[k] == Woken(s.pc[k], false))
  }

  lemma WriteOwn(s: State, i: nat)
    requires i < |s.pc| && |s.data| == PIPESIZE && InWrite(s.pc[i])
    ensures var t := StepWrite(s, i); (Puts(s, t, i) || Holds(s, t, i))
  {
    hide Full, Woken;
    match s.pc[i] {
      case WAcq(_) =>
      case WLoop(_) =>
      case WWake(_) =>
      case WSleep(_) =>
      case WSleepP(_) =>
      case WCommit(_) =>
      case WDone =>
      case _ =>
    }
  }

  lemma WriteOthers(s: State, i: nat, k: nat)
    requires i < |s.pc| && |s.data| == PIPESIZE && InWrite(s.pc[i])
    ensures Others(s, StepWrite(s, i), i, k)
  {
    hide Full, Woken;
    match s.pc[i] {
      case WAcq(_) =>
      case WLoop(_) =>
      case WWake(_) =>
      case WSleep(_) =>
      case WSleepP(_) =>
      case WCommit(_) =>
      case WDone =>
      case _ =>
    }
  }

  lemma ReadGoes(s: State, i: nat)
    requires i < |s.pc| && |s.data| == PIPESIZE && InRead(s.pc[i])
    ensures var t := StepRead(s, i); t.accepted == s.accepted && |t.pc| == |s.pc| && (t.pc[i] == Out || InRead(t.pc[i]))
  {
    hide Full, Empty, Woken;
    match s.pc[i] {
      case RAcq(_) =>
      case RTest(_) =>
      case RSleep(_) =>
      case RSleepP(_) =>
      case RCommit(_) =>
      case RCopy(_) =>
      case RDone =>
      case _ =>
    }
  }

  lemma ReadOwn(s: State, i: nat)
    requires i < |s.pc| && |s.data| == PIPESIZE && InRead(s.pc[i])
    ensures Holds(s, StepRead(s, i), i)
  {
    hide StepRead;
    ReadGoes(s, i);
  }

  lemma ReadOthers(s: State, i: nat, k: nat)
    requires i < |s.pc| && |s.data| == PIPESIZE && InRead(s.pc[i])
    ensures Others(s, StepRead(s, i), i, k)
  {
    hide Full, Empty, Woken;
    match s.pc[i] {
      case RAcq(_) =>
      case RTest(_) =>
      case RSleep(_) =>
      case RSleepP(_) =>
      case RCommit(_) =>
      case RCopy(_) =>
      case RDone =>
      case _ =>
    }
  }

  lemma CloseOwn(s: State, i: nat)
    requires i < |s.pc| && |s.data| == PIPESIZE && !InWrite(s.pc[i]) && !InRead(s.pc[i])
    ensures var t := StepClose(s, i); Holds(s, t, i)
  {
    hide Woken;
    match s.pc[i] {
      case CAcq(_) =>
      case CWake(_) =>
      case _ =>
    }
  }

  lemma CloseOthers(s: State, i: nat, k: nat)
    requires i < |s.pc| && |s.data| == PIPESIZE && !InWrite(s.pc[i]) && !InRead(s.pc[i])
    ensures Others(s, StepClose(s, i), i, k)
  {
    hide Woken;
    match s.pc[i] {
      case CAcq(_) =>
      case CWake(_) =>
      case _ =>
    }
  }

  lemma StartCall(s: State, e: Event, k: nat)
    requires !e.Act? && e.i < |s.pc|
    ensures Others(s, Start(s, e), e.i, k)
    ensures var t := Start(s, e);
      if StartsWrite(s, e) then t.accepted == s.accepted && t.pc[e.i] == WAcq(e.bytes) else Holds(s, t, e.i)
  {
    hide Woken, InWrite, InRead;
  }

  lemma NextCall(s: State, e: Event, k: nat)
    requires |s.data| == PIPESIZE && e.i < |s.pc|
    ensures Others(s, Next(s, e), e.i, k)
    ensures var t := Next(s, e);
      if StartsWrite(s, e) then |t.pc| == |s.pc| && t.accepted == s.accepted && t.pc[e.i] == WAcq(e.bytes)
      else Holds(s, t, e.i) || Puts(s, t, e.i)
  {
    hide Holds, Puts, Start, StepWrite, StepRead, StepClose, InWrite, InRead;
    if !e.Act? {
      StartCall(s, e, k);
    } else if InWrite(s.pc[e.i]) {
      WriteOwn(s, e.i);
      WriteOthers(s, e.i, k);
    } else if InRead(s.pc[e.i]) {
      ReadOwn(s, e.i);
      ReadOthers(s, e.i, k);
    } else {
      CloseOwn(s, e.i);
      CloseOthers(s, e.i, k);
    }
  }

  /** A process whose bytes stay where they are: it was woken, or took a step that puts none. */
  lemma CallKept(t: Traced, t': Traced, i: nat)
    requires i < |t.s.pc| == |t.given| == |t.since| && |t.writer| == |t.s.accepted| && CallAt(t, i)
    requires i < |t'.s.pc| == |t'.given| == |t'.since| && |t'.writer| == |t'.s.accepted| >= |t.s.accepted|
    requires t'.given[i] == t.given[i] && t'.since[i] == t.since[i] && (t'.s.readopen ==> t.s.readopen)
    requires InWrite(t.s.pc[i]) ==> Mine(t'.s.accepted, t'.writer, t.since[i], i) == Mine(t.s.accepted, t.writer, t.since[i], i)
    requires var pc, pc' := t.s.pc[i], t'.s.pc[i];
      && (Writing(pc') ==> Writing(pc) && pc'.rest == pc.rest)
      && (pc'.WDone? ==> pc.WDone? || (pc.WLoop? && pc.rest == []))
      && (pc'.WRel? ==> pc.WRel? || pc.WDone? || (pc.WLoop? && !t'.s.readopen))
    ensures CallAt(t', i)
  {
    hide Mine;
  }

  lemma WokenKeeps(pc: PC, writers: bool)
    ensures var pc' := Woken(pc, writers); (Writing(pc') ==> Writing(pc) && pc'.rest == pc.rest)
    ensures (Woken(pc, writers).WDone? ==> pc.WDone?) && (Woken(pc, writers).WRel? ==> pc.WRel?)
  {
  }

  lemma PutKeeps(t: Traced, t': Traced, i: nat, e: nat)
    requires e < |t.s.pc| && i < |t.s.pc| == |t.given| == |t.since| && |t.writer| == |t.s.accepted| && CallAt(t, i)
    requires Puts(t.s, t'.s, e) && t'.writer == t.writer + [e] && t'.given == t.given && t'.since == t.since
    requires t'.s.readopen ==> t.s.readopen
    ensures CallAt(t', i)
  {
    if t.since[i] <= |t.s.accepted| {
      MineMore(t.s.accepted, t.writer, t.since[i], i, t.s.pc[e].rest[0], e);
    }
    hide Mine;
    if i == e {
      var pc := t.s.pc[i];
      assert [pc.rest[0]] + pc.rest[1..] == pc.rest;
    } else {
      CallKept(t, t', i);
    }
  }

  lemma InvData(s: State)
    requires Inv(s)
    ensures |s.data| == PIPESIZE
  {
  }

  lemma CallStep(t: Traced, e: Event, i: nat)
    requires TracedOk(t) && i < |t.s.pc| && e.i < |t.s.pc|
    ensures var t' := NextTraced(t, e); |t'.s.pc| == |t.s.pc| && |t'.writer| == |t'.s.accepted| && CallAt(t', i)
  {
    hide Next, Inv, Full, Empty, Mine, Woken, Writing, InWrite;
    InvData(t.s);
    assert CallAt(t, i);
    NextCall(t.s, e, i);
    var t' := NextTraced(t, e);
    WokenKeeps(t.s.pc[i], true);
    WokenKeeps(t.s.pc[i], false);
    if StartsWrite(t.s, e) && i == e.i {
      StartedCall(t', i);
    } else if Puts(t.s, t'.s, e.i) {
      PutKeeps(t, t', i, e.i);
    } else {
      CallKept(t, t', i);
    }
  }

  lemma StartedCall(t: Traced, i: nat)
    requires i < |t.s.pc| == |t.given| == |t.since| && |t.writer| == |t.s.accepted| == t.since[i]
    requires t.s.pc[i] == WAcq(t.given[i])
    ensures CallAt(t, i)
  {
    assert Mine(t.s.accepted, t.writer, t.since[i], i) == [];
  }

  lemma NoProcess(t: Traced, e: Event)
    requires TracedOk(t) && e.i >= |t.s.pc|
    ensures NextTraced(t, e) == t
  {
    hide Inv, CallAt;
    InvData(t.s);
  }

  lemma TracedStep(t: Traced, e: Event)
    requires TracedOk(t)
    ensures |t.s.data| == PIPESIZE && TracedOk(NextTraced(t, e)) && |NextTraced(t, e).s.pc| == |t.s.pc|
  {
    hide Next, Inv, CallAt;
    InvData(t.s);
    if e.i >= |t.s.pc| {
      NoProcess(t, e);
    } else {
      StepKeepsInv(t.s, e);
      CallStep(t, e, e.i);
      forall i: nat | i < |t.s.pc|
        ensures CallAt(NextTraced(t, e), i)
      {
        CallStep(t, e, i);
      }
    }
  }

  function RunTraced(t: Traced, es: seq<Event>): (r: Traced)
    requires TracedOk(t)
    ensures TracedOk(r) && |r.s.pc| == |t.s.pc|
    decreases |es|
  {
    if es == [] then t
    else
      TracedStep(t, es[0]);
      RunTraced(NextTraced(t, es[0]), es[1..])
  }

  lemma {:induction false} TracedRuns(t: Traced, es: seq<Event>)
    requires TracedOk(t)
    ensures RunTraced(t, es).s == Run(t.s, es)
    decreases |es|
  {
    if es != [] {
      TracedStep(t, es[0]);
      TracedRuns(NextTraced(t, es[0]), es[1..]);
    }
  }

  predicate Intact(t: Traced, i: nat)
    requires i < |t.s.pc| == |t.given| == |t.since| && |t.writer| == |t.s.accepted|
  {
    var pc, mine := t.s.pc[i], Mine(t.s.accepted, t.writer, t.since[i], i);
    && (Writing(pc) ==> mine + pc.rest == t.given[i])
    && (pc.WRel? ==> mine <= t.given[i] && (mine == t.given[i] || !t.s.readopen))
  }

  /** In every run, whatever the other processes do: the bytes a call of write has had accepted, followed by those
    * it still holds, are the bytes it was given; a call that has done is short only when no reader is left.
    */
  lemma CallsIntact(n: nat, data: seq<Byte>, es: seq<Event>, i: nat)
    requires |data| == PIPESIZE && i < n
    ensures Inv(Initial(n, data))
    ensures var t0 := Traced(Initial(n, data), [], seq(n, _ => []), seq(n, _ => 0));
      TracedOk(t0) && RunTraced(t0, es).s == Run(Initial(n, data), es) && Intact(RunTraced(t0, es), i)
  {
    InitialOk(n, data);
    var t0 := Traced(Initial(n, data), [], seq(n, _ => []), seq(n, _ => 0));
    TracedRuns(t0, es);
    assert CallAt(RunTraced(t0, es), i);
  }
}
