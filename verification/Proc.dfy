/** The process table of proc.c: fork, exit, wait, sleep, wakeup and kill as steps under ptable.lock.
  *
  * Processes are numbered by their place in the table; NOPROC is the null pointer.  Each pure function below
  * gives the table after one critical section; class Ptable runs the same table scans as loops.
  */
module Proc {

  const NPROC: nat := 64
  const NOPROC: int := -1
  const INIT: nat := 0

  datatype PState = UNUSED | EMBRYO | SLEEPING | RUNNABLE | RUNNING | ZOMBIE

  /** A sleep channel: none, the address of a process (wait), or any other address. */
  datatype Chan = NoChan | OnProc(p: nat) | OnOther(c: nat)

  datatype Proc = Proc(state: PState, pid: nat, parent: int, chan: Chan, killed: bool)

  predicate Alive(p: Proc) {
    p.state == SLEEPING || p.state == RUNNABLE || p.state == RUNNING
  }

  // ----- one critical section each, process by process

  /** wakeup1(chan) on one process. */
  function WokenAt(p: Proc, chan: Chan): Proc {
    if p.state == SLEEPING && p.chan == chan then p.(state := RUNNABLE) else p
  }

  /** The channel wakeup1(curproc->parent) wakes. */
  function ChanOf(parent: int): Chan {
    if parent >= 0 then OnProc(parent) else NoChan
  }

  predicate ZombieKidOf(p: Proc, i: nat) {
    p.parent == i && p.state == ZOMBIE
  }

  ghost predicate HasZombieKid(t: seq<Proc>, i: nat) {
    exists k :: 0 <= k < |t| && ZombieKidOf(t[k], i)
  }

  predicate KidOf(p: Proc, i: nat) {
    p.parent == i
  }

  ghost predicate HasKid(t: seq<Proc>, i: nat) {
    exists k :: 0 <= k < |t| && KidOf(t[k], i)
  }

  /** Process k after process i has exited: the parent is woken, children go to init, which is woken if one of
    * them is a zombie, and i becomes a zombie.
    */
  ghost function ExitedAt(t: seq<Proc>, i: nat, k: nat): Proc
    requires i < |t| && k < |t|
  {
    var p := WokenAt(t[k], ChanOf(t[i].parent));
    var q := if HasZombieKid(t, i) then WokenAt(p, OnProc(INIT)) else p;
    var r := if q.parent == i then q.(parent := INIT) else q;
    if k == i then r.(state := ZOMBIE) else r
  }

  /** What wait leaves of a reaped zombie. */
  function Reaped(p: Proc): Proc {
    p.(pid := 0, parent := NOPROC, killed := false, state := UNUSED)
  }

  predicate FirstUnused(t: seq<Proc>, np: nat) {
    np < |t| && t[np].state == UNUSED && forall k :: 0 <= k < np ==> t[k].state != UNUSED
  }

  predicate FirstZombieKid(t: seq<Proc>, i: nat, z: nat) {
    z < |t| && ZombieKidOf(t[z], i) && forall k :: 0 <= k < z ==> !ZombieKidOf(t[k], i)
  }

  predicate FirstWithPid(t: seq<Proc>, pid: nat, z: nat) {
    z < |t| && t[z].pid == pid && forall k :: 0 <= k < z ==> t[k].pid != pid
  }

  // ----- the table scans

  class Ptable {
    const proc: array<Proc>
    var nextpid: nat

    ghost predicate Valid()
      reads this
    {
      proc.Length == NPROC
    }

    constructor ()
      ensures Valid() && nextpid == 1 && fresh(proc)
      ensures forall k :: 0 <= k < NPROC ==> proc[k] == Proc(UNUSED, 0, NOPROC, NoChan, false)
    {
      proc := new Proc[NPROC](_ => Proc(UNUSED, 0, NOPROC, NoChan, false));
      nextpid := 1;
    }

    method Wakeup1(chan: Chan)
      requires Valid()
      modifies proc
      ensures forall k :: 0 <= k < NPROC ==> proc[k] == WokenAt(old(proc[k]), chan)
      ensures forall k :: 0 <= k < NPROC ==> !(proc[k].state == SLEEPING && proc[k].chan == chan)
      ensures forall k :: 0 <= k < NPROC && old(proc[k]).state == SLEEPING && old(proc[k]).chan == chan ==>
        proc[k] == old(proc[k]).(state := RUNNABLE)
      ensures forall k :: 0 <= k < NPROC && !(old(proc[k]).state == SLEEPING && old(proc[k]).chan == chan) ==>
        proc[k] == old(proc[k])
    {
      var p := 0;
      while p < NPROC
        invariant 0 <= p <= NPROC
        invariant forall k :: 0 <= k < p ==> proc[k] == WokenAt(old(proc[k]), chan)
        invariant forall k :: p <= k < NPROC ==> proc[k] == old(proc[k])
      {
        if proc[p].state == SLEEPING && proc[p].chan == chan {
          proc[p] := proc[p].(state := RUNNABLE);
        }
        p := p + 1;
      }
    }

    /** allocproc up to the release of the lock. */
    method Allocproc() returns (np: int)
      requires Valid()
      modifies proc, this`nextpid
      ensures np == NOPROC ==> proc[..] == old(proc[..]) && nextpid == old(nextpid)
      ensures np == NOPROC ==> forall k :: 0 <= k < NPROC ==> proc[k].state != UNUSED
      ensures np != NOPROC ==> 0 <= np < NPROC && FirstUnused(old(proc[..]), np) && nextpid == old(nextpid) + 1
      ensures np != NOPROC ==> proc[..] == old(proc[..])[np := old(proc[np]).(state := EMBRYO, pid := old(nextpid))]
    {
      var p := 0;
      while p < NPROC
        invariant 0 <= p <= NPROC && proc[..] == old(proc[..]) && nextpid == old(nextpid)
        invariant forall k :: 0 <= k < p ==> proc[k].state != UNUSED
      {
        if proc[p].state == UNUSED {
          proc[p] := proc[p].(state := EMBRYO, pid := nextpid);
          nextpid := nextpid + 1;
          return p;
        }
        p := p + 1;
      }
      return NOPROC;
    }

    /** exit from acquire(&ptable.lock) on; "init exiting" is a precondition. */
    method Exit(i: nat)
      requires Valid() && i < NPROC && i != INIT && proc[i].state == RUNNING
      modifies proc
      ensures forall k :: 0 <= k < NPROC ==> proc[k] == ExitedAt(old(proc[..]), i, k)
      ensures proc[i].state == ZOMBIE
      ensures forall k :: 0 <= k < NPROC ==>
        proc[k].(state := UNUSED) == old(proc[k]).(parent := if old(proc[k]).parent == i then INIT else old(proc[k]).parent, state := UNUSED)
      ensures forall k :: 0 <= k < NPROC && k != i ==>
        proc[k].state == if old(proc[k]).state == SLEEPING
                            && ((old(proc[i]).parent >= 0 && old(proc[k]).chan == OnProc(old(proc[i]).parent))
                                || (old(proc[i]).parent < 0 && old(proc[k]).chan == NoChan)
                                || (old(proc[k]).chan == OnProc(INIT)
                                    && exists z :: 0 <= z < NPROC && old(proc[..])[z].parent == i && old(proc[..])[z].state == ZOMBIE))
                         then RUNNABLE else old(proc[k]).state
    {
      ghost var t := proc[..];
      Wakeup1(ChanOf(proc[i].parent));
      var p := 0;
      ghost var zombie := false;
      while p < NPROC
        invariant 0 <= p <= NPROC
        invariant zombie <==> exists k :: 0 <= k < p && ZombieKidOf(t[k], i)
        invariant forall k :: 0 <= k < NPROC ==> proc[k] == ExitingAt(t, i, k, p, zombie)
      {
        if proc[p].parent == i {
          proc[p] := proc[p].(parent := INIT);
          if proc[p].state == ZOMBIE {
            Wakeup1(OnProc(INIT));
            zombie := true;
            assert ZombieKidOf(t[p], i);
          }
        }
        p := p + 1;
      }
      proc[i] := proc[i].(state := ZOMBIE);
    }

    /** One pass of wait's loop: the zombie reaped, or -1, or asleep. */
    method WaitPass(i: nat) returns (pid: int, asleep: bool)
      requires Valid() && i < NPROC && proc[i].state == RUNNING
      modifies proc
      ensures HasZombieKid(old(proc[..]), i) ==>
        !asleep && (exists z: nat :: FirstZombieKid(old(proc[..]), i, z) && pid == old(proc[..])[z].pid
                                     && proc[..] == old(proc[..])[z := Reaped(old(proc[..])[z])]
                                     && old(proc[..])[z].parent == i && old(proc[..])[z].state == ZOMBIE
                                     && proc[z].state == UNUSED && proc[z].pid == 0 && proc[z].parent == NOPROC)
      ensures !HasZombieKid(old(proc[..]), i) && (!HasKid(old(proc[..]), i) || old(proc[i]).killed) ==>
        !asleep && pid == -1 && proc[..] == old(proc[..])
      ensures !HasZombieKid(old(proc[..]), i) && HasKid(old(proc[..]), i) && !old(proc[i]).killed ==>
        asleep && proc[..] == old(proc[..])[i := old(proc[i]).(chan := OnProc(i), state := SLEEPING)]
    {
      asleep := false;
      ghost var t := proc[..];
      var havekids, p := false, 0;
      while p < NPROC
        invariant 0 <= p <= NPROC && proc[..] == t && !asleep
        invariant havekids <==> exists k :: 0 <= k < p && KidOf(t[k], i)
        invariant forall k :: 0 <= k < p ==> !ZombieKidOf(t[k], i)
      {
        if proc[p].parent == i {
          assert KidOf(t[p], i);
          havekids := true;
          if proc[p].state == ZOMBIE {
            assert FirstZombieKid(t, i, p);
            pid := proc[p].pid;
            proc[p] := proc[p].(pid := 0, parent := NOPROC, killed := false, state := UNUSED);
            return;
          }
        }
        p := p + 1;
      }
      if !havekids || proc[i].killed {
        return -1, false;
      }
      proc[i] := proc[i].(chan := OnProc(i), state := SLEEPING);
      return 0, true;
    }

    /** kill. */
    method Kill(pid: nat) returns (found: bool)
      requires Valid()
      modifies proc
      ensures found <==> exists k :: 0 <= k < NPROC && old(proc[k]).pid == pid
      ensures !found ==> proc[..] == old(proc[..])
      ensures found ==> (exists k: nat :: FirstWithPid(old(proc[..]), pid, k)
                                          && proc[..] == old(proc[..])[k := KilledAt(old(proc[..])[k])])
      ensures forall k :: 0 <= k < NPROC ==>
        var first := old(proc[k]).pid == pid && forall j :: 0 <= j < k ==> old(proc[j]).pid != pid;
        && proc[k].killed == (old(proc[k]).killed || first)
        && proc[k].state == (if first && old(proc[k]).state == SLEEPING then RUNNABLE else old(proc[k]).state)
    {
      var p := 0;
      while p < NPROC
        invariant 0 <= p <= NPROC && proc[..] == old(proc[..])
        invariant forall k :: 0 <= k < p ==> proc[k].pid != pid
      {
        if proc[p].pid == pid {
          assert FirstWithPid(old(proc[..]), pid, p);
          proc[p] := proc[p].(killed := true);
          if proc[p].state == SLEEPING {
            proc[p] := proc[p].(state := RUNNABLE);
          }
          return true;
        }
        p := p + 1;
      }
      return false;
    }
  }

  /** Process k when exit's loop has reached p; zombie says whether a zombie child has been seen. */
  ghost function ExitingAt(t: seq<Proc>, i: nat, k: nat, p: nat, zombie: bool): Proc
    requires i < |t| && k < |t|
  {
    var a := WokenAt(t[k], ChanOf(t[i].parent));
    var b := if zombie then WokenAt(a, OnProc(INIT)) else a;
    if k < p && b.parent == i then b.(parent := INIT) else b
  }

  /** kill's effect on the process it finds. */
  function KilledAt(p: Proc): Proc {
    if p.state == SLEEPING then p.(killed := true, state := RUNNABLE) else p.(killed := true)
  }
}
