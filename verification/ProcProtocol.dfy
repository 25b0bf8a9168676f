/**
 fork, exit, wait, kill and the scheduler of proc.c as a state machine over the process table.
 One step is a stretch under one p->lock, so the stretches that hold wait_lock, as in exit and
 wait, take many steps, and so does each scan of wakeup; steps of other processes come between them.
 */
module ProcProtocol {
  import opened Basics

  const NPROC: nat := 64
  const INIT: nat := 0   // the slot of initproc, the first that allocproc hands out

  datatype PState = UNUSED | USED | SLEEPING | RUNNABLE | RUNNING | ZOMBIE

  /** sleep is on the address of a process, which only wait uses, or on something else. */
  datatype Chan = WaitOf(p: nat) | Other(c: nat)

  datatype Proc = Proc(state: PState, parent: Option<nat>, chan: Option<Chan>, killed: bool, xstate: int, pid: nat)

  const FREEPROC: Proc := Proc(UNUSED, None, None, false, 0, 0)

  /** Where a process is between its steps. at and turn count over the table, turn in the loop of
      wakeup; seen is the last child that the scan of wait met. */
  datatype Doing =
    | Idle
    | ForkAllocated(np: nat)
    | ForkParented(np: nat)
    | WaitScans(at: nat, seen: Option<nat>)
    | WaitSleeps(kid: nat)                               // about to sleep
    | WaitAsleep(kid: nat)
    | ExitReparents(at: nat, status: int)
    | ExitWakesInit(at: nat, turn: nat, status: int)     // in reparent
    | ExitWakes(turn: nat, status: int)                  // its parent

  /** passed and reaped record, by pid, the argument of exit and what wait returned; forker the
      process that allocated a slot. */
  datatype State = State(
    procs: seq<Proc>, doing: seq<Doing>, lock: Option<nat>, nextpid: nat,
    forker: seq<nat>, passed: map<nat, int>, reaped: map<nat, int>, repeated: bool)

  predicate Sized(s: State) {
    |s.procs| == NPROC && |s.doing| == NPROC && |s.forker| == NPROC
  }

  predicate Alive(p: Proc) {
    p.state == SLEEPING || p.state == RUNNABLE || p.state == RUNNING
  }

  /** Between taking and releasing wait_lock, fork apart. */
  predicate Holding(d: Doing) {
    d.WaitScans? || d.WaitSleeps? || d.ExitReparents? || d.ExitWakesInit? || d.ExitWakes?
  }

  predicate Exiting(d: Doing) {
    d.ExitReparents? || d.ExitWakesInit? || d.ExitWakes?
  }

  /** The turn of wakeup, called by process me, for slot k. */
  function WakeOne(procs: seq<Proc>, c: Chan, me: nat, k: nat): (r: seq<Proc>)
    requires k < |procs|
    ensures |r| == |procs|
  {
    if k != me && procs[k].state == SLEEPING && procs[k].chan == Some(c) then procs[k := procs[k].(state := RUNNABLE)] else procs
  }

  // ---- steps --------------------------------------------------------------------------------

  predicate Runs(s: State, i: nat) {
    Sized(s) && i < NPROC && s.procs[i].state == RUNNING
  }

  /** Process i runs and is between system calls, or in a part of one that is not modelled. */
  predicate Ready(s: State, i: nat) {
    Runs(s, i) && s.doing[i] == Idle
  }

  ghost predicate Sched(s: State, t: State, i: nat) {
    && Sized(s) && i < NPROC && s.procs[i].state == RUNNABLE
    && t == s.(procs := s.procs[i := s.procs[i].(state := RUNNING, chan := None)])
  }

  /** Interrupts are off while a lock is held. */
  ghost predicate Yield(s: State, t: State, i: nat) {
    && Runs(s, i) && s.lock != Some(i)
    && t == s.(procs := s.procs[i := s.procs[i].(state := RUNNABLE)])
  }

  ghost predicate SleepElsewhere(s: State, t: State, i: nat, c: nat) {
    && Ready(s, i)
    && t == s.(procs := s.procs[i := s.procs[i].(state := SLEEPING, chan := Some(Other(c)))])
  }

  ghost predicate WakeElsewhere(s: State, t: State, c: nat, me: nat, k: nat) {
    Sized(s) && k < NPROC && t == s.(procs := WakeOne(s.procs, Other(c), me, k))
  }

  ghost predicate Kill(s: State, t: State, i: nat) {
    && Sized(s) && i < NPROC
    && t == s.(procs := s.procs[i := s.procs[i].(killed := true,
                 state := if s.procs[i].state == SLEEPING then RUNNABLE else s.procs[i].state)])
  }

  /** allocproc and the copying, under the new process's lock. */
  ghost predicate ForkAlloc(s: State, t: State, i: nat, np: nat) {
    && Ready(s, i) && np < NPROC && s.procs[np].state == UNUSED
    && t == s.(procs := s.procs[np := s.procs[np].(pid := s.nextpid, state := USED)], nextpid := s.nextpid + 1,
               doing := s.doing[i := ForkAllocated(np)], forker := s.forker[np := i])
  }

  /** No memory: the slot is given back under the same lock, the pid is lost. */
  ghost predicate ForkFails(s: State, t: State, i: nat, np: nat) {
    && Ready(s, i) && np < NPROC && s.procs[np].state == UNUSED
    && t == s.(procs := s.procs[np := FREEPROC], nextpid := s.nextpid + 1)
  }

  ghost predicate ForkParent(s: State, t: State, i: nat) {
    && Runs(s, i) && s.doing[i].ForkAllocated? && s.lock == None && s.doing[i].np < NPROC
    && var np := s.doing[i].np;
       t == s.(procs := s.procs[np := s.procs[np].(parent := Some(i))], doing := s.doing[i := ForkParented(np)])
  }

  ghost predicate ForkRun(s: State, t: State, i: nat) {
    && Runs(s, i) && s.doing[i].ForkParented? && s.doing[i].np < NPROC
    && var np := s.doing[i].np;
       t == s.(procs := s.procs[np := s.procs[np].(state := RUNNABLE)], doing := s.doing[i := Idle])
  }

  ghost predicate ExitLock(s: State, t: State, i: nat, status: int) {
    && Ready(s, i) && i != INIT && s.lock == None
    && t == s.(lock := Some(i), doing := s.doing[i := ExitReparents(0, status)],
               passed := s.passed[s.procs[i].pid := status])
  }

  /** A turn of reparent: a child goes to initproc, which is then to be woken. */
  ghost predicate ExitReparent(s: State, t: State, i: nat) {
    && Runs(s, i) && s.doing[i].ExitReparents? && s.doing[i].at < NPROC
    && var n, status := s.doing[i].at, s.doing[i].status;
       t == if s.procs[n].parent == Some(i)
            then s.(procs := s.procs[n := s.procs[n].(parent := Some(INIT))], doing := s.doing[i := ExitWakesInit(n, 0, status)])
            else s.(doing := s.doing[i := ExitReparents(n + 1, status)])
  }

  /** A turn of wakeup(initproc), or its return to reparent. */
  ghost predicate ExitWakeInit(s: State, t: State, i: nat) {
    && Runs(s, i) && s.doing[i].ExitWakesInit?
    && var n, k, status := s.doing[i].at, s.doing[i].turn, s.doing[i].status;
       t == if k < NPROC
            then s.(procs := WakeOne(s.procs, WaitOf(INIT), i, k), doing := s.doing[i := ExitWakesInit(n, k + 1, status)])
            else s.(doing := s.doing[i := ExitReparents(n + 1, status)])
  }

  /** The end of reparent, or a turn of wakeup(p->parent). */
  ghost predicate ExitWake(s: State, t: State, i: nat) {
    && Runs(s, i) && s.procs[i].parent.Some?
    && match s.doing[i]
       case ExitReparents(at, status) => at == NPROC && t == s.(doing := s.doing[i := ExitWakes(0, status)])
       case ExitWakes(k, status) =>
         && k < NPROC
         && t == s.(procs := WakeOne(s.procs, WaitOf(s.procs[i].parent.value), i, k), doing := s.doing[i := ExitWakes(k + 1, status)])
       case _ => false
  }

  ghost predicate ExitZombie(s: State, t: State, i: nat) {
    && Runs(s, i) && s.doing[i].ExitWakes? && s.doing[i].turn == NPROC
    && t == s.(procs := s.procs[i := s.procs[i].(xstate := s.doing[i].status, state := ZOMBIE)],
               doing := s.doing[i := Idle], lock := None)
  }

  /** wait takes wait_lock at its start, and again when sleep returns. */
  ghost predicate WaitLock(s: State, t: State, i: nat) {
    && Runs(s, i) && (s.doing[i].Idle? || s.doing[i].WaitAsleep?) && s.lock == None
    && t == s.(lock := Some(i), doing := s.doing[i := WaitScans(0, None)])
  }

  /** One turn of the scan; copied is false when the status cannot be copied out. */
  ghost predicate WaitScan(s: State, t: State, i: nat, copied: bool) {
    && Runs(s, i) && s.doing[i].WaitScans? && s.doing[i].at < NPROC
    && var k := s.doing[i].at;
       if s.procs[k].parent != Some(i) then
         t == s.(doing := s.doing[i := WaitScans(k + 1, s.doing[i].seen)])
       else if s.procs[k].state != ZOMBIE then
         t == s.(doing := s.doing[i := WaitScans(k + 1, Some(k))])
       else if !copied then
         t == s.(lock := None, doing := s.doing[i := Idle])
       else
         t == s.(procs := s.procs[k := FREEPROC], lock := None, doing := s.doing[i := Idle],
                 repeated := s.repeated || s.procs[k].pid in s.reaped,
                 reaped := s.reaped[s.procs[k].pid := s.procs[k].xstate])
  }

  /** After the scan: give up without children or when killed. */
  ghost predicate WaitEnds(s: State, t: State, i: nat) {
    && Runs(s, i) && s.doing[i].WaitScans? && s.doing[i].at == NPROC
    && t == if s.doing[i].seen.None? || s.procs[i].killed then s.(lock := None, doing := s.doing[i := Idle])
            else s.(doing := s.doing[i := WaitSleeps(s.doing[i].seen.value)])
  }

  /** sleep lets wait_lock go once it has the lock of the process. */
  ghost predicate WaitSleep(s: State, t: State, i: nat) {
    && Runs(s, i) && s.doing[i].WaitSleeps?
    && t == s.(lock := None, doing := s.doing[i := WaitAsleep(s.doing[i].kid)],
               procs := s.procs[i := s.procs[i].(state := SLEEPING, chan := Some(WaitOf(i)))])
  }

  ghost predicate Step(s: State, t: State) {
    || (exists i :: Sched(s, t, i) || Yield(s, t, i) || Kill(s, t, i))
    || (exists i, c :: SleepElsewhere(s, t, i, c))
    || (exists c, me, k :: WakeElsewhere(s, t, c, me, k))
    || (exists i, np :: ForkAlloc(s, t, i, np))
    || (exists i, np :: ForkFails(s, t, i, np))
    || (exists i :: ForkParent(s, t, i) || ForkRun(s, t, i))
    || (exists i, status :: ExitLock(s, t, i, status))
    || (exists i :: ExitReparent(s, t, i) || ExitWakeInit(s, t, i) || ExitWake(s, t, i) || ExitZombie(s, t, i))
    || (exists i, copied :: WaitScan(s, t, i, copied))
    || (exists i :: WaitLock(s, t, i) || WaitEnds(s, t, i) || WaitSleep(s, t, i))
  }

  /** After userinit: initproc is ready to run. */
  ghost predicate Init(s: State) {
    && Sized(s) && s.lock == None && s.nextpid == 2 && s.passed == map[] && s.reaped == map[] && !s.repeated
    && s.procs[INIT] == Proc(RUNNABLE, None, None, false, 0, 1)
    && (forall k :: 0 <= k < NPROC && k != INIT ==> s.procs[k] == FREEPROC)
    && (forall k :: 0 <= k < NPROC ==> s.doing[k] == Idle)
  }

  // ---- the invariant ------------------------------------------------------------------------

  /** The parent of slot k is alive, and whoever lives has one. */
  ghost predicate FamilyAt(s: State, k: nat)
    requires Sized(s) && k < NPROC
  {
    var p := s.procs[k];
    && (p.parent.Some? ==> p.parent.value < NPROC && Alive(s.procs[p.parent.value]))
    && ((Alive(p) || p.state == ZOMBIE) && k != INIT ==> p.parent.Some?)
    && (k == INIT ==> p.parent.None? && Alive(p))
    && (p.state == UNUSED ==> p.parent.None?)
  }

  /** No zombie is a child of i among the first n slots. */
  ghost predicate NoZombieBelow(s: State, i: nat, n: nat)
    requires Sized(s) && n <= NPROC
  {
    forall k {:trigger s.procs[k]} :: 0 <= k < n && s.procs[k].parent == Some(i) ==> s.procs[k].state != ZOMBIE
  }

  ghost predicate ChildlessBelow(s: State, i: nat, n: nat)
    requires Sized(s) && n <= NPROC
  {
    forall k {:trigger s.procs[k]} :: 0 <= k < n ==> s.procs[k].parent != Some(i)
  }

  ghost predicate SleepsInWait(s: State, i: nat)
    requires Sized(s) && i < NPROC
  {
    s.procs[i].state == SLEEPING && s.doing[i].WaitAsleep?
  }

  /** An exiting process has just given a child to initproc, and its wakeup has not come to initproc yet. */
  ghost predicate Adopting(s: State)
    requires Sized(s)
  {
    s.lock.Some? && s.lock.value < NPROC && s.doing[s.lock.value].ExitWakesInit? && s.doing[s.lock.value].turn <= INIT
  }

  ghost predicate DoingAt(s: State, i: nat)
    requires Sized(s) && i < NPROC
  {
    var p := s.procs[i];
    && (!Alive(p) ==> s.doing[i] == Idle)
    && match s.doing[i]
       case Idle => true
       case ForkAllocated(np) =>
         p.state != SLEEPING && np < NPROC && s.forker[np] == i && s.procs[np].state == USED && s.procs[np].parent == None
       case ForkParented(np) =>
         p.state != SLEEPING && np < NPROC && s.forker[np] == i && s.procs[np].state == USED && s.procs[np].parent == Some(i)
       case WaitScans(n, kid) =>
         && s.lock == Some(i) && p.state == RUNNING && n <= NPROC && NoZombieBelow(s, i, n)
         && (kid.Some? ==> kid.value < NPROC && s.procs[kid.value].parent == Some(i))
       case WaitSleeps(kid) =>
         s.lock == Some(i) && p.state == RUNNING && NoZombieBelow(s, i, NPROC) && kid < NPROC && s.procs[kid].parent == Some(i)
       case WaitAsleep(kid) =>
         && kid < NPROC && s.procs[kid].parent == Some(i)
         && (p.state == SLEEPING ==> p.chan == Some(WaitOf(i)) && (NoZombieBelow(s, i, NPROC) || (i == INIT && Adopting(s))))
       case ExitReparents(n, status) =>
         && s.lock == Some(i) && p.state == RUNNING && i != INIT && n <= NPROC && ChildlessBelow(s, i, n)
       case ExitWakesInit(n, k, status) =>
         s.lock == Some(i) && p.state == RUNNING && i != INIT && n < NPROC && k <= NPROC && ChildlessBelow(s, i, n + 1)
       case ExitWakes(k, status) =>
         && s.lock == Some(i) && p.state == RUNNING && i != INIT && k <= NPROC && ChildlessBelow(s, i, NPROC)
         && p.parent.Some? && p.parent.value < NPROC && (p.parent.value < k ==> !SleepsInWait(s, p.parent.value))
  }

  /** A pid names one process, and its status reaches wait once. */
  ghost predicate PidAt(s: State, k: nat)
    requires Sized(s) && k < NPROC
  {
    var p := s.procs[k];
    p.state != UNUSED ==>
      && 0 < p.pid < s.nextpid && p.pid !in s.reaped
      && (p.state == ZOMBIE ==> p.pid in s.passed && s.passed[p.pid] == p.xstate)
      && (Exiting(s.doing[k]) ==> p.pid in s.passed && s.passed[p.pid] == s.doing[k].status)
  }

  ghost predicate Pids(s: State)
    requires Sized(s)
  {
    && (forall k: nat :: k < NPROC ==> PidAt(s, k))
    && (forall k, l :: 0 <= k < l < NPROC && s.procs[k].state != UNUSED && s.procs[l].state != UNUSED ==>
          s.procs[k].pid != s.procs[l].pid)
    && !s.repeated
    && (forall pid: nat :: pid in s.reaped ==> pid < s.nextpid && pid in s.passed && s.passed[pid] == s.reaped[pid])
  }

  ghost predicate Families(s: State)
    requires Sized(s)
  {
    forall k: nat :: k < NPROC ==> FamilyAt(s, k)
  }

  /** A new slot that has a parent already is the one its parent is making in fork. */
  ghost predicate BirthAt(s: State, k: nat)
    requires Sized(s) && k < NPROC
  {
    var p := s.procs[k];
    p.state == USED && p.parent.Some? ==> p.parent.value < NPROC && s.doing[p.parent.value] == ForkParented(k)
  }

  ghost predicate Births(s: State)
    requires Sized(s)
  {
    forall k: nat :: k < NPROC ==> BirthAt(s, k)
  }

  ghost predicate Doings(s: State)
    requires Sized(s)
  {
    forall i: nat :: i < NPROC ==> DoingAt(s, i)
  }

  ghost predicate Inv(s: State) {
    Sized(s) && Families(s) && Doings(s) && Births(s) && Pids(s)
  }

  lemma InitInv(s: State)
    requires Init(s)
    ensures Inv(s)
  {
  }

  // ---- steps of the scheduler, of sleep and wakeup elsewhere, and of kill ----------------------

  /** A change of process k that such steps make. */
  predicate NudgedAt(s: State, t: State, k: nat)
    requires Sized(s) && Sized(t) && k < NPROC
  {
    var p, q := s.procs[k], t.procs[k];
    && q.parent == p.parent && q.pid == p.pid && q.xstate == p.xstate
    && (q.state == p.state
        || (p.state == SLEEPING && q.state == RUNNABLE)
        || (p.state == RUNNABLE && q.state == RUNNING)
        || (p.state == RUNNING && q.state == RUNNABLE && s.lock != Some(k))
        || (p.state == RUNNING && q.state == SLEEPING && s.doing[k] == Idle))
    && (q.state == SLEEPING && p.state == SLEEPING ==> q.chan == p.chan)
  }

  ghost predicate Nudged(s: State, t: State) {
    && Sized(s) && Sized(t) && t == s.(procs := t.procs)
    && forall k: nat :: k < NPROC ==> NudgedAt(s, t, k)
  }

  lemma NudgedKin(s: State, t: State)
    requires Nudged(s, t)
    ensures forall k: nat {:trigger t.procs[k]} :: k < NPROC ==> t.procs[k].parent == s.procs[k].parent && (Alive(t.procs[k]) <==> Alive(s.procs[k]))
    ensures forall k: nat {:trigger t.procs[k]} :: k < NPROC && !Alive(s.procs[k]) ==> t.procs[k].state == s.procs[k].state
  {
    forall k: nat | k < NPROC
      ensures t.procs[k].parent == s.procs[k].parent && (Alive(t.procs[k]) <==> Alive(s.procs[k]))
      ensures !Alive(s.procs[k]) ==> t.procs[k].state == s.procs[k].state
    {
      assert NudgedAt(s, t, k);
    }
  }

  lemma NudgedSame(s: State, t: State)
    requires Nudged(s, t) && Inv(s)
    ensures Families(t) && Pids(t)
  {
    hide Doings;
    NudgedKin(s, t);
    forall k: nat | k < NPROC ensures FamilyAt(t, k) { assert FamilyAt(s, k); }
    forall k: nat | k < NPROC ensures PidAt(t, k) && t.procs[k].pid == s.procs[k].pid {
      assert PidAt(s, k) && NudgedAt(s, t, k);
    }
  }

  lemma NudgedKeeps(s: State, t: State)
    requires Inv(s) && Nudged(s, t)
    ensures Inv(t)
  {
    NudgedSame(s, t);
    NudgedKin(s, t);
    assert Births(t) by {
      forall k: nat | k < NPROC ensures t.procs[k].state == USED ==> s.procs[k].state == USED { assert NudgedAt(s, t, k); }
      SameBirths(s, t);
    }
    hide Births;
    forall i: nat | i < NPROC ensures DoingAt(t, i) {
      hide Pids, Families;
      assert DoingAt(s, i) && NudgedAt(s, t, i);
      if s.doing[i].ExitWakes? { assert NudgedAt(s, t, s.procs[i].parent.value); }
    }
  }

  lemma SmallStepKeeps(s: State, t: State)
    requires Inv(s)
    requires (exists i :: Sched(s, t, i) || Yield(s, t, i) || Kill(s, t, i))
             || (exists i, c :: SleepElsewhere(s, t, i, c)) || (exists c, me, k :: WakeElsewhere(s, t, c, me, k))
    ensures Inv(t)
  {
    assert Nudged(s, t) by {
      forall k: nat | k < NPROC ensures NudgedAt(s, t, k) {}
    }
    NudgedKeeps(s, t);
  }

  // ---- fork -----------------------------------------------------------------------------------

  lemma ForkAllocDoings(s: State, t: State, i: nat, np: nat)
    requires Inv(s) && ForkAlloc(s, t, i, np)
    ensures Sized(t) && Doings(t)
  {
    assert FamilyAt(s, np) && FamilyAt(s, i) && DoingAt(s, np) && FamilyAt(s, INIT);
    hide Pids, Births, Families;
    forall k: nat | k < NPROC ensures DoingAt(t, k) { assert DoingAt(s, k); }
  }

  lemma ForkAllocKeeps(s: State, t: State, i: nat, np: nat)
    requires Inv(s) && ForkAlloc(s, t, i, np)
    ensures Inv(t)
  {
    ForkAllocDoings(s, t, i, np);
    assert PidAt(s, INIT) && FamilyAt(s, np) && FamilyAt(s, i) && FamilyAt(s, INIT) && DoingAt(s, np);
    hide Doings;
    FreshPid(s, t, np);
    hide Pids;
    SameBirths(s, t);
    hide Births;
    forall k: nat | k < NPROC ensures FamilyAt(t, k) { assert FamilyAt(s, k); }
  }

  lemma ForkFailsDoings(s: State, t: State, i: nat, np: nat)
    requires Inv(s) && ForkFails(s, t, i, np)
    ensures Sized(t) && Doings(t)
  {
    assert FamilyAt(s, np) && FamilyAt(s, i) && DoingAt(s, np) && FamilyAt(s, INIT);
    hide Pids, Births, Families;
    forall k: nat | k < NPROC ensures DoingAt(t, k) { assert DoingAt(s, k); }
  }

  lemma ForkFailsKeeps(s: State, t: State, i: nat, np: nat)
    requires Inv(s) && ForkFails(s, t, i, np)
    ensures Inv(t)
  {
    ForkFailsDoings(s, t, i, np);
    assert PidAt(s, INIT) && FamilyAt(s, np) && FamilyAt(s, i) && FamilyAt(s, INIT) && DoingAt(s, np);
    hide Doings;
    FreshPid(s, t, np);
    hide Pids;
    SameBirths(s, t);
    hide Births;
    forall k: nat | k < NPROC ensures FamilyAt(t, k) { assert FamilyAt(s, k); }
  }

  /** Slot np gets the next pid, or stays unused. */
  lemma FreshPid(s: State, t: State, np: nat)
    requires Sized(s) && Sized(t) && Pids(s) && np < NPROC && t.nextpid == s.nextpid + 1 && s.nextpid > 0
    requires t.procs == s.procs[np := t.procs[np]]
    requires t.procs[np].state == UNUSED || (t.procs[np].state == USED && t.procs[np].pid == s.nextpid && !Exiting(t.doing[np]))
    requires t.reaped == s.reaped && t.passed == s.passed && t.repeated == s.repeated
    requires forall k :: 0 <= k < NPROC ==> t.doing[k] == s.doing[k] || !Exiting(t.doing[k])
    ensures Pids(t)
  {
    assert s.nextpid !in s.reaped;
    forall k: nat | k < NPROC ensures PidAt(t, k) && (k != np && t.procs[k].state != UNUSED ==> t.procs[k].pid < s.nextpid) {
      assert PidAt(s, k);
    }
  }

  /** Pids is about the pids, the zombies and the statuses of the exiting. */
  lemma SamePids(s: State, t: State)
    requires Sized(s) && Sized(t) && Pids(s)
    requires t.nextpid == s.nextpid && t.passed == s.passed && t.reaped == s.reaped && t.repeated == s.repeated
    requires forall k: nat {:trigger t.procs[k]} :: k < NPROC ==>
               && t.procs[k].pid == s.procs[k].pid && t.procs[k].xstate == s.procs[k].xstate
               && (t.procs[k].state == UNUSED <==> s.procs[k].state == UNUSED)
               && (t.procs[k].state == ZOMBIE <==> s.procs[k].state == ZOMBIE)
    requires forall k: nat {:trigger t.doing[k]} :: k < NPROC && Exiting(t.doing[k]) ==>
               Exiting(s.doing[k]) && t.doing[k].status == s.doing[k].status
    ensures Pids(t)
  {
    forall k: nat | k < NPROC ensures PidAt(t, k) && t.procs[k].pid == s.procs[k].pid { assert PidAt(s, k); }
  }

  lemma SameBirths(s: State, t: State)
    requires Sized(s) && Sized(t) && Births(s)
    requires forall k: nat {:trigger t.procs[k]} :: k < NPROC && t.procs[k].state == USED ==>
               t.procs[k].parent == None || (s.procs[k].state == USED && t.procs[k].parent == s.procs[k].parent)
    requires forall j: nat {:trigger t.doing[j]} :: j < NPROC && s.doing[j].ForkParented? ==> t.doing[j] == s.doing[j]
    ensures Births(t)
  {
    forall k: nat | k < NPROC ensures BirthAt(t, k) { assert BirthAt(s, k); }
  }

  lemma SameFamilies(s: State, t: State)
    requires Sized(s) && Sized(t) && Families(s)
    requires forall k: nat {:trigger t.procs[k]} :: k < NPROC ==>
               && t.procs[k].parent == s.procs[k].parent && (Alive(t.procs[k]) <==> Alive(s.procs[k]))
               && (t.procs[k].state == UNUSED <==> s.procs[k].state == UNUSED)
               && (t.procs[k].state == ZOMBIE <==> s.procs[k].state == ZOMBIE)
    ensures Families(t)
  {
    forall k: nat | k < NPROC ensures FamilyAt(t, k) { assert FamilyAt(s, k); }
  }

  lemma ForkParentKeeps(s: State, t: State, i: nat)
    requires Inv(s) && ForkParent(s, t, i)
    ensures Inv(t)
  {
    var np := s.doing[i].np;
    assert DoingAt(s, i) && DoingAt(s, np);
    SamePids(s, t);
    forall k: nat | k < NPROC ensures BirthAt(t, k) { assert BirthAt(s, k); }
    hide Pids, Births;
    forall k: nat | k < NPROC ensures FamilyAt(t, k) { assert FamilyAt(s, k); }
    forall k: nat | k < NPROC ensures DoingAt(t, k) { assert DoingAt(s, k); }
  }

  lemma ForkRunDoings(s: State, t: State, i: nat)
    requires Inv(s) && ForkRun(s, t, i)
    ensures Sized(t) && Doings(t)
  {
    assert DoingAt(s, i) && DoingAt(s, s.doing[i].np);
    hide Pids, Births, Families;
    forall k: nat | k < NPROC ensures DoingAt(t, k) { assert DoingAt(s, k); }
  }

  lemma ForkRunKeeps(s: State, t: State, i: nat)
    requires Inv(s) && ForkRun(s, t, i)
    ensures Inv(t)
  {
    var np := s.doing[i].np;
    assert DoingAt(s, i) && DoingAt(s, np) && FamilyAt(s, np) && FamilyAt(s, INIT);
    ForkRunDoings(s, t, i);
    hide Doings;
    SamePids(s, t);
    hide Pids;
    forall k: nat | k < NPROC ensures BirthAt(t, k) { assert BirthAt(s, k); }
    hide Births;
    forall k: nat | k < NPROC ensures FamilyAt(t, k) { assert FamilyAt(s, k); }
  }

  // ---- exit -----------------------------------------------------------------------------------

  lemma ExitLockKeeps(s: State, t: State, i: nat, status: int)
    requires Inv(s) && ExitLock(s, t, i, status)
    ensures Inv(t)
  {
    assert DoingAt(s, i) && PidAt(s, i);
    SameBirths(s, t);
    hide Births;
    forall k: nat | k < NPROC ensures FamilyAt(t, k) { assert FamilyAt(s, k); }
    forall k: nat | k < NPROC ensures DoingAt(t, k) { assert DoingAt(s, k); }
    forall k: nat | k < NPROC ensures PidAt(t, k) { assert PidAt(s, k); }
  }

  lemma ExitReparentKeeps(s: State, t: State, i: nat)
    requires Inv(s) && ExitReparent(s, t, i)
    ensures Inv(t)
  {
    var n := s.doing[i].at;
    assert DoingAt(s, i);
    if s.procs[n].parent == Some(i) {
      assert BirthAt(s, n);
      SameBirths(s, t);
      hide Families, Doings, Pids, Births;
      SamePids(s, t);
      AdoptFamilies(s, t, i, n);
      AdoptDoings(s, t, i, n);
    } else {
      hide Families, Doings, Pids, Births;
      TurnKeeps(s, t, i);
    }
  }

  ghost predicate Adopts(s: State, t: State, i: nat, n: nat) {
    && Runs(s, i) && s.doing[i].ExitReparents? && s.doing[i].at == n < NPROC && s.procs[n].parent == Some(i)
    && t == s.(procs := s.procs[n := s.procs[n].(parent := Some(INIT))],
               doing := s.doing[i := ExitWakesInit(n, 0, s.doing[i].status)])
  }

  /** Giving slot n to initproc, which may be asleep: its wakeup is under way. */
  lemma AdoptDoings(s: State, t: State, i: nat, n: nat)
    requires Adopts(s, t, i, n) && Doings(s)
    ensures Doings(t)
  {
    assert DoingAt(s, i) && DoingAt(s, INIT);
    forall k: nat | k < NPROC ensures DoingAt(t, k) { assert DoingAt(s, k); }
  }

  lemma AdoptFamilies(s: State, t: State, i: nat, n: nat)
    requires Adopts(s, t, i, n) && Families(s)
    ensures Families(t)
  {
    assert FamilyAt(s, INIT) && FamilyAt(s, n);
    forall k: nat | k < NPROC ensures FamilyAt(t, k) { assert FamilyAt(s, k); }
  }

  lemma WakeOneNudges(s: State, c: Chan, me: nat, k: nat)
    requires Sized(s) && k < NPROC
    ensures Nudged(s, s.(procs := WakeOne(s.procs, c, me, k)))
  {
    var t := s.(procs := WakeOne(s.procs, c, me, k));
    forall j: nat | j < NPROC ensures NudgedAt(s, t, j) {}
  }

  lemma ExitWakeInitKeeps(s: State, t: State, i: nat)
    requires Inv(s) && ExitWakeInit(s, t, i)
    ensures Inv(t)
  {
    var k := s.doing[i].turn;
    var u := if k < NPROC then s.(procs := WakeOne(s.procs, WaitOf(INIT), i, k)) else s;
    assert Inv(u) by {
      if k < NPROC {
        WakeOneNudges(s, WaitOf(INIT), i, k);
        NudgedKeeps(s, u);
      }
    }
    assert DoingAt(s, i) && DoingAt(s, INIT);
    TurnKeeps(u, t, i);
  }

  /** The loop counter of an exiting process moves on. */
  lemma TurnKeeps(u: State, t: State, i: nat)
    requires Inv(u) && Runs(u, i) && Sized(t) && t == u.(doing := u.doing[i := t.doing[i]])
    requires Exiting(u.doing[i]) && Exiting(t.doing[i])
    requires t.doing[i].status == u.doing[i].status && DoingAt(t, i)
    requires Adopting(u) ==> !SleepsInWait(u, INIT) || Adopting(t)
    ensures Inv(t)
  {
    assert DoingAt(u, i);
    SameBirths(u, t);
    hide Families, Pids, Births;
    SamePids(u, t);
    SameFamilies(u, t);
    forall k: nat | k < NPROC ensures DoingAt(t, k) { assert DoingAt(u, k); }
  }

  lemma ExitWakeKeeps(s: State, t: State, i: nat)
    requires Inv(s) && ExitWake(s, t, i)
    ensures Inv(t)
  {
    assert DoingAt(s, i) && FamilyAt(s, i);
    var j := s.procs[i].parent.value;
    var u := if s.doing[i].ExitWakes? then s.(procs := WakeOne(s.procs, WaitOf(j), i, s.doing[i].turn)) else s;
    assert Inv(u) by {
      if s.doing[i].ExitWakes? {
        WakeOneNudges(s, WaitOf(j), i, s.doing[i].turn);
        NudgedKeeps(s, u);
      }
    }
    assert DoingAt(s, j);
    TurnKeeps(u, t, i);
  }

  lemma ExitZombieKeeps(s: State, t: State, i: nat)
    requires Inv(s) && ExitZombie(s, t, i)
    ensures Inv(t)
  {
    assert DoingAt(s, i) && FamilyAt(s, i) && PidAt(s, i);
    SameBirths(s, t);
    hide Births;
    forall k: nat | k < NPROC ensures FamilyAt(t, k) { assert FamilyAt(s, k); }
    forall k: nat | k < NPROC ensures DoingAt(t, k) { assert DoingAt(s, k); }
    forall k: nat | k < NPROC ensures PidAt(t, k) { assert PidAt(s, k); }
  }

  // ---- wait -----------------------------------------------------------------------------------

  lemma WaitLockKeeps(s: State, t: State, i: nat)
    requires Inv(s) && WaitLock(s, t, i)
    ensures Inv(t)
  {
    assert DoingAt(s, i);
    SameBirths(s, t);
    hide Families, Pids, Births;
    SamePids(s, t);
    SameFamilies(s, t);
    forall k: nat | k < NPROC ensures DoingAt(t, k) { assert DoingAt(s, k); }
  }

  lemma WaitScanKeeps(s: State, t: State, i: nat, copied: bool)
    requires Inv(s) && WaitScan(s, t, i, copied)
    ensures Inv(t)
  {
    var n := s.doing[i].at;
    if s.procs[n].parent == Some(i) && s.procs[n].state == ZOMBIE && copied {
      ReapKeeps(s, t, i);
    } else {
      assert DoingAt(s, i);
      SameBirths(s, t);
      hide Families, Pids, Births;
      SamePids(s, t);
      SameFamilies(s, t);
      ScanGoesOn(s, t, i);
    }
  }

  lemma ScanGoesOn(s: State, t: State, i: nat)
    requires Sized(s) && Doings(s) && Runs(s, i) && s.doing[i].WaitScans? && s.doing[i].at < NPROC
    requires var d, n := s.doing[i], s.doing[i].at;
             || t == s.(lock := None, doing := s.doing[i := Idle])
             || (t == s.(doing := s.doing[i := WaitScans(n + 1, d.seen)]) && s.procs[n].parent != Some(i))
             || (t == s.(doing := s.doing[i := WaitScans(n + 1, Some(n))]) && s.procs[n].parent == Some(i) && s.procs[n].state != ZOMBIE)
    ensures Doings(t)
  {
    assert DoingAt(s, i);
    forall k: nat | k < NPROC ensures DoingAt(t, k) { assert DoingAt(s, k); }
  }

  lemma ReapKeeps(s: State, t: State, i: nat)
    requires Inv(s) && WaitScan(s, t, i, true)
    requires s.procs[s.doing[i].at].parent == Some(i) && s.procs[s.doing[i].at].state == ZOMBIE
    ensures Inv(t)
  {
    var n := s.doing[i].at;
    assert DoingAt(s, i) && FamilyAt(s, n) && FamilyAt(s, INIT) && DoingAt(s, n);
    SameBirths(s, t);
    hide Births;
    assert Pids(t) by {
      hide Families, Doings;
      assert PidAt(s, n);
      forall k: nat | k < NPROC ensures PidAt(t, k) { assert PidAt(s, k); }
    }
    hide Pids;
    forall k: nat | k < NPROC ensures FamilyAt(t, k) { assert FamilyAt(s, k); }
    forall k: nat | k < NPROC ensures DoingAt(t, k) { assert DoingAt(s, k) && FamilyAt(s, k); }
  }

  lemma WaitEndsKeeps(s: State, t: State, i: nat)
    requires Inv(s) && (WaitEnds(s, t, i) || WaitSleep(s, t, i))
    ensures Inv(t)
  {
    assert DoingAt(s, i);
    SameBirths(s, t);
    hide Families, Pids, Births;
    SamePids(s, t);
    SameFamilies(s, t);
    forall k: nat | k < NPROC ensures DoingAt(t, k) { assert DoingAt(s, k); }
  }

  // ---- every run ------------------------------------------------------------------------------

  lemma ForkKeeps(s: State, t: State)
    requires Inv(s)
    requires (exists i, np :: ForkAlloc(s, t, i, np)) || (exists i, np :: ForkFails(s, t, i, np))
             || (exists i :: ForkParent(s, t, i) || ForkRun(s, t, i))
    ensures Inv(t)
  {
    hide Inv;
    if i, np :| ForkAlloc(s, t, i, np) { ForkAllocKeeps(s, t, i, np); }
    else if i, np :| ForkFails(s, t, i, np) { ForkFailsKeeps(s, t, i, np); }
    else {
      var i :| ForkParent(s, t, i) || ForkRun(s, t, i);
      if ForkParent(s, t, i) { ForkParentKeeps(s, t, i); } else { ForkRunKeeps(s, t, i); }
    }
  }

  lemma ExitKeeps(s: State, t: State)
    requires Inv(s)
    requires (exists i, status :: ExitLock(s, t, i, status))
             || (exists i :: ExitReparent(s, t, i) || ExitWakeInit(s, t, i) || ExitWake(s, t, i) || ExitZombie(s, t, i))
    ensures Inv(t)
  {
    hide Inv;
    if i, status :| ExitLock(s, t, i, status) { ExitLockKeeps(s, t, i, status); }
    else {
      var i :| ExitReparent(s, t, i) || ExitWakeInit(s, t, i) || ExitWake(s, t, i) || ExitZombie(s, t, i);
      if ExitReparent(s, t, i) { ExitReparentKeeps(s, t, i); }
      else if ExitWakeInit(s, t, i) { ExitWakeInitKeeps(s, t, i); }
      else if ExitWake(s, t, i) { ExitWakeKeeps(s, t, i); }
      else { ExitZombieKeeps(s, t, i); }
    }
  }

  lemma WaitKeeps(s: State, t: State)
    requires Inv(s)
    requires (exists i, copied :: WaitScan(s, t, i, copied)) || (exists i :: WaitLock(s, t, i) || WaitEnds(s, t, i) || WaitSleep(s, t, i))
    ensures Inv(t)
  {
    hide Inv;
    if i, copied :| WaitScan(s, t, i, copied) { WaitScanKeeps(s, t, i, copied); }
    else {
      var i :| WaitLock(s, t, i) || WaitEnds(s, t, i) || WaitSleep(s, t, i);
      if WaitLock(s, t, i) { WaitLockKeeps(s, t, i); } else { WaitEndsKeeps(s, t, i); }
    }
  }

  lemma StepKeeps(s: State, t: State)
    requires Inv(s) && Step(s, t)
    ensures Inv(t)
  {
    hide Inv, Sched, Yield, Kill, SleepElsewhere, WakeElsewhere, ForkAlloc, ForkFails, ForkParent, ForkRun;
    hide ExitLock, ExitReparent, ExitWakeInit, ExitWake, ExitZombie, WaitScan, WaitLock, WaitEnds, WaitSleep;
    if (exists i :: Sched(s, t, i) || Yield(s, t, i) || Kill(s, t, i))
       || (exists i, c :: SleepElsewhere(s, t, i, c)) || (exists c, me, k :: WakeElsewhere(s, t, c, me, k)) {
      SmallStepKeeps(s, t);
    } else if (exists i, np :: ForkAlloc(s, t, i, np)) || (exists i, np :: ForkFails(s, t, i, np))
              || (exists i :: ForkParent(s, t, i) || ForkRun(s, t, i)) {
      ForkKeeps(s, t);
    } else if (exists i, status :: ExitLock(s, t, i, status))
              || (exists i :: ExitReparent(s, t, i) || ExitWakeInit(s, t, i) || ExitWake(s, t, i) || ExitZombie(s, t, i)) {
      ExitKeeps(s, t);
    } else {
      WaitKeeps(s, t);
    }
  }

  ghost predicate StepAt(run: seq<State>, k: nat)
    requires k + 1 < |run|
  {
    Step(run[k], run[k + 1])
  }

  ghost predicate IsRun(run: seq<State>) {
    run != [] && Init(run[0]) && forall k :: 0 <= k < |run| - 1 ==> StepAt(run, k)
  }

  lemma {:induction false} RunKeeps(run: seq<State>, k: nat)
    requires IsRun(run) && k < |run|
    ensures Inv(run[k])
  {
    hide Inv, Step;
    if k == 0 {
      InitInv(run[0]);
    } else {
      RunKeeps(run, k - 1);
      assert StepAt(run, k - 1);
      StepKeeps(run[k - 1], run[k]);
    }
  }

  /** In every reachable state, with wait_lock free or not, each process but initproc that has come
      to life has a parent that is alive. */
  lemma NobodyIsOrphaned(run: seq<State>, n: nat, k: nat)
    requires IsRun(run) && n < |run| && k < NPROC && k != INIT
    ensures Sized(run[n])
    ensures var p := run[n].procs[k];
            Alive(p) || p.state == ZOMBIE ==>
              p.parent.Some? && p.parent.value < NPROC && Alive(run[n].procs[p.parent.value])
  {
    RunKeeps(run, n);
    assert FamilyAt(run[n], k);
  }

  /** A process asleep in wait has a child that is alive, whose exit will wake it, and no zombie
      child; but initproc may have just been given children by an exit that is about to wake it. */
  lemma WaitersAreWoken(run: seq<State>, n: nat, i: nat)
    requires IsRun(run) && n < |run| && i < NPROC && Sized(run[n]) && SleepsInWait(run[n], i)
    ensures var s := run[n];
            && s.procs[i].chan == Some(WaitOf(i))
            && ((i == INIT && Adopting(s))
                || ((forall k :: 0 <= k < NPROC && s.procs[k].parent == Some(i) ==> s.procs[k].state != ZOMBIE)
                    && exists k :: 0 <= k < NPROC && s.procs[k].parent == Some(i) && Alive(s.procs[k])))
  {
    RunKeeps(run, n);
    var s := run[n];
    assert DoingAt(s, i);
    var k := s.doing[i].kid;
    assert s.procs[k].parent == Some(i);
    assert FamilyAt(s, k) && BirthAt(s, k);
  }

  /** The exit that gives children to initproc wakes it: while that is under way, a process holds
      wait_lock, runs, and is at the turn of wakeup for initproc's slot. */
  lemma AdoptersWake(run: seq<State>, n: nat)
    requires IsRun(run) && n < |run| && Sized(run[n]) && Adopting(run[n])
    ensures var s := run[n]; var h := s.lock.value;
            && Runs(s, h) && h != INIT && s.doing[h].turn == INIT
            && (SleepsInWait(s, INIT) ==> WakeOne(s.procs, WaitOf(INIT), h, INIT)[INIT].state == RUNNABLE)
  {
    RunKeeps(run, n);
    assert DoingAt(run[n], run[n].lock.value) && DoingAt(run[n], INIT);
  }

  /** wait returns each exited process at most once, with the status that it passed to exit. */
  lemma ReapedOnceWithItsStatus(run: seq<State>, n: nat)
    requires IsRun(run) && n < |run|
    ensures !run[n].repeated
    ensures forall pid :: pid in run[n].reaped ==> pid in run[n].passed && run[n].passed[pid] == run[n].reaped[pid]
  {
    RunKeeps(run, n);
  }

  /** Only one process at a time is inside the parts of exit and wait that hold wait_lock. */
  lemma OneHolder(run: seq<State>, n: nat, i: nat, j: nat)
    requires IsRun(run) && n < |run| && i < NPROC && j < NPROC && Sized(run[n])
    requires Holding(run[n].doing[i]) && Holding(run[n].doing[j])
    ensures i == j && run[n].lock == Some(i)
  {
    RunKeeps(run, n);
    assert DoingAt(run[n], i) && DoingAt(run[n], j);
  }

  // ---- what kill does, over a run ----------------------------------------------------------------

  /** Only slots that nobody uses have pid 0. */
  ghost predicate FreeHasNoPid(s: State)
    requires Sized(s)
  {
    forall k :: 0 <= k < NPROC && s.procs[k].state == UNUSED ==> s.procs[k].pid == 0
  }

  lemma WakeOneKeeps(procs: seq<Proc>, c: Chan, me: nat, k: nat, i: nat)
    requires k < |procs| && i < |procs|
    ensures var p, q := procs[i], WakeOne(procs, c, me, k)[i];
            q.pid == p.pid && q.killed == p.killed && (q.state == UNUSED <==> p.state == UNUSED)
  {
  }

  /** A slot keeps its mark as long as it keeps its process; pids are only ever new ones. */
  ghost predicate KeepsMark(s: State, t: State, i: nat)
    requires Sized(s) && Sized(t) && i < NPROC
  {
    var p, q := s.procs[i], t.procs[i];
    && s.nextpid <= t.nextpid && (q.pid == p.pid || q.pid == 0 || q.pid == s.nextpid)
    && (q.pid == p.pid && q.pid != 0 && p.killed ==> q.killed)
    && (q.state == UNUSED ==> q.pid == 0)
  }

  lemma ForkMarks(s: State, t: State, i: nat)
    requires Sized(s) && FreeHasNoPid(s) && i < NPROC
    requires (exists j, np :: ForkAlloc(s, t, j, np)) || (exists j, np :: ForkFails(s, t, j, np)) || exists j :: ForkParent(s, t, j) || ForkRun(s, t, j)
    ensures Sized(t) && KeepsMark(s, t, i)
  {
  }

  lemma ExitMarks(s: State, t: State, i: nat)
    requires Sized(s) && FreeHasNoPid(s) && i < NPROC
    requires (exists j, status :: ExitLock(s, t, j, status))
             || exists j :: ExitReparent(s, t, j) || ExitWakeInit(s, t, j) || ExitWake(s, t, j) || ExitZombie(s, t, j)
    ensures Sized(t) && KeepsMark(s, t, i)
  {
    forall c, me, k | 0 <= me && 0 <= k < NPROC
      ensures var p, q := s.procs[i], WakeOne(s.procs, c, me, k)[i];
              q.pid == p.pid && q.killed == p.killed && (q.state == UNUSED <==> p.state == UNUSED)
    {
      WakeOneKeeps(s.procs, c, me, k, i);
    }
    hide WakeOne;
  }

  lemma WaitMarks(s: State, t: State, i: nat)
    requires Sized(s) && FreeHasNoPid(s) && i < NPROC
    requires (exists j, copied :: WaitScan(s, t, j, copied)) || exists j :: WaitLock(s, t, j) || WaitEnds(s, t, j) || WaitSleep(s, t, j)
    ensures Sized(t) && KeepsMark(s, t, i)
  {
  }

  lemma SmallMarks(s: State, t: State, i: nat)
    requires Sized(s) && FreeHasNoPid(s) && i < NPROC
    requires (exists j :: Sched(s, t, j) || Yield(s, t, j) || Kill(s, t, j))
             || (exists j, c :: SleepElsewhere(s, t, j, c)) || (exists c, me, k :: WakeElsewhere(s, t, c, me, k))
    ensures Sized(t) && KeepsMark(s, t, i)
  {
  }

  lemma StepMarks(s: State, t: State, i: nat)
    requires Sized(s) && FreeHasNoPid(s) && Step(s, t) && i < NPROC
    ensures Sized(t) && KeepsMark(s, t, i)
  {
    hide FreeHasNoPid, KeepsMark;
    hide Sched, Yield, Kill, SleepElsewhere, WakeElsewhere, ForkAlloc, ForkFails, ForkParent, ForkRun;
    hide ExitLock, ExitReparent, ExitWakeInit, ExitWake, ExitZombie, WaitScan, WaitLock, WaitEnds, WaitSleep;
    if (exists j, np :: ForkAlloc(s, t, j, np)) || (exists j, np :: ForkFails(s, t, j, np)) || exists j :: ForkParent(s, t, j) || ForkRun(s, t, j) {
      ForkMarks(s, t, i);
    } else if (exists j, status :: ExitLock(s, t, j, status))
              || exists j :: ExitReparent(s, t, j) || ExitWakeInit(s, t, j) || ExitWake(s, t, j) || ExitZombie(s, t, j) {
      ExitMarks(s, t, i);
    } else if (exists j, copied :: WaitScan(s, t, j, copied)) || exists j :: WaitLock(s, t, j) || WaitEnds(s, t, j) || WaitSleep(s, t, j) {
      WaitMarks(s, t, i);
    } else {
      SmallMarks(s, t, i);
    }
  }

  lemma AllMarks(s: State, t: State)
    requires Sized(s) && FreeHasNoPid(s) && Step(s, t)
    ensures Sized(t) && FreeHasNoPid(t)
  {
    hide Step;
    StepMarks(s, t, INIT);
    forall i: nat | i < NPROC && t.procs[i].state == UNUSED ensures t.procs[i].pid == 0 {
      StepMarks(s, t, i);
    }
  }

  lemma {:induction false} RunMarks(run: seq<State>, k: nat)
    requires IsRun(run) && k < |run|
    ensures Sized(run[k]) && FreeHasNoPid(run[k])
  {
    hide Step;
    if k > 0 {
      RunMarks(run, k - 1);
      assert StepAt(run, k - 1);
      AllMarks(run[k - 1], run[k]);
    }
  }

  /** kill(0) finds a slot that nobody uses, any other pid one in use. */
  lemma FreeIffPidZero(run: seq<State>, n: nat, k: nat)
    requires IsRun(run) && n < |run| && k < NPROC
    ensures Sized(run[n]) && (run[n].procs[k].state == UNUSED <==> run[n].procs[k].pid == 0)
  {
    RunMarks(run, n);
    RunKeeps(run, n);
    assert PidAt(run[n], k);
  }

  /** Who is killed stays killed until wait has reaped it and its pid is gone. */
  lemma {:induction false} KilledForGood(run: seq<State>, j: nat, k: nat, i: nat)
    requires IsRun(run) && j <= k < |run| && i < NPROC && Sized(run[j]) && Sized(run[k])
    requires run[j].procs[i].killed && run[j].procs[i].state != UNUSED
    ensures run[j].procs[i].pid < run[k].nextpid
    ensures run[k].procs[i].pid == run[j].procs[i].pid ==> run[k].procs[i].killed
    decreases k
  {
    RunKeeps(run, j);
    assert PidAt(run[j], i);
    if j < k {
      RunMarks(run, k - 1);
      KilledForGood(run, j, k - 1, i);
      assert StepAt(run, k - 1);
      StepMarks(run[k - 1], run[k], i);
    }
  }

  /** Killing marks the process and ends any sleep; who is marked does not go to sleep in wait once its
      scan is over; and a mark that kill(0) put on a free slot is there when fork takes the slot. */
  lemma KillsCount(s: State, t: State, i: nat)
    requires Sized(s) && i < NPROC
    ensures Kill(s, t, i) ==>
              && |t.procs| == NPROC && t.procs[i].killed && t.procs[i].state != SLEEPING
              && (s.procs[i].state != SLEEPING ==> t.procs[i].state == s.procs[i].state)
              && (forall k :: 0 <= k < NPROC && k != i ==> t.procs[k] == s.procs[k])
    ensures WaitEnds(s, t, i) && s.procs[i].killed ==> i < |t.doing| && t.doing[i] == Idle && t.lock == None
    ensures forall np: nat :: ForkAlloc(s, t, i, np) && s.procs[np].killed ==>
              np < |t.procs| && t.procs[np].killed && t.procs[np].state == USED && t.procs[np].pid == s.nextpid
  {
  }
}
