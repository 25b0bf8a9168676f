/**
 The semaphore system calls of sysproc.c, on sleep and wakeup. Each stretch that holds a
 semaphore's lock is one step; sleep gives the lock up and marks the process asleep in one go.
 */
module Semaphore {

  const MAX_SEMAPHORES: nat := 100

  /** Values by semaphore, and for each sleeping process the semaphore it sleeps on. */
  datatype Sems = Sems(value: map<nat, int>, asleep: map<nat, nat>)

  /** wakeup(&semaphores[sem]) */
  function Wake(asleep: map<nat, nat>, sem: nat): map<nat, nat> {
    map p | p in asleep && asleep[p] != sem :: asleep[p]
  }

  /** sem_up: sleepers are woken only if the value was 0. */
  function Up(s: Sems, sem: nat): Sems
    requires sem in s.value
  {
    Sems(s.value[sem := s.value[sem] + 1], if s.value[sem] == 0 then Wake(s.asleep, sem) else s.asleep)
  }

  /** One round of sem_down's loop for process p: asleep on a 0, or one taken. */
  function Down(s: Sems, p: nat, sem: nat): Sems
    requires sem in s.value
  {
    if s.value[sem] == 0 then s.(asleep := s.asleep[p := sem]) else s.(value := s.value[sem := s.value[sem] - 1])
  }

  /** A process asleep on a semaphore has nothing to take. */
  ghost predicate NoLostWakeup(s: Sems) {
    && (forall m :: m in s.value ==> s.value[m] >= 0)
    && (forall p :: p in s.asleep ==> s.asleep[p] in s.value && s.value[s.asleep[p]] == 0)
  }

  lemma UpKeeps(s: Sems, sem: nat)
    requires NoLostWakeup(s) && sem in s.value
    ensures NoLostWakeup(Up(s, sem))
  {
  }

  lemma DownKeeps(s: Sems, p: nat, sem: nat)
    requires NoLostWakeup(s) && sem in s.value
    ensures NoLostWakeup(Down(s, p, sem))
  {
  }

  // ---- any number of processes ------------------------------------------------------------

  datatype Event = Upped(sem: nat) | Downed(sem: nat)

  /** calling: processes inside sem_down, with the semaphore they want; events is history. */
  datatype State = State(sems: Sems, calling: map<nat, nat>, events: seq<Event>)

  function Count(events: seq<Event>, e: Event): nat {
    if events == [] then 0
    else Count(events[..|events| - 1], e) + if events[|events| - 1] == e then 1 else 0
  }

  ghost predicate CallUp(s: State, t: State, sem: nat) {
    sem in s.sems.value && t == s.(sems := Up(s.sems, sem), events := s.events + [Upped(sem)])
  }

  ghost predicate CallDown(s: State, t: State, p: nat, sem: nat) {
    sem in s.sems.value && p !in s.calling && t == s.(calling := s.calling[p := sem])
  }

  ghost predicate RunDown(s: State, t: State, p: nat) {
    && p in s.calling && p !in s.sems.asleep && s.calling[p] in s.sems.value
    && var r := Down(s.sems, p, s.calling[p]);
       t == if p in r.asleep then s.(sems := r)
            else State(r, s.calling - {p}, s.events + [Downed(s.calling[p])])
  }

  ghost predicate Step(s: State, t: State) {
    || (exists sem :: CallUp(s, t, sem))
    || (exists p, sem :: CallDown(s, t, p, sem))
    || (exists p :: RunDown(s, t, p))
  }

  /** The books balance, and sleepers are callers who want what they sleep on. */
  ghost predicate Inv(initial: map<nat, int>, s: State) {
    && NoLostWakeup(s.sems) && s.sems.value.Keys == initial.Keys
    && (forall m :: m in initial ==>
          s.sems.value[m] == initial[m] + Count(s.events, Upped(m)) - Count(s.events, Downed(m)))
    && (forall p :: p in s.sems.asleep ==> p in s.calling && s.calling[p] == s.sems.asleep[p])
  }

  lemma CountAppend(events: seq<Event>, e: Event, f: Event)
    ensures Count(events + [f], e) == Count(events, e) + if e == f then 1 else 0
  {
    assert (events + [f])[..|events + [f]| - 1] == events;
  }

  lemma CallUpKeeps(initial: map<nat, int>, s: State, t: State, sem: nat)
    requires Inv(initial, s) && CallUp(s, t, sem)
    ensures Inv(initial, t)
  {
    hide Count;
    forall m | m in initial
      ensures t.sems.value[m] == initial[m] + Count(t.events, Upped(m)) - Count(t.events, Downed(m))
    {
      CountAppend(s.events, Upped(m), Upped(sem));
      CountAppend(s.events, Downed(m), Upped(sem));
    }
    UpKeeps(s.sems, sem);
  }

  lemma RunDownKeeps(initial: map<nat, int>, s: State, t: State, p: nat)
    requires Inv(initial, s) && RunDown(s, t, p)
    ensures Inv(initial, t)
  {
    hide Count;
    var sem := s.calling[p];
    forall m | m in initial
      ensures t.sems.value[m] == initial[m] + Count(t.events, Upped(m)) - Count(t.events, Downed(m))
    {
      CountAppend(s.events, Upped(m), Downed(sem));
      CountAppend(s.events, Downed(m), Downed(sem));
    }
    DownKeeps(s.sems, p, sem);
  }

  lemma StepKeeps(initial: map<nat, int>, s: State, t: State)
    requires Inv(initial, s) && Step(s, t)
    ensures Inv(initial, t)
  {
    hide Inv;
    if sem :| CallUp(s, t, sem) {
      CallUpKeeps(initial, s, t, sem);
    } else if p :| RunDown(s, t, p) {
      RunDownKeeps(initial, s, t, p);
    } else {
      var p, sem :| CallDown(s, t, p, sem);
      CallDownKeeps(initial, s, t, p, sem);
    }
  }

  lemma CallDownKeeps(initial: map<nat, int>, s: State, t: State, p: nat, sem: nat)
    requires Inv(initial, s) && CallDown(s, t, p, sem)
    ensures Inv(initial, t)
  {
    hide Count;
  }

  ghost predicate StepAt(run: seq<State>, k: nat)
    requires k + 1 < |run|
  {
    Step(run[k], run[k + 1])
  }

  ghost predicate IsRun(initial: map<nat, int>, run: seq<State>) {
    && run != [] && run[0] == State(Sems(initial, map[]), map[], [])
    && (forall m :: m in initial ==> initial[m] >= 0)
    && forall k :: 0 <= k < |run| - 1 ==> StepAt(run, k)
  }

  /** Opened with values that are not negative and not closed meanwhile: a value is always the
      initial one plus the ups minus the completed downs, never negative, and whoever sleeps in
      sem_down sleeps on a 0. */
  lemma Balance(initial: map<nat, int>, run: seq<State>, k: nat)
    requires IsRun(initial, run) && k < |run|
    ensures var s := run[k].sems;
            && s.value.Keys == initial.Keys
            && (forall m :: m in initial ==>
                  && s.value[m] == initial[m] + Count(run[k].events, Upped(m)) - Count(run[k].events, Downed(m))
                  && s.value[m] >= 0)
            && (forall p :: p in s.asleep ==>
                  && p in run[k].calling && run[k].calling[p] == s.asleep[p]
                  && s.asleep[p] in s.value && s.value[s.asleep[p]] == 0)
  {
    RunKeeps(initial, run, k);
  }

  lemma {:induction false} RunKeeps(initial: map<nat, int>, run: seq<State>, k: nat)
    requires IsRun(initial, run) && k < |run|
    ensures Inv(initial, run[k])
  {
    if k > 0 {
      RunKeeps(initial, run, k - 1);
      assert StepAt(run, k - 1);
      StepKeeps(initial, run[k - 1], run[k]);
    }
  }

  // ---- the kernel's table -------------------------------------------------------------------

  /** sys_sem_open returns 1 for Opened and 0 for Refused. */
  datatype Opening = Opened | Refused | Outside

  class Table {
    const value: array<int>
    const open: array<bool>
    var asleep: map<nat, nat>   // the processes whose chan is &semaphores[sem]

    ghost predicate Valid()
      reads this
    {
      value.Length == MAX_SEMAPHORES && open.Length == MAX_SEMAPHORES
    }

    ghost function View(): Sems
      requires Valid()
      reads this, value
    {
      Sems(map m: nat | m < MAX_SEMAPHORES :: value[m], asleep)
    }

    constructor ()
      ensures Valid() && asleep == map[] && forall m :: 0 <= m < MAX_SEMAPHORES ==> !open[m]
    {
      value := new int[MAX_SEMAPHORES](_ => 0);
      open := new bool[MAX_SEMAPHORES](_ => false);
      asleep := map[];
    }

    /** sys_sem_open: only a closed semaphore takes the new value. The range test lets
        MAX_SEMAPHORES through, and what lies behind the table is touched then. */
    method Open(sem: int, v: int) returns (r: Opening)
      requires Valid()
      modifies value, open
      ensures Valid()
      ensures r.Refused? <==> sem < 0 || sem > MAX_SEMAPHORES || (sem < MAX_SEMAPHORES && old(open[sem]))
      ensures r.Outside? <==> sem == MAX_SEMAPHORES
      ensures View() == if r.Opened? then old(View()).(value := old(View()).value[sem := v]) else old(View())
      ensures forall m :: 0 <= m < MAX_SEMAPHORES ==> open[m] == (old(open[m]) || (r.Opened? && m == sem))
    {
      if sem < 0 || sem > MAX_SEMAPHORES { return Refused; }
      if sem == MAX_SEMAPHORES { return Outside; }
      if !open[sem] {
        open[sem] := true;
        value[sem] := v;
        return Opened;
      }
      return Refused;
    }

    /** sys_sem_close */
    method Close(sem: nat) returns (ok: bool)
      requires Valid() && sem < MAX_SEMAPHORES
      modifies value, open
      ensures Valid() && ok == old(open[sem]) && !open[sem]
      ensures View() == if ok then old(View()).(value := old(View()).value[sem := 0]) else old(View())
      ensures forall m :: 0 <= m < MAX_SEMAPHORES && m != sem ==> open[m] == old(open[m])
    {
      ok := false;
      if open[sem] {
        open[sem] := false;
        value[sem] := 0;
        ok := true;
      }
    }

    /** sys_sem_up */
    method SemUp(sem: nat)
      requires Valid() && sem < MAX_SEMAPHORES
      modifies value, `asleep
      ensures Valid() && View() == Up(old(View()), sem)
      ensures value[sem] == old(value[sem]) + 1 && forall m :: 0 <= m < MAX_SEMAPHORES && m != sem ==> value[m] == old(value[m])
      ensures forall p :: p in asleep <==> p in old(asleep) && (old(asleep)[p] != sem || old(value[sem]) != 0)
      ensures forall p :: p in asleep ==> asleep[p] == old(asleep)[p]
    {
      ghost var s := View();
      if value[sem] == 0 {
        asleep := Wake(asleep, sem);
      }
      value[sem] := value[sem] + 1;
      assert View().value == s.value[sem := s.value[sem] + 1];
    }

    /** sys_sem_down by process p, from one acquisition of the lock to sleep or return. */
    method SemDown(p: nat, sem: nat) returns (done: bool)
      requires Valid() && sem < MAX_SEMAPHORES && p !in asleep
      modifies value, `asleep
      ensures Valid() && View() == Down(old(View()), p, sem)
      ensures done <==> old(value[sem]) != 0
      ensures value[sem] == (if done then old(value[sem]) - 1 else 0)
      ensures asleep == if done then old(asleep) else old(asleep)[p := sem]
      ensures forall m :: 0 <= m < MAX_SEMAPHORES && m != sem ==> value[m] == old(value[m])
      ensures done <==> p !in asleep
    {
      ghost var s := View();
      if value[sem] == 0 {
        asleep := asleep[p := sem];
        return false;
      }
      value[sem] := value[sem] - 1;
      done := true;
      assert View().value == s.value[sem := s.value[sem] - 1];
    }
  }
}

/**
 pingpong.c: two children over two semaphores, and the parent that closes the semaphores once
 wait has returned for one child.
 */
module PingPong {
  import opened Semaphore

  const PING: nat := 1   // semaphore_ping, opened with 0
  const PONG: nat := 0   // semaphore_pong, opened with 1

  /** Where a child is in its loop body: sem_down, print, sem_up, or past the loop. */
  datatype Pc = AtDown | AtPrint | AtUp | Exited

  datatype Child = Child(pc: Pc, i: nat)

  datatype Line = Ping | Pong

  /** The parent: in wait, then closing semaphore_pong, then semaphore_ping. */
  datatype Parent = Waiting | ClosePong | ClosePing | Gone

  /** dropped is history: semaphore_ping was closed while it still held a 1. */
  datatype State = State(sems: Sems, ping: Child, pong: Child, out: seq<Line>, parent: Parent, dropped: bool)

  function Start(): State {
    State.State(Sems(map[PING := 0, PONG := 1], map[]), Child(AtDown, 0), Child(AtDown, 0), [], Waiting, false)
  }

  /** The next step of child c, process p, which downs d, prints line, and ups u. */
  function ChildStep(sems: Sems, c: Child, p: nat, d: nat, u: nat, rally: nat): (Sems, Child, bool)
    requires d in sems.value && u in sems.value
  {
    match c.pc
    case AtDown =>
      var r := Down(sems, p, d);
      (r, if p in r.asleep then c else c.(pc := AtPrint), false)
    case AtPrint => (sems, c.(pc := AtUp), true)
    case AtUp => (Up(sems, u), Child(if c.i + 1 < rally then AtDown else Exited, c.i + 1), false)
    case Exited => (sems, c, false)
  }

  ghost predicate HasSems(s: State) {
    s.sems.value.Keys == {PING, PONG}
  }

  ghost predicate PingStep(s: State, t: State, rally: nat) {
    && HasSems(s) && s.ping.pc != Exited && 0 !in s.sems.asleep
    && var (r, c, printed) := ChildStep(s.sems, s.ping, 0, PONG, PING, rally);
       t == s.(sems := r, ping := c, out := if printed then s.out + [Ping] else s.out)
  }

  ghost predicate PongStep(s: State, t: State, rally: nat) {
    && HasSems(s) && s.pong.pc != Exited && 1 !in s.sems.asleep
    && var (r, c, printed) := ChildStep(s.sems, s.pong, 1, PING, PONG, rally);
       t == s.(sems := r, pong := c, out := if printed then s.out + [Pong] else s.out)
  }

  /** wait returns for the first child that exits; then both semaphores are closed. */
  ghost predicate ParentStep(s: State, t: State) {
    && HasSems(s)
    && match s.parent
       case Waiting => (s.ping.pc == Exited || s.pong.pc == Exited) && t == s.(parent := ClosePong)
       case ClosePong => t == s.(parent := ClosePing, sems := s.sems.(value := s.sems.value[PONG := 0]))
       case ClosePing => t == s.(parent := Gone, sems := s.sems.(value := s.sems.value[PING := 0]),
                                 dropped := s.sems.value[PING] != 0)
       case Gone => false
  }

  ghost predicate Step(s: State, t: State, rally: nat) {
    PingStep(s, t, rally) || PongStep(s, t, rally) || ParentStep(s, t)
  }

  /** Ping Pong Ping ..., n lines. */
  function Alternation(n: nat): (lines: seq<Line>)
    ensures |lines| == n
  {
    seq(n, k => if k % 2 == 0 then Ping else Pong)
  }

  function Busy(c: Child): nat {
    if c.pc == AtPrint || c.pc == AtUp then 1 else 0
  }

  function Printed(c: Child): nat {
    c.i + if c.pc == AtUp then 1 else 0
  }

  /** One token moves around: it lies in a semaphore or is held by a child. Where it is decides
      who is how far; the output is what both have printed, in alternation. */
  ghost predicate Playing(s: State, rally: nat) {
    && Sound(s, rally) && !s.dropped
    && s.sems.value[PONG] + s.sems.value[PING] + Busy(s.ping) + Busy(s.pong) == 1
    && s.ping.i == s.pong.i + (if s.sems.value[PING] == 1 || Busy(s.pong) == 1 then 1 else 0)
  }

  ghost predicate Sound(s: State, rally: nat) {
    && HasSems(s) && NoLostWakeup(s.sems)
    && (forall p :: p in s.sems.asleep ==>
          || (p == 0 && s.sems.asleep[p] == PONG && s.ping.pc == AtDown)
          || (p == 1 && s.sems.asleep[p] == PING && s.pong.pc == AtDown))
    && (s.ping.i <= rally && (s.ping.pc == Exited <==> s.ping.i == rally))
    && (s.pong.i <= rally && (s.pong.pc == Exited <==> s.pong.i == rally))
    && s.out == Alternation(Printed(s.ping) + Printed(s.pong))
  }

  /** The ping child exits first. Once semaphore_pong is closed only the last Pong is open, and
      it comes unless its token was in semaphore_ping when that was closed. */
  ghost predicate Closing(s: State, rally: nat) {
    && Sound(s, rally) && s.ping.pc == Exited && s.pong.i + 1 >= rally
    && (s.parent == Gone ==> s.sems.value[PING] == 0)
    && if s.dropped then s.parent == Gone && s.pong.pc == AtDown
       else s.sems.value[PING] + Busy(s.pong) + (if s.pong.pc == Exited then 1 else 0) == 1
  }

  ghost predicate Inv(s: State, rally: nat) {
    match s.parent
    case Waiting => Playing(s, rally)
    case ClosePong => Playing(s, rally) && s.ping.pc == Exited
    case _ => Closing(s, rally)
  }

  lemma PingKeeps(s: State, t: State, rally: nat)
    requires Inv(s, rally) && PingStep(s, t, rally)
    ensures Inv(t, rally)
  {
    hide Alternation;
    if s.ping.pc == AtPrint { AlternationNext(Printed(s.ping) + Printed(s.pong)); }
  }

  lemma AlternationNext(n: nat)
    ensures Alternation(n + 1) == Alternation(n) + [if n % 2 == 0 then Ping else Pong]
  {
  }

  lemma PongKeeps(s: State, t: State, rally: nat)
    requires Inv(s, rally) && PongStep(s, t, rally)
    ensures Inv(t, rally)
  {
    hide Alternation;
    if s.pong.pc == AtPrint { AlternationNext(Printed(s.ping) + Printed(s.pong)); }
  }

  lemma ParentKeeps(s: State, t: State, rally: nat)
    requires Inv(s, rally) && ParentStep(s, t) && 0 < rally
    ensures Inv(t, rally)
  {
  }

  /** While the parent waits and a child is not done, some child can move on. */
  lemma NoDeadlock(s: State, rally: nat)
    requires Inv(s, rally) && s.parent == Waiting && !(s.ping.pc == Exited && s.pong.pc == Exited)
    ensures (s.ping.pc != Exited && 0 !in s.sems.asleep) || (s.pong.pc != Exited && 1 !in s.sems.asleep)
  {
  }

  function Stage(c: Child): nat {
    match c.pc case AtDown => 0 case AtPrint => 3 case AtUp => 6 case Exited => 0
  }

  function ParentLeft(p: Parent): nat {
    match p case Waiting => 3 case ClosePong => 2 case ClosePing => 1 case Gone => 0
  }

  /** What is left to do: token moves count 3 each, a child not asleep counts 1. */
  function Left(s: State, rally: nat): int {
    (rally - s.ping.i) * 9 - Stage(s.ping) + (rally - s.pong.i) * 9 - Stage(s.pong)
      + (if 0 in s.sems.asleep then 0 else 1) + (if 1 in s.sems.asleep then 0 else 1) + ParentLeft(s.parent)
  }

  lemma LeftIsNatural(s: State, rally: nat)
    requires Inv(s, rally)
    ensures 0 <= Left(s, rally)
  {
  }

  lemma PingRunsOut(s: State, t: State, rally: nat)
    requires Inv(s, rally) && PingStep(s, t, rally)
    ensures Left(t, rally) < Left(s, rally)
  {
  }

  lemma PongRunsOut(s: State, t: State, rally: nat)
    requires Inv(s, rally) && PongStep(s, t, rally)
    ensures Left(t, rally) < Left(s, rally)
  {
  }

  lemma StepKeeps(s: State, t: State, rally: nat)
    requires Inv(s, rally) && Step(s, t, rally) && 0 < rally
    ensures Inv(t, rally) && Left(t, rally) < Left(s, rally)
  {
    if PingStep(s, t, rally) {
      PingKeeps(s, t, rally);
      PingRunsOut(s, t, rally);
    } else if PongStep(s, t, rally) {
      PongKeeps(s, t, rally);
      PongRunsOut(s, t, rally);
    } else {
      ParentKeeps(s, t, rally);
    }
  }

  ghost predicate StepAt(run: seq<State>, k: nat, rally: nat)
    requires k + 1 < |run|
  {
    Step(run[k], run[k + 1], rally)
  }

  ghost predicate IsRun(run: seq<State>, rally: nat) {
    run != [] && run[0] == Start() && 0 < rally && forall k :: 0 <= k < |run| - 1 ==> StepAt(run, k, rally)
  }

  lemma {:induction false} RunKeeps(run: seq<State>, k: nat, rally: nat)
    requires IsRun(run, rally) && k < |run|
    ensures Inv(run[k], rally) && Left(run[k], rally) + k <= 18 * rally + 5
  {
    if k > 0 {
      RunKeeps(run, k - 1, rally);
      assert StepAt(run, k - 1, rally);
      StepKeeps(run[k - 1], run[k], rally);
    }
  }

  ghost predicate Stuck(s: State, rally: nat) {
    forall t :: !Step(s, t, rally)
  }

  /** Every run prints in strict alternation and is over after a bounded number of steps. Where
      it ends, all rallies have been played if and only if semaphore_ping was empty when the
      parent closed it; otherwise exactly the last Pong is missing. */
  lemma Rally(run: seq<State>, rally: nat)
    requires IsRun(run, rally)
    ensures var s := run[|run| - 1];
            && (forall k :: 0 <= k < |s.out| ==> s.out[k] == if k % 2 == 0 then Ping else Pong)
            && |run| <= 18 * rally + 6
            && (Stuck(s, rally) ==> |s.out| == 2 * rally - if s.dropped then 1 else 0)
  {
    var s := run[|run| - 1];
    RunKeeps(run, |run| - 1, rally);
    LeftIsNatural(s, rally);
    if Stuck(s, rally) {
      StuckAtTheEnd(s, rally);
    }
  }

  lemma StuckAtTheEnd(s: State, rally: nat)
    requires Inv(s, rally) && Stuck(s, rally)
    ensures s.parent == Gone && s.ping.pc == Exited && (s.pong.pc == Exited || s.dropped)
  {
    CanStep(s, rally);
  }

  lemma CanStep(s: State, rally: nat)
    requires HasSems(s)
    ensures s.ping.pc != Exited && 0 !in s.sems.asleep ==> !Stuck(s, rally)
    ensures s.pong.pc != Exited && 1 !in s.sems.asleep ==> !Stuck(s, rally)
    ensures s.parent == ClosePong || s.parent == ClosePing ==> !Stuck(s, rally)
    ensures s.parent == Waiting && (s.ping.pc == Exited || s.pong.pc == Exited) ==> !Stuck(s, rally)
  {
    if s.ping.pc != Exited && 0 !in s.sems.asleep {
      var (r, c, printed) := ChildStep(s.sems, s.ping, 0, PONG, PING, rally);
      assert Step(s, s.(sems := r, ping := c, out := if printed then s.out + [Ping] else s.out), rally);
    }
    if s.pong.pc != Exited && 1 !in s.sems.asleep {
      var (r, c, printed) := ChildStep(s.sems, s.pong, 1, PING, PONG, rally);
      assert Step(s, s.(sems := r, pong := c, out := if printed then s.out + [Pong] else s.out), rally);
    }
    assert s.parent == ClosePong ==>
      Step(s, s.(parent := ClosePing, sems := s.sems.(value := s.sems.value[PONG := 0])), rally);
    assert s.parent == ClosePing ==>
      Step(s, s.(parent := Gone, sems := s.sems.(value := s.sems.value[PING := 0]), dropped := s.sems.value[PING] != 0), rally);
    assert s.parent == Waiting && (s.ping.pc == Exited || s.pong.pc == Exited) ==> Step(s, s.(parent := ClosePong), rally);
  }

  /** It does happen: the parent can be quicker than the pong child. */
  lemma LastPongCanBeLost() returns (run: seq<State>)
    ensures IsRun(run, 1) && Stuck(run[|run| - 1], 1) && run[|run| - 1].out == [Ping]
  {
    var s0 := Start();
    var s1 := s0.(sems := Sems(map[PING := 0, PONG := 0], map[]), ping := Child(AtPrint, 0));
    var s2 := s1.(ping := Child(AtUp, 0), out := [Ping]);
    var s3 := s2.(sems := Sems(map[PING := 1, PONG := 0], map[]), ping := Child(Exited, 1));
    var s4 := s3.(parent := ClosePong);
    var s5 := s4.(parent := ClosePing);
    var s6 := s5.(parent := Gone, sems := Sems(map[PING := 0, PONG := 0], map[]), dropped := true);
    var s7 := s6.(sems := Sems(map[PING := 0, PONG := 0], map[1 := PING]));
    run := [s0, s1, s2, s3, s4, s5, s6, s7];
    assert PingStep(s0, s1, 1) && PingStep(s1, s2, 1) && PingStep(s2, s3, 1);
    assert ParentStep(s3, s4) && ParentStep(s4, s5) && ParentStep(s5, s6) && PongStep(s6, s7, 1);
    assert Stuck(s7, 1);
    hide PingStep, PongStep, ParentStep, Stuck;
    assert forall k :: 0 <= k < 7 ==> StepAt(run, k, 1);
  }
}
