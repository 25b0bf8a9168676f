/**
 What holds in every run of the log: crash atomicity of group commit, the reservation made by
 begin_op, and exactly when the panics of log_write can be reached.
 */
module LogTheorems {
  import opened LogProtocol
  import opened Basics

  ghost predicate StepAt(limit: nat, run: seq<State>, k: nat)
    requires k + 1 < |run|
  {
    Step(limit, run[k], run[k + 1])
  }

  ghost predicate IsRun(limit: nat, home: Disk, run: seq<State>) {
    && run != [] && Init(home, run[0])
    && forall k :: 0 <= k < |run| - 1 ==> StepAt(limit, run, k)
  }

  lemma {:induction false} RunKeepsInv(limit: nat, home: Disk, run: seq<State>, k: nat)
    requires IsRun(limit, home, run) && k < |run|
    ensures Inv(home, run[k])
  {
    if k == 0 {
      InitInv(home, run[0]);
    } else {
      RunKeepsInv(limit, home, run, k - 1);
      assert StepAt(limit, run, k - 1);
      StepKeeps(limit, home, run[k - 1], run[k]);
    }
  }

  /** Crash atomicity. Whatever the interleaving, wherever the crash falls and however often
      the recovery itself is cut short, the home blocks end up as the committed groups alone
      would have made them; the writes of an operation are all among these or none is. */
  lemma CrashAtomicity(limit: nat, home: Disk, run: seq<State>, k: nat, ks: seq<nat>, e: Disk)
    requires IsRun(limit, home, run) && k < |run|
    requires CrashedRecoveries(run[k].disk, ks, e)
    ensures GoodHeader(e) && SameHome(Recovered(e), Replay(home, run[k].committed))
    ensures forall w, v :: w in run[k].committed && (v in run[k].cur || v in run[k].lost) ==> w.op != v.op
    ensures forall w, i :: w in run[k].committed && 0 <= i < |run[k].ops| ==> w.op != run[k].ops[i].id
  {
    RunKeepsInv(limit, home, run, k);
    RecoveryMayCrashRepeatedly(run[k].disk, ks, e);
  }

  lemma CommitStepCommits(s: State)
    requires Shape(s) && Alone(s) && s.committing
    ensures var t := CommitStep(s);
            && (t.committed == s.committed || t.committed == s.committed + s.cur)
            && (t.committed != s.committed ==>
                  s.pc == WriteLog(|s.lh|) && Header(s.disk) == [] && t.pc == Install(0) && Header(t.disk) == s.lh)
  {
    if s.pc == WriteLog(|s.lh|) {
      WithHeaderReadsBack(s.disk, s.lh);
      hide Header, WithHeader;
    }
  }

  lemma OthersCommitNothing(limit: nat, s: State, t: State)
    requires Step(limit, s, t) && !(s.committing && t == CommitStep(s))
    ensures t.committed == s.committed
  {
    hide Shape, WithHeader, Header;
  }

  /** The committed writes grow in one step only, the completion of a first write_head. */
  lemma CommittedChanges(limit: nat, home: Disk, s: State, t: State)
    requires Inv(home, s) && Step(limit, s, t)
    ensures t.committed == s.committed || t.committed == s.committed + s.cur
    ensures t.committed != s.committed ==>
              s.pc == WriteLog(|s.lh|) && Header(s.disk) == [] && t.pc == Install(0) && Header(t.disk) == s.lh
  {
    if s.committing && t == CommitStep(s) {
      CommitStepCommits(s);
      hide Shape, CommitStep;
    } else {
      OthersCommitNothing(limit, s, t);
    }
  }

  lemma RecoversCommitted(home: Disk, s: State)
    requires Inv(home, s)
    ensures SameHome(Recovered(s.disk), Replay(home, s.committed))
  {
  }

  /** What recovery would give changes in one step only, the completion of a first write_head, and
      then by the writes of the whole current group; the header on disk changes from empty to the
      list. */
  lemma HeaderWriteCommits(limit: nat, home: Disk, s: State, t: State)
    requires Inv(home, s) && Step(limit, s, t) && Inv(home, t)
    ensures t.committed == s.committed ==> SameHome(Recovered(t.disk), Recovered(s.disk))
    ensures t.committed != s.committed ==>
              && s.pc == WriteLog(|s.lh|) && Header(s.disk) == [] && t.pc == Install(0) && Header(t.disk) == s.lh
              && SameHome(Recovered(s.disk), Replay(home, s.committed))
              && SameHome(Recovered(t.disk), Replay(home, s.committed + s.cur))
  {
    hide Inv, Step, Recovered, Replay;
    CommittedChanges(limit, home, s, t);
    RecoversCommitted(home, s);
    RecoversCommitted(home, t);
  }

  lemma RunCommits(limit: nat, home: Disk, run: seq<State>, k: nat)
    requires IsRun(limit, home, run) && k < |run| - 1
    ensures run[k].committed <= run[k + 1].committed
  {
    RunKeepsInv(limit, home, run, k);
    RunKeepsInv(limit, home, run, k + 1);
    assert StepAt(limit, run, k);
    HeaderWriteCommits(limit, home, run[k], run[k + 1]);
  }

  /** Committed writes are never taken back, by a crash or by anything else. */
  lemma {:induction false} CommittedForGood(limit: nat, home: Disk, run: seq<State>, j: nat, k: nat)
    requires IsRun(limit, home, run) && j <= k < |run|
    ensures run[j].committed <= run[k].committed
    decreases k
  {
    if j < k {
      CommittedForGood(limit, home, run, j, k - 1);
      RunCommits(limit, home, run, k - 1);
    }
  }

  /** When the log is idle and no operation runs, nothing waits to be committed: the disk
      itself shows the committed writes. */
  lemma QuiescentMeansInstalled(limit: nat, home: Disk, run: seq<State>, k: nat)
    requires IsRun(limit, home, run) && k < |run|
    requires run[k].pc.Idle? && run[k].ops == []
    ensures run[k].cur == [] && run[k].lh == []
    ensures SameHome(run[k].disk, Replay(home, run[k].committed))
  {
    RunKeepsInv(limit, home, run, k);
  }

  /** begin_op decides by the reservation alone: it admits the operation exactly when no commit is
      under way and ten blocks for it and for each that runs fit the thirty of the log. */
  lemma AdmittedIff(s: State, t: State)
    requires BeginOp(s, t)
    ensures if !s.committing && |s.lh| + (|s.ops| + 1) * 10 <= 30
            then t == s.(ops := s.ops + [Op(s.nextOp, {})], nextOp := s.nextOp + 1)
            else t == s.(sleepers := s.sleepers + 1)
  {
  }

  /** In every run, somebody goes to sleep in begin_op only during a commit or for want of room; and with
      room and no commit, begin_op adds an operation and puts nobody to sleep. */
  lemma SleepsForAReason(limit: nat, home: Disk, run: seq<State>, k: nat)
    requires IsRun(limit, home, run) && k + 1 < |run|
    ensures var s, t := run[k], run[k + 1]; var room := |s.lh| + (|s.ops| + 1) * 10 <= 30;
            && (t.sleepers > s.sleepers ==> (s.committing || !room) && t.ops == s.ops && t.sleepers == s.sleepers + 1)
            && (BeginOp(s, t) && !s.committing && room ==>
                  |t.ops| == |s.ops| + 1 && t.ops[..|s.ops|] == s.ops && t.ops[|s.ops|].logged == {} && t.sleepers == s.sleepers)
  {
    assert StepAt(limit, run, k);
    var s, t := run[k], run[k + 1];
    if t.sleepers > s.sleepers {
      assert BeginOp(s, t) by { hide Shape, Header, WithHeader; }
    }
    if BeginOp(s, t) { AdmittedIff(s, t); }
  }

  /** A process asleep in begin_op always has someone left to wake it: a committer, or an
      operation whose end_op will. */
  lemma SleepersAreWoken(limit: nat, home: Disk, run: seq<State>, k: nat)
    requires IsRun(limit, home, run) && k < |run|
    requires run[k].sleepers > 0
    ensures run[k].committing || (run[k].ops != [] && |run[k].lh| + (|run[k].ops| + 1) * 10 > 30)
  {
    RunKeepsInv(limit, home, run, k);
  }

  // ---- reservation ------------------------------------------------------------------

  /** The sum over the operations of cap minus the distinct blocks each has logged. */
  function Slack(ops: seq<Op>, cap: nat): int {
    if ops == [] then 0 else cap - |ops[0].logged| + Slack(ops[1..], cap)
  }

  lemma {:induction false} SlackConcat(a: seq<Op>, b: seq<Op>, cap: nat)
    ensures Slack(a + b, cap) == Slack(a, cap) + Slack(b, cap)
  {
    if a == [] {
      assert a + b == b;
    } else {
      assert (a + b)[1..] == a[1..] + b;
      SlackConcat(a[1..], b, cap);
    }
  }

  lemma SlackSplit(ops: seq<Op>, i: nat, cap: nat)
    requires i < |ops|
    ensures Slack(ops, cap) == Slack(ops[..i], cap) + cap - |ops[i].logged| + Slack(ops[i + 1..], cap)
  {
    assert ops == ops[..i] + ops[i..];
    SlackConcat(ops[..i], ops[i..], cap);
  }

  lemma SlackUpdate(ops: seq<Op>, i: nat, op: Op, cap: nat)
    requires i < |ops|
    ensures Slack(ops[i := op], cap) == Slack(ops, cap) + |ops[i].logged| - |op.logged|
    ensures Slack(ops[..i] + ops[i + 1..], cap) == Slack(ops, cap) - cap + |ops[i].logged|
  {
    SlackSplit(ops, i, cap);
    SlackSplit(ops[i := op], i, cap);
    assert ops[i := op][..i] == ops[..i] && ops[i := op][i + 1..] == ops[i + 1..];
    SlackConcat(ops[..i], ops[i + 1..], cap);
  }

  lemma {:induction false} SlackBounds(ops: seq<Op>, cap: nat)
    requires forall i :: 0 <= i < |ops| ==> |ops[i].logged| <= cap
    ensures 0 <= Slack(ops, cap) <= |ops| * cap
  {
    if ops != [] {
      SlackBounds(ops[1..], cap);
    }
  }

  /** Each operation has logged at most limit blocks, all of them in the list. */
  ghost predicate Budgets(limit: nat, s: State) {
    forall i :: 0 <= i < |s.ops| ==>
      |s.ops[i].logged| <= limit && forall b :: b in s.ops[i].logged ==> b in s.lh
  }

  /** Blocks logged, plus what the running operations may still log, stay within bound. */
  ghost predicate Reserved(cap: nat, bound: nat, s: State) {
    |s.lh| + Slack(s.ops, cap) <= bound
  }

  lemma LogWriteReserves(limit: nat, cap: nat, bound: nat, s: State, t: State, i: nat, b: nat, data: Block)
    requires LogWrite(limit, s, t, i, b, data) && Budgets(limit, s) && Reserved(cap, bound, s)
    ensures Budgets(limit, t) && Reserved(cap, bound, t)
  {
    var op := Op(s.ops[i].id, s.ops[i].logged + {b});
    SlackUpdate(s.ops, i, op, cap);
    if b in s.ops[i].logged {
      assert s.ops[i].logged + {b} == s.ops[i].logged;
    }
  }

  lemma EndReserves(limit: nat, cap: nat, bound: nat, s: State, t: State, i: nat)
    requires EndOp(s, t, i) && limit <= cap && Budgets(limit, s) && Reserved(cap, bound, s)
    ensures Budgets(limit, t) && Reserved(cap, bound, t)
  {
    SlackUpdate(s.ops, i, s.ops[i], cap);
  }

  lemma BeginReserves(s: State, t: State)
    requires BeginOp(s, t) && Budgets(MAXOPBLOCKS, s) && Reserved(MAXOPBLOCKS, LOGSIZE, s)
    ensures Reserved(MAXOPBLOCKS, LOGSIZE, t)
  {
    SlackConcat(s.ops, [Op(s.nextOp, {})], MAXOPBLOCKS);
    SlackBounds(s.ops, MAXOPBLOCKS);
  }

  /** begin_op's own account: MAXOPBLOCKS for each operation against LOGSIZE. */
  lemma StepReserves(limit: nat, home: Disk, s: State, t: State)
    requires limit <= MAXOPBLOCKS && Inv(home, s) && Step(limit, s, t)
    requires Budgets(limit, s) && Reserved(MAXOPBLOCKS, LOGSIZE, s)
    ensures Budgets(limit, t) && Reserved(MAXOPBLOCKS, LOGSIZE, t)
  {
    if BeginOp(s, t) {
      hide Shape, Durable, WholeOps;
      BeginReserves(s, t);
    } else if i, b, data :| LogWrite(limit, s, t, i, b, data) {
      hide Shape, Durable, WholeOps;
      LogWriteReserves(limit, MAXOPBLOCKS, LOGSIZE, s, t, i, b, data);
    } else if i :| EndOp(s, t, i) {
      hide Shape, Durable, WholeOps;
      EndReserves(limit, MAXOPBLOCKS, LOGSIZE, s, t, i);
    } else {
      hide WholeOps;
      NobodyRuns(s, t);
    }
  }

  /** The steps of commit, recovery and crash leave no operation, and no block beyond the list. */
  lemma NobodyRuns(s: State, t: State)
    requires Shape(s) && Alone(s)
    requires (s.committing && t == CommitStep(s)) || (s.pc.Recover? && t == RecoverStep(s)) || t == Crash(s)
    ensures t.ops == [] && |t.lh| <= NLOG - 1
  {
    hide WithHeader;
  }

  lemma {:induction false} RunReserves(limit: nat, home: Disk, run: seq<State>, k: nat)
    requires limit <= MAXOPBLOCKS && IsRun(limit, home, run) && k < |run|
    ensures Budgets(limit, run[k]) && Reserved(MAXOPBLOCKS, LOGSIZE, run[k])
  {
    if k > 0 {
      RunReserves(limit, home, run, k - 1);
      RunKeepsInv(limit, home, run, k - 1);
      assert StepAt(limit, run, k - 1);
      StepReserves(limit, home, run[k - 1], run[k]);
    }
  }

  /** The reservation bound, in every reachable state; a commit never overlaps an operation. */
  lemma ReservationBound(limit: nat, home: Disk, run: seq<State>, k: nat)
    requires limit <= MAXOPBLOCKS && IsRun(limit, home, run) && k < |run|
    ensures |run[k].lh| + Slack(run[k].ops, MAXOPBLOCKS) <= LOGSIZE
    ensures Distinct(run[k].lh)
    ensures run[k].committing ==> run[k].ops == []
  {
    RunReserves(limit, home, run, k);
    RunKeepsInv(limit, home, run, k);
  }

  // ---- the panics -------------------------------------------------------------------

  /** One block less per operation leaves the two slots that log_write's test wants free:
      the header takes one, and the test precedes absorption. */
  ghost predicate Roomy(s: State) {
    !s.panicked && (s.ops != [] ==> Reserved(MAXOPBLOCKS - 1, NLOG - 2, s))
  }

  lemma BeginStaysRoomy(s: State, t: State)
    requires BeginOp(s, t) && Roomy(s) && Alone(s) && Budgets(MAXOPBLOCKS - 1, s)
    ensures Roomy(t)
  {
    SlackBounds(s.ops, MAXOPBLOCKS - 1);
    SlackConcat(s.ops, [Op(s.nextOp, {})], MAXOPBLOCKS - 1);
  }

  lemma StepStaysRoomy(limit: nat, home: Disk, s: State, t: State)
    requires limit < MAXOPBLOCKS && Inv(home, s) && Step(limit, s, t)
    requires Budgets(limit, s) && Roomy(s)
    ensures Roomy(t)
  {
    var cap := MAXOPBLOCKS - 1;
    SlackBounds(s.ops, cap);
    if BeginOp(s, t) {
      BeginStaysRoomy(s, t);
    } else if i, b, data :| LogWrite(limit, s, t, i, b, data) {
      LogWriteReserves(limit, cap, NLOG - 2, s, t, i, b, data);
    } else if i :| EndOp(s, t, i) {
      EndReserves(limit, cap, NLOG - 2, s, t, i);
    }
  }

  lemma {:induction false} SmallOpsNeverPanic(limit: nat, home: Disk, run: seq<State>, k: nat)
    requires limit < MAXOPBLOCKS && IsRun(limit, home, run) && k < |run|
    ensures Roomy(run[k])
  {
    if k > 0 {
      SmallOpsNeverPanic(limit, home, run, k - 1);
      RunKeepsInv(limit, home, run, k - 1);
      RunReserves(limit, home, run, k - 1);
      assert StepAt(limit, run, k - 1);
      StepStaysRoomy(limit, home, run[k - 1], run[k]);
    }
  }

  /** Three operations admitted together, of which the k-th log_write is by operation k / 10. */
  ghost predicate Filling(s: State, k: nat) {
    && k <= NLOG - 1 && |s.ops| == 3 && |s.lh| == k && Running(s) && !s.committing
    && (forall j :: 0 <= j < k ==> s.lh[j] == 100 + j)
    && (forall i :: 0 <= i < 3 ==> |s.ops[i].logged| <= if k < 10 * i then 0 else if k < 10 * i + 10 then k - 10 * i else 10)
  }

  lemma Filled(home: Disk, run: seq<State>) returns (next: seq<State>)
    requires IsRun(MAXOPBLOCKS, home, run)
    requires Filling(run[|run| - 1], |run[|run| - 1].lh|)
    ensures IsRun(MAXOPBLOCKS, home, next)
    ensures var k := |run[|run| - 1].lh|; var s := next[|next| - 1];
            if k == NLOG - 1 then s.panicked else Filling(s, k + 1)
  {
    var s := run[|run| - 1];
    var k := |s.lh|;
    var i, b := k / 10, 100 + k;
    RunKeepsInv(MAXOPBLOCKS, home, run, |run| - 1);
    var t := if k == NLOG - 1 then s.(panicked := true)
             else s.(lh := s.lh + [b], cache := s.cache[b := ZERO],
                     ops := s.ops[i := Op(s.ops[i].id, s.ops[i].logged + {b})],
                     cur := s.cur + [Write(s.ops[i].id, b, ZERO)]);
    assert LogWrite(MAXOPBLOCKS, s, t, i, b, ZERO);
    next := run + [t];
    forall j | 0 <= j < |next| - 1
      ensures StepAt(MAXOPBLOCKS, next, j)
    {
      if j < |run| - 1 {
        assert StepAt(MAXOPBLOCKS, run, j);
      }
    }
  }

  /** Operations of MAXOPBLOCKS blocks, which begin_op reserves for, do reach the panic: the
      first two log ten blocks each, the third nine, and its tenth finds the log full. */
  lemma FullOpsPanic(home: Disk) returns (run: seq<State>)
    requires home[LOGSTART][0] == 0
    ensures IsRun(MAXOPBLOCKS, home, run) && run[|run| - 1].panicked
  {
    var s0 := State(home, [], [], false, 0, map[], Idle, false, 0, [], [], []);
    var s1 := s0.(ops := [Op(0, {})], nextOp := 1);
    var s2 := s1.(ops := [Op(0, {}), Op(1, {})], nextOp := 2);
    var s3 := s2.(ops := [Op(0, {}), Op(1, {}), Op(2, {})], nextOp := 3);
    InitInv(home, s0);
    assert BeginOp(s0, s1) && BeginOp(s1, s2) && BeginOp(s2, s3);
    run := [s0, s1, s2, s3];
    assert forall k :: 0 <= k < 3 ==> StepAt(MAXOPBLOCKS, run, k);
    var k := 0;
    while k < NLOG
      invariant k <= NLOG && IsRun(MAXOPBLOCKS, home, run)
      invariant k < NLOG ==> Filling(run[|run| - 1], k)
      invariant k == NLOG ==> run[|run| - 1].panicked
    {
      run := Filled(home, run);
      k := k + 1;
    }
  }

  lemma StepWidens(small: nat, limit: nat, s: State, t: State)
    requires small <= limit && Step(small, s, t)
    ensures Step(limit, s, t)
  {
    if i, b, data :| LogWrite(small, s, t, i, b, data) {
      assert LogWrite(limit, s, t, i, b, data);
    }
  }

  /** No log panic is reachable exactly when operations keep below MAXOPBLOCKS blocks. */
  lemma NoPanicIff(limit: nat, home: Disk)
    requires home[LOGSTART][0] == 0
    ensures (forall run: seq<State> :: IsRun(limit, home, run) ==> !run[|run| - 1].panicked) <==> limit < MAXOPBLOCKS
  {
    if limit < MAXOPBLOCKS {
      forall run: seq<State> | IsRun(limit, home, run)
        ensures !run[|run| - 1].panicked
      {
        SmallOpsNeverPanic(limit, home, run, |run| - 1);
      }
    } else {
      var run := FullOpsPanic(home);
      forall k | 0 <= k < |run| - 1
        ensures StepAt(limit, run, k)
      {
        assert StepAt(MAXOPBLOCKS, run, k);
        StepWidens(MAXOPBLOCKS, limit, run[k], run[k + 1]);
      }
      assert IsRun(limit, home, run);
    }
  }
}
