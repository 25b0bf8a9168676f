/**
 One process that runs a list of transactions on the log, each between begin_op and end_op:
 the steps of LogProtocol with the process that takes them. A crash stops the process for good;
 the recovery may be cut short again and again.
 */
module LogClient {
  import opened LogProtocol
  import opened LogTheorems
  import opened Basics

  /** part counts the transactions ended, pos the log_writes of the current one, and inside says
      whether one is running. saved, history, counts the transactions known to be committed. */
  datatype Client = Client(part: nat, pos: nat, inside: bool, alive: bool, saved: nat)

  datatype World = World(log: State, client: Client)

  /** The writes of the first m transactions. */
  function Flat(parts: seq<seq<Write>>, m: nat): seq<Write>
    requires m <= |parts|
  {
    if m == 0 then [] else Flat(parts, m - 1) + parts[m - 1]
  }

  ghost function Blocks(part: seq<Write>): set<nat> {
    set w | w in part :: w.no
  }

  /** Transaction j is operation j of the log, and touches at most limit home blocks. */
  ghost predicate Program(parts: seq<seq<Write>>, limit: nat) {
    forall j :: 0 <= j < |parts| ==>
      |Blocks(parts[j])| <= limit && forall w :: w in parts[j] ==> w.op == j && IsHome(w.no)
  }

  // ---- steps --------------------------------------------------------------------------------------

  ghost predicate Begins(parts: seq<seq<Write>>, s: World, t: World) {
    && s.client.alive && !s.client.inside && s.client.part < |parts| && BeginOp(s.log, t.log)
    && t.client == s.client.(inside := t.log.ops != s.log.ops)
  }

  ghost predicate Writes(parts: seq<seq<Write>>, s: World, t: World) {
    && s.client.alive && s.client.inside && s.client.part < |parts| && s.client.pos < |parts[s.client.part]|
    && s.log.ops != []
    && var w := parts[s.client.part][s.client.pos];
       && LogWrite(|s.log.ops[0].logged + {w.no}|, s.log, t.log, 0, w.no, w.data)
       && t.client == if t.log.panicked then s.client else s.client.(pos := s.client.pos + 1)
  }

  ghost predicate Ends(parts: seq<seq<Write>>, s: World, t: World) {
    && s.client.alive && s.client.inside && s.client.part < |parts| && s.client.pos == |parts[s.client.part]|
    && EndOp(s.log, t.log, 0)
    && t.client == if t.log.panicked then s.client else s.client.(part := s.client.part + 1, pos := 0, inside := false)
  }

  /** One write of the commit, or its end. */
  ghost predicate Commits(s: World, t: World) {
    && Shape(s.log) && !s.log.panicked && s.log.committing && t.log == CommitStep(s.log)
    && t.client == s.client.(saved := if t.log.cur == [] then s.client.part else s.client.saved)
  }

  ghost predicate Crashes(s: World, t: World) {
    Shape(s.log) && t.log == Crash(s.log) && t.client == s.client.(alive := false)
  }

  ghost predicate Recovers(s: World, t: World) {
    Shape(s.log) && s.log.pc.Recover? && t.log == RecoverStep(s.log) && t.client == s.client
  }

  ghost predicate WorldStep(parts: seq<seq<Write>>, s: World, t: World) {
    Shape(s.log) && (Begins(parts, s, t) || Writes(parts, s, t) || Ends(parts, s, t) || Commits(s, t) || Crashes(s, t) || Recovers(s, t))
  }

  ghost predicate WorldInit(home: Disk, s: World) {
    Init(home, s.log) && s.client == Client(0, 0, false, true, 0)
  }

  // ---- the invariant ------------------------------------------------------------------------------

  /** What the process has passed to log_write so far. */
  function Written(parts: seq<seq<Write>>, c: Client): seq<Write>
    requires c.part <= |parts| && (c.inside ==> c.part < |parts| && c.pos <= |parts[c.part]|)
  {
    Flat(parts, c.part) + if c.inside then parts[c.part][..c.pos] else []
  }

  ghost predicate Placed(parts: seq<seq<Write>>, c: Client) {
    && c.saved <= c.part <= |parts|
    && (c.inside ==> c.part < |parts| && c.pos <= |parts[c.part]|) && (!c.inside ==> c.pos == 0)
  }

  /** The log works for this process alone. */
  ghost predicate Serves(parts: seq<seq<Write>>, s: World)
    requires Placed(parts, s.client)
  {
    var l, c := s.log, s.client;
    && l.committed + l.cur == Written(parts, c) && !l.pc.Recover?
    && l.nextOp == c.part + (if c.inside then 1 else 0)
    && (c.inside ==> |l.ops| == 1 && l.ops[0].id == c.part && l.ops[0].logged <= Blocks(parts[c.part]))
    && (!c.inside ==> l.ops == [] && (l.pc.Idle? ==> c.saved == c.part))
  }

  ghost predicate ClientInv(parts: seq<seq<Write>>, s: World) {
    && Placed(parts, s.client)
    && s.log.committed == Flat(parts, s.client.saved)
    && (s.client.alive ==> Serves(parts, s))
    && (!s.client.alive ==> s.log.ops == [] && s.log.cur == [] && !s.log.committing)
  }

  lemma BeginsKeep(parts: seq<seq<Write>>, home: Disk, s: World, t: World)
    requires Inv(home, s.log) && ClientInv(parts, s) && Begins(parts, s, t)
    ensures ClientInv(parts, t)
  {
    hide Shape, Durable, WholeOps, Fits, Flat;
    assert parts[s.client.part][..0] == [];
  }

  lemma SmallPart(part: seq<Write>, logged: set<nat>, w: Write)
    requires w in part && logged <= Blocks(part)
    ensures logged + {w.no} <= Blocks(part)
    ensures |logged + {w.no}| <= |Blocks(part)|
  {
    SubsetSize(logged + {w.no}, Blocks(part));
  }

  lemma WritesKeep(parts: seq<seq<Write>>, limit: nat, home: Disk, s: World, t: World)
    requires Program(parts, limit) && Inv(home, s.log) && ClientInv(parts, s) && Writes(parts, s, t)
    ensures ClientInv(parts, t)
  {
    hide Shape, Durable, WholeOps, Fits, Flat;
    var part := parts[s.client.part];
    var w := part[s.client.pos];
    assert w in part;
    SmallPart(part, s.log.ops[0].logged, w);
    assert w == Write(s.log.ops[0].id, w.no, w.data);
    var done := Flat(parts, s.client.part);
    assert done + part[..s.client.pos + 1] == (done + part[..s.client.pos]) + [w];
    assert s.log.committed + (s.log.cur + [w]) == (s.log.committed + s.log.cur) + [w];
  }

  lemma EndsKeep(parts: seq<seq<Write>>, home: Disk, s: World, t: World)
    requires Inv(home, s.log) && ClientInv(parts, s) && Ends(parts, s, t)
    ensures ClientInv(parts, t)
  {
    hide Shape, Durable, WholeOps, Fits;
    var part := parts[s.client.part];
    assert part[..s.client.pos] == part;
    assert s.log.ops[..0] + s.log.ops[1..] == [];
  }

  lemma CommitsKeep(parts: seq<seq<Write>>, home: Disk, s: World, t: World)
    requires Inv(home, s.log) && Inv(home, t.log) && ClientInv(parts, s) && Commits(s, t)
    ensures ClientInv(parts, t)
  {
    hide Shape, Durable, WholeOps, Fits, Flat, CommitStep;
    CommitMoves(s.log);
    assert s.client.alive;
    assert t.log.pc.Idle? ==> t.log.cur == [];
    assert s.log.committed + [] == s.log.committed;
    assert t.log.committed + [] == t.log.committed;
  }

  lemma CommitMoves(s: State)
    requires Shape(s) && Alone(s) && s.committing
    ensures var t := CommitStep(s);
            && t.committed + t.cur == s.committed + s.cur && (t.committed != s.committed ==> t.cur == [])
            && t.ops == s.ops && t.nextOp == s.nextOp && !t.pc.Recover?
            && (t.cur == [] ==> t.committed == s.committed + s.cur)
            && (t.cur != [] ==> t.committed == s.committed) && (t.pc.Idle? ==> s.cur == [])
  {
    hide WithHeader, Header, LogSlot;
  }

  lemma WorldStepKeeps(parts: seq<seq<Write>>, limit: nat, home: Disk, s: World, t: World)
    requires Program(parts, limit) && Inv(home, s.log) && Inv(home, t.log) && ClientInv(parts, s) && WorldStep(parts, s, t)
    ensures ClientInv(parts, t)
  {
    hide Inv, ClientInv, Begins, Writes, Ends, Commits;
    if Begins(parts, s, t) {
      BeginsKeep(parts, home, s, t);
    } else if Writes(parts, s, t) {
      WritesKeep(parts, limit, home, s, t);
    } else if Ends(parts, s, t) {
      EndsKeep(parts, home, s, t);
    } else if Commits(s, t) {
      CommitsKeep(parts, home, s, t);
    } else {
      StopsKeep(parts, s, t);
    }
  }

  lemma StopsKeep(parts: seq<seq<Write>>, s: World, t: World)
    requires ClientInv(parts, s) && (Crashes(s, t) || Recovers(s, t))
    ensures ClientInv(parts, t)
  {
    hide Shape, Flat;
  }

  /** What the process and the log do together, the log does with some process. */
  lemma IsLogStep(parts: seq<seq<Write>>, limit: nat, s: World, t: World)
    requires Program(parts, limit) && ClientInv(parts, s) && WorldStep(parts, s, t)
    ensures Step(limit, s.log, t.log)
  {
    hide Shape, BeginOp, CommitStep, RecoverStep, Crash, Flat;
    if Writes(parts, s, t) {
      var part := parts[s.client.part];
      var w := part[s.client.pos];
      assert w in part;
      SmallPart(part, s.log.ops[0].logged, w);
      assert LogWrite(limit, s.log, t.log, 0, w.no, w.data);
    } else if Ends(parts, s, t) {
      assert EndOp(s.log, t.log, 0);
    }
  }

  // ---- every run ------------------------------------------------------------------------------------

  ghost predicate WorldStepAt(parts: seq<seq<Write>>, run: seq<World>, k: nat)
    requires k + 1 < |run|
  {
    WorldStep(parts, run[k], run[k + 1])
  }

  ghost predicate IsWorldRun(parts: seq<seq<Write>>, home: Disk, run: seq<World>) {
    run != [] && WorldInit(home, run[0]) && forall k :: 0 <= k < |run| - 1 ==> WorldStepAt(parts, run, k)
  }

  ghost function Logs(run: seq<World>): (r: seq<State>)
    ensures |r| == |run| && forall k :: 0 <= k < |run| ==> r[k] == run[k].log
  {
    seq(|run|, k requires 0 <= k < |run| => run[k].log)
  }

  lemma {:induction false} WorldRunKeeps(parts: seq<seq<Write>>, limit: nat, home: Disk, run: seq<World>, k: nat)
    requires Program(parts, limit) && IsWorldRun(parts, home, run) && k < |run|
    ensures ClientInv(parts, run[k]) && IsRun(limit, home, Logs(run[..k + 1])) && Inv(home, run[k].log)
  {
    hide ClientInv, Inv, WorldStep, Step;
    var logs := Logs(run[..k + 1]);
    if k == 0 {
      StartKeeps(parts, home, run[0]);
    } else {
      WorldRunKeeps(parts, limit, home, run, k - 1);
      assert WorldStepAt(parts, run, k - 1);
      var before := Logs(run[..k]);
      IsLogStep(parts, limit, run[k - 1], run[k]);
      forall j | 0 <= j < |logs| - 1 ensures StepAt(limit, logs, j) {
        if j < k - 1 { assert StepAt(limit, before, j); }
      }
      StepKeeps(limit, home, run[k - 1].log, run[k].log);
      WorldStepKeeps(parts, limit, home, run[k - 1], run[k]);
    }
  }

  lemma StartKeeps(parts: seq<seq<Write>>, home: Disk, s: World)
    requires WorldInit(home, s)
    ensures ClientInv(parts, s) && Inv(home, s.log)
  {
    InitInv(home, s.log);
  }

  /** Wherever the crash falls and however often the recovery is cut short, whole transactions
      survive, in order: the first saved ones. */
  lemma WholePartsSurvive(parts: seq<seq<Write>>, limit: nat, home: Disk, run: seq<World>, k: nat, ks: seq<nat>, e: Disk)
    requires Program(parts, limit) && IsWorldRun(parts, home, run) && k < |run|
    requires CrashedRecoveries(run[k].log.disk, ks, e)
    ensures run[k].client.saved <= run[k].client.part <= |parts|
    ensures GoodHeader(e) && SameHome(Recovered(e), Replay(home, Flat(parts, run[k].client.saved)))
  {
    WorldRunKeeps(parts, limit, home, run, k);
    var logs := Logs(run[..k + 1]);
    CrashAtomicity(limit, home, logs, k, ks, e);
  }

  /** end_op of the last operation returns once the log is idle again; by then everything the
      process has written is saved. */
  lemma ReturnedMeansSaved(parts: seq<seq<Write>>, limit: nat, home: Disk, run: seq<World>, k: nat)
    requires Program(parts, limit) && IsWorldRun(parts, home, run) && k < |run|
    requires run[k].client.alive && !run[k].client.inside && run[k].log.pc.Idle?
    ensures run[k].client.saved == run[k].client.part
  {
    WorldRunKeeps(parts, limit, home, run, k);
  }

  /** What is saved stays saved. */
  lemma {:induction false} SavedForGood(parts: seq<seq<Write>>, limit: nat, home: Disk, run: seq<World>, j: nat, k: nat)
    requires Program(parts, limit) && IsWorldRun(parts, home, run) && j <= k < |run|
    ensures run[j].client.saved <= run[k].client.saved
    decreases k
  {
    hide Program, IsWorldRun;
    if j < k {
      SavedForGood(parts, limit, home, run, j, k - 1);
      SavedNext(parts, limit, home, run, k - 1);
    }
  }

  lemma SavedNext(parts: seq<seq<Write>>, limit: nat, home: Disk, run: seq<World>, k: nat)
    requires Program(parts, limit) && IsWorldRun(parts, home, run) && k + 1 < |run|
    ensures run[k].client.saved <= run[k + 1].client.saved
  {
    hide ClientInv, Inv, WorldStep, IsRun, Program;
    WorldRunKeeps(parts, limit, home, run, k);
    assert WorldStepAt(parts, run, k);
    StepSaves(parts, run[k], run[k + 1]);
  }

  lemma StepSaves(parts: seq<seq<Write>>, s: World, t: World)
    requires ClientInv(parts, s) && WorldStep(parts, s, t)
    ensures s.client.saved <= t.client.saved
  {
    hide Shape, BeginOp, LogWrite, EndOp, CommitStep, Crash, RecoverStep, Serves, Flat;
  }

  /** Transactions of less than MAXOPBLOCKS blocks never meet a panic of the log. */
  lemma NoPanic(parts: seq<seq<Write>>, limit: nat, home: Disk, run: seq<World>, k: nat)
    requires limit < MAXOPBLOCKS && Program(parts, limit) && IsWorldRun(parts, home, run) && k < |run|
    ensures !run[k].log.panicked
  {
    WorldRunKeeps(parts, limit, home, run, k);
    SmallOpsNeverPanic(limit, home, Logs(run[..k + 1]), k);
  }
}
