/**
 The write-ahead log as a state machine.

 A block is 256 words of 32 bits (BSIZE = 1024 bytes); the disk is the sequence of all
 blocks. Every disk write is one step, so a crash may fall between any two of them. System
 calls run as operations that interleave freely; each region that holds log.lock is one step,
 and so is "change a locked buffer and log_write it".

 The history variables (committed, cur, lost) are read by no step: they say which writes the
 system calls made, so that the disk can be compared with them.
 */
module LogProtocol {
  import opened Basics

  const MAXOPBLOCKS: nat := 10
  const LOGSIZE: nat := MAXOPBLOCKS * 3
  const FSSIZE: nat := 2000
  const LOGSTART: nat := 2
  const NLOG: nat := LOGSIZE   // blocks of the log area, the header included
  const WORDS: nat := 256

  type Block = b: seq<int> | |b| == WORDS witness seq(WORDS, _ => 0)
  const ZERO: Block := seq(WORDS, _ => 0)
  type Disk = d: seq<Block> | |d| == FSSIZE witness seq(FSSIZE, _ => ZERO)

  predicate IsHome(b: int) {
    0 <= b < FSSIZE && !(LOGSTART <= b < LOGSTART + NLOG)
  }

  /** Block of the log area that holds the i-th logged block. */
  function LogSlot(i: nat): nat {
    LOGSTART + 1 + i
  }

  /** A block list that fits the log area and names distinct blocks outside it. */
  predicate GoodList(lh: seq<int>) {
    && |lh| <= NLOG - 1
    && (forall i :: 0 <= i < |lh| ==> IsHome(lh[i]))
    && Distinct(lh)
  }

  // ---- the header block -------------------------------------------------------------

  predicate GoodHeader(d: Disk) {
    && 0 <= d[LOGSTART][0] <= NLOG - 1
    && GoodList(d[LOGSTART][1..1 + d[LOGSTART][0]])
  }

  function Header(d: Disk): seq<int>
    requires GoodHeader(d)
  {
    d[LOGSTART][1..1 + d[LOGSTART][0]]
  }

  /** The header buffer after write_head: the count and the entries in use are replaced,
      words behind them keep what an earlier transaction left there. */
  function WithHeader(d: Disk, lh: seq<int>): (r: Disk)
    requires |lh| <= NLOG - 1
  {
    d[LOGSTART := [|lh|] + lh + d[LOGSTART][1 + |lh|..]]
  }

  lemma WithHeaderReadsBack(d: Disk, lh: seq<int>)
    requires GoodList(lh)
    ensures GoodHeader(WithHeader(d, lh)) && Header(WithHeader(d, lh)) == lh
  {
    assert WithHeader(d, lh)[LOGSTART][1..1 + |lh|] == lh;
  }

  /** The header block, word by word: the count, then the numbers; the logged blocks lie behind it. */
  lemma HeaderWords(d: Disk, lh: seq<int>, i: nat)
    requires GoodList(lh)
    ensures WithHeader(d, lh)[2][0] == |lh| && (i < |lh| ==> WithHeader(d, lh)[2][1 + i] == lh[i])
    ensures |lh| < i < 256 ==> WithHeader(d, lh)[2][i] == d[2][i]
    ensures LogSlot(i) == 3 + i
    ensures forall b :: IsHome(b) <==> 0 <= b < 2000 && !(2 <= b < 32)
  {
  }

  // ---- recovery ---------------------------------------------------------------------

  /** The disk after the first i installs of the list lh. */
  function Redo(d: Disk, lh: seq<int>, i: nat): Disk
    requires GoodList(lh) && i <= |lh|
  {
    if i == 0 then d else
      var e := Redo(d, lh, i - 1);
      e[lh[i - 1] := e[LogSlot(i - 1)]]
  }

  /** The disk after i of the writes of recover_from_log; the last one clears the header. */
  function RecoverSteps(d: Disk, i: nat): Disk
    requires GoodHeader(d) && i <= |Header(d)| + 1
  {
    if i <= |Header(d)| then Redo(d, Header(d), i)
    else WithHeader(Redo(d, Header(d), |Header(d)|), [])
  }

  /** What a complete run of recover_from_log leaves. */
  function Recovered(d: Disk): Disk
    requires GoodHeader(d)
  {
    RecoverSteps(d, |Header(d)| + 1)
  }

  ghost predicate SameHome(d: Disk, e: Disk) {
    forall b :: IsHome(b) ==> d[b] == e[b]
  }

  lemma {:induction false} RedoAt(d: Disk, lh: seq<int>, i: nat)
    requires GoodList(lh) && i <= |lh|
    ensures forall b :: LOGSTART <= b < LOGSTART + NLOG ==> Redo(d, lh, i)[b] == d[b]
    ensures forall j :: 0 <= j < i ==> Redo(d, lh, i)[lh[j]] == d[LogSlot(j)]
    ensures forall b :: 0 <= b < FSSIZE && b !in lh[..i] ==> Redo(d, lh, i)[b] == d[b]
  {
    if i > 0 {
      RedoAt(d, lh, i - 1);
      assert lh[..i] == lh[..i - 1] + [lh[i - 1]];
    }
  }

  /** A recovery cut short after any number of its writes can be run again from the start:
      the header still reads the same, or is cleared once every block is in place. */
  lemma InterruptedRecovery(d: Disk, i: nat)
    requires GoodHeader(d) && i <= |Header(d)| + 1
    ensures GoodHeader(RecoverSteps(d, i))
    ensures SameHome(Recovered(RecoverSteps(d, i)), Recovered(d))
  {
    var lh := Header(d);
    var e := RecoverSteps(d, i);
    RedoAt(d, lh, |lh|);
    if i <= |lh| {
      RedoAt(d, lh, i);
      assert e[LOGSTART] == d[LOGSTART];
      assert Header(e) == lh;
      RedoAt(e, lh, |lh|);
      forall b | IsHome(b)
        ensures Recovered(e)[b] == Recovered(d)[b]
      {
        if b in lh {
          var j :| 0 <= j < |lh| && lh[j] == b;
          assert e[LogSlot(j)] == d[LogSlot(j)];
        }
      }
    } else {
      WithHeaderReadsBack(Redo(d, lh, |lh|), []);
    }
  }

  /** Crash the recovery after ks[0] writes, reboot, crash again after ks[1], and so on. */
  ghost predicate CrashedRecoveries(d: Disk, ks: seq<nat>, e: Disk)
    decreases |ks|
  {
    if ks == [] then e == d else
      && GoodHeader(d) && ks[0] <= |Header(d)| + 1
      && CrashedRecoveries(RecoverSteps(d, ks[0]), ks[1..], e)
  }

  lemma {:induction false} RecoveryMayCrashRepeatedly(d: Disk, ks: seq<nat>, e: Disk)
    requires GoodHeader(d) && CrashedRecoveries(d, ks, e)
    ensures GoodHeader(e) && SameHome(Recovered(e), Recovered(d))
    decreases |ks|
  {
    if ks != [] {
      InterruptedRecovery(d, ks[0]);
      RecoveryMayCrashRepeatedly(RecoverSteps(d, ks[0]), ks[1..], e);
    }
  }

  // ---- states -----------------------------------------------------------------------

  /** One log_write of an operation: op gave block no the contents data. */
  datatype Write = Write(op: nat, no: nat, data: Block)

  /** A system call between begin_op and end_op, and the distinct blocks it has logged. */
  datatype Op = Op(id: nat, logged: set<nat>)

  /** Where the committing process (or the boot-time recovery) is: the next write it does.
      WriteLog(n) is about to write the header, Install(n) and Recover(n) to clear it. */
  datatype Pc = Idle | WriteLog(tail: nat) | Install(tail: nat) | Done | Recover(tail: nat)

  datatype State = State(
    disk: Disk,
    lh: seq<nat>,              // log.lh.block[0..log.lh.n]
    ops: seq<Op>,              // log.outstanding is their number
    committing: bool,
    sleepers: nat,             // processes asleep in begin_op
    cache: map<nat, Block>,    // the pinned buffers
    pc: Pc,
    panicked: bool,
    nextOp: nat,
    committed: seq<Write>,     // writes of the groups whose first write_head completed
    cur: seq<Write>,           // writes of the group being collected
    lost: seq<Write>           // writes that a crash threw away
  )

  /** The disk that the writes ws would produce if each went straight to its home. */
  function Replay(d: Disk, ws: seq<Write>): Disk {
    if ws == [] then d else
      var e := Replay(d, ws[..|ws| - 1]);
      var w := ws[|ws| - 1];
      if w.no < FSSIZE then e[w.no := w.data] else e
  }

  lemma ReplayOne(d: Disk, ws: seq<Write>, w: Write)
    requires w.no < FSSIZE
    ensures Replay(d, ws + [w]) == Replay(d, ws)[w.no := w.data]
  {
    assert (ws + [w])[..|ws|] == ws;
  }

  lemma ReplayNone(d: Disk)
    ensures Replay(d, []) == d
  {
  }

  lemma {:induction false} ReplayConcat(d: Disk, u: seq<Write>, v: seq<Write>)
    ensures Replay(d, u + v) == Replay(Replay(d, u), v)
    decreases |v|
  {
    if v == [] {
      assert u + v == u;
    } else {
      assert (u + v)[..|u + v| - 1] == u + v[..|v| - 1];
      ReplayConcat(d, u, v[..|v| - 1]);
    }
  }

  // ---- steps ------------------------------------------------------------------------

  predicate Fits(lh: seq<nat>, outstanding: nat) {
    |lh| + (outstanding + 1) * MAXOPBLOCKS <= LOGSIZE
  }

  predicate Running(s: State) {
    !s.panicked && !s.pc.Recover?
  }

  /** begin_op admits the operation, or puts its process to sleep on &log. */
  ghost predicate BeginOp(s: State, t: State) {
    && Running(s)
    && t == if s.committing || !Fits(s.lh, |s.ops|)
            then s.(sleepers := s.sleepers + 1)
            else s.(ops := s.ops + [Op(s.nextOp, {})], nextOp := s.nextOp + 1)
  }

  /** The list after log_write(b): unchanged when b is absorbed. */
  function AddBlock(lh: seq<nat>, b: nat): seq<nat> {
    if b in lh then lh else lh + [b]
  }

  /** The i-th running operation changes home block b to data and calls log_write. At most
      limit distinct blocks per operation is what the callers promise. The test for a full
      log comes before the test for absorption. */
  ghost predicate LogWrite(limit: nat, s: State, t: State, i: nat, b: nat, data: Block) {
    && Running(s) && i < |s.ops| && IsHome(b)
    && |s.ops[i].logged + {b}| <= limit
    && t == if |s.lh| >= LOGSIZE || |s.lh| >= NLOG - 1
            then s.(panicked := true)
            else s.(lh := AddBlock(s.lh, b), cache := s.cache[b := data],
                    ops := s.ops[i := Op(s.ops[i].id, s.ops[i].logged + {b})],
                    cur := s.cur + [Write(s.ops[i].id, b, data)])
  }

  /** The locked part of end_op for the i-th running operation. */
  ghost predicate EndOp(s: State, t: State, i: nat) {
    && Running(s) && i < |s.ops|
    && var rest := s.ops[..i] + s.ops[i + 1..];
    t == if s.committing then s.(panicked := true)
         else if rest == [] then
           s.(ops := rest, committing := true, pc := if s.lh == [] then Done else WriteLog(0))
         else s.(ops := rest, sleepers := 0)
  }

  /** The next disk write of commit(), or its end: committing is cleared and sleepers wake. */
  function CommitStep(s: State): State
    requires GoodList(s.lh)
    requires s.pc.WriteLog? || s.pc.Install? ==> s.pc.tail <= |s.lh|
    requires s.pc.WriteLog? ==> forall b :: b in s.lh ==> b in s.cache
  {
    match s.pc
    case WriteLog(i) =>
      if i < |s.lh| then
        s.(disk := s.disk[LogSlot(i) := s.cache[s.lh[i]]], pc := WriteLog(i + 1))
      else
        s.(disk := WithHeader(s.disk, s.lh), pc := Install(0),
           committed := s.committed + s.cur, cur := [])
    case Install(i) =>
      if i < |s.lh| then
        s.(disk := s.disk[s.lh[i] := s.disk[LogSlot(i)]], pc := Install(i + 1))
      else
        s.(disk := WithHeader(s.disk, []), lh := [], cache := map[], pc := Done)
    case Done => s.(committing := false, sleepers := 0, pc := Idle)
    case _ => s
  }

  /** Power loss: memory is gone, and the reboot reads the header it finds on disk. */
  function Crash(s: State): State
    requires GoodHeader(s.disk)
  {
    State(s.disk, Header(s.disk), [], false, 0, map[], Recover(0), false,
          s.nextOp, s.committed, [], s.lost + s.cur)
  }

  /** The next disk write of recover_from_log. */
  function RecoverStep(s: State): State
    requires s.pc.Recover? && GoodList(s.lh) && s.pc.tail <= |s.lh|
  {
    if s.pc.tail < |s.lh| then
      s.(disk := s.disk[s.lh[s.pc.tail] := s.disk[LogSlot(s.pc.tail)]], pc := Recover(s.pc.tail + 1))
    else
      s.(disk := WithHeader(s.disk, []), lh := [], pc := Idle)
  }

  ghost predicate Init(home: Disk, s: State) {
    && home[LOGSTART][0] == 0
    && s == State(home, [], [], false, 0, map[], Idle, false, 0, [], [], [])
  }

  /** Every reachable state has the shape that makes the steps well defined (RunKeepsInv). */
  ghost predicate Step(limit: nat, s: State, t: State) {
    Shape(s) && (
    || BeginOp(s, t)
    || (exists i, b, data :: LogWrite(limit, s, t, i, b, data))
    || (exists i :: EndOp(s, t, i))
    || (!s.panicked && s.committing && t == CommitStep(s))
    || (s.pc.Recover? && t == RecoverStep(s))
    || t == Crash(s))
  }

  // ---- the invariant ----------------------------------------------------------------

  /** What every phase knows about the memory header, the log area and the home blocks. */
  ghost predicate Shape(s: State) {
    && GoodHeader(s.disk)
    && GoodList(s.lh)
    && (s.pc.Idle? || s.pc.WriteLog? ==>
          Header(s.disk) == [] && forall b :: b in s.lh ==> b in s.cache)
    && (s.pc.Done? ==> Header(s.disk) == [] && s.lh == [])
    && (s.pc.WriteLog? ==>
          && s.pc.tail <= |s.lh|
          && forall j :: 0 <= j < s.pc.tail ==> s.disk[LogSlot(j)] == s.cache[s.lh[j]])
    && (s.pc.Install? || s.pc.Recover? ==>
          && Header(s.disk) == s.lh && s.pc.tail <= |s.lh|
          && forall j :: 0 <= j < s.pc.tail ==> s.disk[s.lh[j]] == s.disk[LogSlot(j)])
  }

  /** A commit runs alone, and an idle log with blocks in it has someone to commit them. */
  ghost predicate Alone(s: State) {
    && (s.committing <==> s.pc.WriteLog? || s.pc.Install? || s.pc.Done?)
    && (!s.pc.Idle? ==> s.ops == [] && (!s.pc.WriteLog? ==> s.cur == []))
    && (s.pc.Idle? && s.ops == [] ==> s.lh == [])
    && (s.pc.Idle? && s.lh == [] ==> s.cur == [])
  }

  /** A process asleep in begin_op still has its reason to sleep. */
  ghost predicate NoLostWakeup(s: State) {
    s.sleepers > 0 ==> !s.pc.Recover? && (s.committing || !Fits(s.lh, |s.ops|))
  }

  /** What recovery would bring back is exactly the committed writes; the pinned buffers over
      the disk show these and the current group's writes on top. */
  ghost predicate Durable(home: Disk, s: State)
    requires Shape(s)
  {
    && SameHome(Recovered(s.disk), Replay(home, s.committed))
    && (s.pc.Idle? || s.pc.WriteLog? ==>
          forall b :: IsHome(b) ==>
            Replay(Replay(home, s.committed), s.cur)[b] == if b in s.lh then s.cache[b] else s.disk[b])
  }

  /** Operation identifiers are never reused, and no operation has writes both among the
      committed ones and elsewhere. */
  ghost predicate WholeOps(s: State) {
    && (forall i :: 0 <= i < |s.ops| ==> s.ops[i].id < s.nextOp)
    && (forall w :: w in s.committed || w in s.cur || w in s.lost ==> w.op < s.nextOp)
    && (forall w, v :: w in s.committed && (v in s.cur || v in s.lost) ==> w.op != v.op)
    && (forall w, i :: (w in s.committed || w in s.lost) && 0 <= i < |s.ops| ==> w.op != s.ops[i].id)
    && (forall w, v :: w in s.lost && v in s.cur ==> w.op != v.op)
  }

  ghost predicate Inv(home: Disk, s: State) {
    Shape(s) && Alone(s) && NoLostWakeup(s) && Durable(home, s) && WholeOps(s)
  }

  lemma InitInv(home: Disk, s: State)
    requires Init(home, s)
    ensures Inv(home, s)
  {
    assert s.disk[LOGSTART][1..1] == [];
  }

  lemma BeginKeeps(home: Disk, s: State, t: State)
    requires Inv(home, s) && BeginOp(s, t)
    ensures Inv(home, t)
  {
  }

  lemma LogWriteKeeps(limit: nat, home: Disk, s: State, t: State, i: nat, b: nat, data: Block)
    requires Inv(home, s) && LogWrite(limit, s, t, i, b, data)
    ensures Inv(home, t)
  {
    if t.panicked {
      assert t == s.(panicked := true);
    } else {
      var w := Write(s.ops[i].id, b, data);
      assert s.pc.Idle? by { hide Shape, Durable, WholeOps; }
      LogWriteAlone(limit, s, t, i, b, data);
      hide Shape, Alone, NoLostWakeup, Durable, WholeOps;
      LogWriteReplays(home, s, t, b, w);
      LogWriteOwns(s, t, i, w);
    }
  }

  lemma LogWriteAlone(limit: nat, s: State, t: State, i: nat, b: nat, data: Block)
    requires Alone(s) && NoLostWakeup(s) && LogWrite(limit, s, t, i, b, data) && !t.panicked && s.pc.Idle?
    ensures Alone(t) && NoLostWakeup(t)
  {
    assert t.lh != [] && (Fits(t.lh, |t.ops|) ==> Fits(s.lh, |s.ops|));
  }

  lemma LogWriteReplays(home: Disk, s: State, t: State, b: nat, w: Write)
    requires Shape(s) && s.pc.Idle? && Durable(home, s) && IsHome(b) && w.no == b && |s.lh| < NLOG - 1
    requires t == s.(lh := AddBlock(s.lh, b), cache := s.cache[b := w.data], ops := t.ops, cur := s.cur + [w])
    ensures Shape(t) && Durable(home, t)
  {
    assert t.cur[..|t.cur| - 1] == s.cur;
    assert forall c :: c in t.lh <==> c in s.lh || c == b;
  }

  lemma LogWriteOwns(s: State, t: State, i: nat, w: Write)
    requires WholeOps(s) && i < |s.ops| && w.op == s.ops[i].id
    requires t.committed == s.committed && t.lost == s.lost && t.cur == s.cur + [w] && t.nextOp == s.nextOp
    requires |t.ops| == |s.ops| && forall j :: 0 <= j < |s.ops| ==> t.ops[j].id == s.ops[j].id
    ensures WholeOps(t)
  {
  }

  lemma EndKeeps(home: Disk, s: State, t: State, i: nat)
    requires Inv(home, s) && EndOp(s, t, i)
    ensures Inv(home, t)
  {
    var rest := s.ops[..i] + s.ops[i + 1..];
    assert forall j :: 0 <= j < |rest| ==> rest[j] in s.ops;
  }

  /** A header without entries leaves recovery nothing to install. */
  lemma EmptyHeader(d: Disk)
    requires GoodHeader(d) && Header(d) == []
    ensures SameHome(Recovered(d), d)
  {
  }

  lemma ClearedHeader(d: Disk)
    ensures var e := WithHeader(d, []);
            GoodHeader(e) && Header(e) == [] && SameHome(Recovered(e), e) && SameHome(e, d)
  {
    WithHeaderReadsBack(d, []);
    EmptyHeader(WithHeader(d, []));
  }

  /** Until its header is written a group is invisible to recovery ... */
  lemma SlotWritten(d: Disk, i: nat, x: Block)
    requires GoodHeader(d) && Header(d) == [] && i < NLOG - 1
    ensures var e := d[LogSlot(i) := x];
            GoodHeader(e) && Header(e) == [] && SameHome(Recovered(e), Recovered(d)) && SameHome(d, e)
  {
    EmptyHeader(d);
    var e := d[LogSlot(i) := x];
    assert e[LOGSTART] == d[LOGSTART];
    EmptyHeader(e);
  }

  /** ... and from then on it is all there. */
  lemma HeadWritten(d: Disk, lh: seq<nat>, cache: map<nat, Block>)
    requires GoodList(lh) && forall b :: b in lh ==> b in cache
    requires forall j :: 0 <= j < |lh| ==> d[LogSlot(j)] == cache[lh[j]]
    ensures var e := WithHeader(d, lh);
            && GoodHeader(e) && Header(e) == lh
            && forall b :: IsHome(b) ==> Recovered(e)[b] == if b in lh then cache[b] else d[b]
  {
    var e := WithHeader(d, lh);
    WithHeaderReadsBack(d, lh);
    RedoAt(e, lh, |lh|);
    forall b | IsHome(b)
      ensures Recovered(e)[b] == if b in lh then cache[b] else d[b]
    {
      if b in lh {
        var j :| 0 <= j < |lh| && lh[j] == b;
        assert e[LogSlot(j)] == cache[b];
      }
    }
  }

  /** An install that was logged changes nothing that recovery would bring back. */
  lemma Installed(d: Disk, lh: seq<nat>, i: nat)
    requires GoodHeader(d) && Header(d) == lh && i < |lh|
    ensures var e := d[lh[i] := d[LogSlot(i)]];
            GoodHeader(e) && Header(e) == lh && SameHome(Recovered(e), Recovered(d))
  {
    var e := d[lh[i] := d[LogSlot(i)]];
    assert e[LOGSTART] == d[LOGSTART];
    RedoAt(d, lh, |lh|);
    RedoAt(e, lh, |lh|);
    forall b | IsHome(b)
      ensures Recovered(e)[b] == Recovered(d)[b]
    {
      if b in lh {
        var j :| 0 <= j < |lh| && lh[j] == b;
        assert e[LogSlot(j)] == d[LogSlot(j)];
      }
    }
  }

  /** With every block in place, recovery has nothing left to change but the header. */
  lemma AllInstalled(d: Disk, lh: seq<nat>)
    requires GoodHeader(d) && Header(d) == lh
    requires forall j :: 0 <= j < |lh| ==> d[lh[j]] == d[LogSlot(j)]
    ensures SameHome(Recovered(d), d)
  {
    RedoAt(d, lh, |lh|);
    forall b | IsHome(b)
      ensures Recovered(d)[b] == d[b]
    {
      if b in lh {
        var j :| 0 <= j < |lh| && lh[j] == b;
      }
    }
  }

  lemma GroupOwned(s: State, t: State)
    requires WholeOps(s) && s.ops == t.ops == []
    requires t.committed == s.committed + s.cur && t.cur == [] && t.lost == s.lost && t.nextOp == s.nextOp
    ensures WholeOps(t)
  {
  }

  lemma WriteLogKeeps(home: Disk, s: State)
    requires Inv(home, s) && s.pc.WriteLog?
    ensures Inv(home, CommitStep(s))
  {
    hide Recovered, Redo, Replay, Header, GoodHeader, WithHeader, WholeOps;
    var t := CommitStep(s);
    if s.pc.tail < |s.lh| {
      SlotWritten(s.disk, s.pc.tail, s.cache[s.lh[s.pc.tail]]);
      OwnedAlike(s, t);
    } else {
      HeadWritten(s.disk, s.lh, s.cache);
      ReplayConcat(home, s.committed, s.cur);
      GroupOwned(s, t);
    }
  }

  lemma OwnedAlike(s: State, t: State)
    requires WholeOps(s) && t.ops == s.ops && t.nextOp == s.nextOp
    requires t.committed == s.committed && t.cur == s.cur && t.lost == s.lost
    ensures WholeOps(t)
  {
  }

  lemma InstallKeeps(home: Disk, s: State)
    requires Inv(home, s) && s.pc.Install?
    ensures Inv(home, CommitStep(s))
  {
    hide Recovered, Redo, Replay, Header, GoodHeader, WithHeader, WholeOps;
    OwnedAlike(s, CommitStep(s));
    if s.pc.tail < |s.lh| {
      Installed(s.disk, s.lh, s.pc.tail);
    } else {
      AllInstalled(s.disk, s.lh);
      ClearedHeader(s.disk);
    }
  }

  lemma CommitKeeps(home: Disk, s: State)
    requires Inv(home, s) && s.committing
    ensures Inv(home, CommitStep(s))
  {
    match s.pc
    case WriteLog(_) => WriteLogKeeps(home, s);
    case Install(_) => InstallKeeps(home, s);
    case _ => EmptyHeader(s.disk);
  }

  lemma RecoverKeeps(home: Disk, s: State)
    requires Inv(home, s) && s.pc.Recover?
    ensures Inv(home, RecoverStep(s))
  {
    hide Recovered, Redo, Replay, Header, GoodHeader, WithHeader, WholeOps;
    OwnedAlike(s, RecoverStep(s));
    ReplayNone(Replay(home, s.committed));
    if s.pc.tail < |s.lh| {
      Installed(s.disk, s.lh, s.pc.tail);
    } else {
      AllInstalled(s.disk, s.lh);
      ClearedHeader(s.disk);
    }
  }

  lemma CrashKeeps(home: Disk, s: State)
    requires Inv(home, s)
    ensures Inv(home, Crash(s))
  {
  }

  lemma StepKeeps(limit: nat, home: Disk, s: State, t: State)
    requires Inv(home, s) && Step(limit, s, t)
    ensures Inv(home, t)
  {
    if BeginOp(s, t) {
      BeginKeeps(home, s, t);
    } else if i, b, data :| LogWrite(limit, s, t, i, b, data) {
      LogWriteKeeps(limit, home, s, t, i, b, data);
    } else if i :| EndOp(s, t, i) {
      EndKeeps(home, s, t, i);
    } else if s.committing && t == CommitStep(s) {
      CommitKeeps(home, s);
    } else if s.pc.Recover? && t == RecoverStep(s) {
      RecoverKeeps(home, s);
    } else {
      CrashKeeps(home, s);
    }
  }
}
