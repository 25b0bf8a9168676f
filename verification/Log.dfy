/**
 log.c in its own form: the global log with its in-memory header, and the loops that move
 blocks between buffers, log area and home. Every method is proved against the steps of
 LogProtocol; the device keeps the image after each of its writes, so that Commit and
 RecoverFromLog can promise something about a crash at any point inside them.
 */
module Log {
  import opened LogProtocol
  import opened Basics

  // ---- commit() as a sequence of disk images ------------------------------------------

  /** The disk after the first k of write_log's writes. */
  function LogArea(d: Disk, lh: seq<nat>, cache: map<nat, Block>, k: nat): Disk
    requires GoodList(lh) && k <= |lh| && forall b :: b in lh ==> b in cache
  {
    if k == 0 then d else LogArea(d, lh, cache, k - 1)[LogSlot(k - 1) := cache[lh[k - 1]]]
  }

  /** The disk right after the first write_head. */
  function HeadDisk(d: Disk, lh: seq<nat>, cache: map<nat, Block>): (e: Disk)
    requires GoodList(lh) && forall b :: b in lh ==> b in cache
    ensures GoodHeader(e) && Header(e) == lh
  {
    var e := LogArea(d, lh, cache, |lh|);
    WithHeaderReadsBack(e, lh);
    WithHeader(e, lh)
  }

  /** The disk after k of the 2n + 2 writes of commit(): n log blocks, the header, n installs,
      the cleared header. From the header on these are the images of a recovery. */
  function CommitSteps(d: Disk, lh: seq<nat>, cache: map<nat, Block>, k: nat): Disk
    requires GoodList(lh) && k <= 2 * |lh| + 2 && forall b :: b in lh ==> b in cache
  {
    if k <= |lh| then LogArea(d, lh, cache, k)
    else RecoverSteps(HeadDisk(d, lh, cache), k - |lh| - 1)
  }

  lemma {:induction false} LogAreaAt(d: Disk, lh: seq<nat>, cache: map<nat, Block>, k: nat)
    requires GoodList(lh) && k <= |lh| && forall b :: b in lh ==> b in cache
    ensures var e := LogArea(d, lh, cache, k);
            && e[LOGSTART] == d[LOGSTART] && SameHome(e, d)
            && forall j :: 0 <= j < k ==> e[LogSlot(j)] == cache[lh[j]]
  {
    if k > 0 {
      LogAreaAt(d, lh, cache, k - 1);
    }
  }

  /** A crash during commit() is all or nothing, and the turning point is write n + 1: through
      the n log writes recovery gives the old home blocks, from the header write on the cached
      ones. */
  lemma CommitIsAtomic(d: Disk, lh: seq<nat>, cache: map<nat, Block>, k: nat)
    requires GoodHeader(d) && Header(d) == [] && GoodList(lh) && k <= 2 * |lh| + 2
    requires forall b :: b in lh ==> b in cache
    ensures var e := CommitSteps(d, lh, cache, k);
            && GoodHeader(e)
            && forall b :: IsHome(b) ==> Recovered(e)[b] == if k > |lh| && b in lh then cache[b] else d[b]
  {
    if k <= |lh| {
      LogAreaAt(d, lh, cache, k);
      EmptyHeader(LogArea(d, lh, cache, k));
    } else {
      LogAreaAt(d, lh, cache, |lh|);
      HeadWritten(LogArea(d, lh, cache, |lh|), lh, cache);
      InterruptedRecovery(HeadDisk(d, lh, cache), k - |lh| - 1);
    }
  }

  /** The number of writes done by a committer at pc. */
  function Position(pc: Pc, n: nat): nat {
    match pc
    case WriteLog(i) => i
    case Install(i) => n + 1 + i
    case _ => 2 * n + 2
  }

  /** The protocol's commit steps are these writes, one after the other. */
  lemma ProtocolWritesTheseImages(s: State, d: Disk)
    requires GoodList(s.lh) && (s.pc.WriteLog? || s.pc.Install?) && s.pc.tail <= |s.lh|
    requires forall b :: b in s.lh ==> b in s.cache
    requires s.disk == CommitSteps(d, s.lh, s.cache, Position(s.pc, |s.lh|))
    ensures var t := CommitStep(s); var k := Position(s.pc, |s.lh|) + 1;
            && t.disk == CommitSteps(d, s.lh, s.cache, k)
            && Position(t.pc, |s.lh|) == k
  {
    if s.pc.WriteLog? { LogSteps(s, d); } else { InstallSteps(s, d); }
  }

  lemma LogSteps(s: State, d: Disk)
    requires GoodList(s.lh) && s.pc.WriteLog? && s.pc.tail <= |s.lh| && forall b :: b in s.lh ==> b in s.cache
    requires s.disk == CommitSteps(d, s.lh, s.cache, Position(s.pc, |s.lh|))
    ensures var t := CommitStep(s); var k := Position(s.pc, |s.lh|) + 1;
            t.disk == CommitSteps(d, s.lh, s.cache, k) && Position(t.pc, |s.lh|) == k
  {
    if s.pc.tail == |s.lh| {
      assert CommitSteps(d, s.lh, s.cache, |s.lh| + 1) == HeadDisk(d, s.lh, s.cache);
    }
  }

  lemma InstallSteps(s: State, d: Disk)
    requires GoodList(s.lh) && s.pc.Install? && s.pc.tail <= |s.lh| && forall b :: b in s.lh ==> b in s.cache
    requires s.disk == CommitSteps(d, s.lh, s.cache, Position(s.pc, |s.lh|))
    ensures var t := CommitStep(s); var k := Position(s.pc, |s.lh|) + 1;
            t.disk == CommitSteps(d, s.lh, s.cache, k) && Position(t.pc, |s.lh|) == k
  {
    var e := HeadDisk(d, s.lh, s.cache);
    hide LogArea, HeadDisk, WithHeader;
    RedoAt(e, s.lh, s.pc.tail);
  }

  /** The images from write j + 1 through write k. */
  ghost function CommitImages(d: Disk, lh: seq<nat>, cache: map<nat, Block>, k: nat): (images: seq<Disk>)
    requires GoodList(lh) && k <= 2 * |lh| + 2 && forall b :: b in lh ==> b in cache
    ensures |images| == k
  {
    seq(k, j requires 0 <= j < k => CommitSteps(d, lh, cache, j + 1))
  }

  ghost function RedoImages(d: Disk, lh: seq<nat>, k: nat): (images: seq<Disk>)
    requires GoodList(lh) && k <= |lh|
    ensures |images| == k
  {
    seq(k, j requires 0 <= j < k => Redo(d, lh, j + 1))
  }

  lemma ImagesCompose(d: Disk, lh: seq<nat>, cache: map<nat, Block>)
    requires GoodList(lh) && forall b :: b in lh ==> b in cache
    ensures var e := HeadDisk(d, lh, cache); var last := CommitSteps(d, lh, cache, 2 * |lh| + 2);
            CommitImages(d, lh, cache, |lh|) + [e] + RedoImages(e, lh, |lh|) + [last]
              == CommitImages(d, lh, cache, 2 * |lh| + 2)
  {
  }

  /** The disk after the header write and after the last one, as the loops leave it. */
  lemma LastImage(d: Disk, lh: seq<nat>, cache: map<nat, Block>)
    requires GoodList(lh) && forall b :: b in lh ==> b in cache
    ensures HeadDisk(d, lh, cache) == WithHeader(LogArea(d, lh, cache, |lh|), lh)
    ensures CommitSteps(d, lh, cache, 2 * |lh| + 2) == WithHeader(Redo(HeadDisk(d, lh, cache), lh, |lh|), [])
  {
  }

  lemma Settled(d: Disk, lh: seq<nat>, cache: map<nat, Block>)
    requires GoodHeader(d) && Header(d) == [] && GoodList(lh)
    requires forall b :: b in lh ==> b in cache
    ensures var e := CommitSteps(d, lh, cache, 2 * |lh| + 2);
            && GoodHeader(e) && Header(e) == []
            && forall b :: IsHome(b) ==> e[b] == if b in lh then cache[b] else d[b]
  {
    CommitIsAtomic(d, lh, cache, 2 * |lh| + 2);
    ClearedHeader(Redo(HeadDisk(d, lh, cache), lh, |lh|));
  }

  /** Image k of a commit, as recovery would see it. */
  ghost predicate CrashSafe(image: Disk, before: Disk, after: Disk, isIn: bool) {
    GoodHeader(image) && SameHome(Recovered(image), if isIn then after else before)
  }

  lemma ImageCrashSafe(d: Disk, lh: seq<nat>, cache: map<nat, Block>, k: nat)
    requires GoodHeader(d) && Header(d) == [] && GoodList(lh) && k < 2 * |lh| + 2
    requires forall b :: b in lh ==> b in cache
    ensures CrashSafe(CommitSteps(d, lh, cache, k + 1), d, CommitSteps(d, lh, cache, 2 * |lh| + 2), k >= |lh|)
  {
    hide CommitSteps, Recovered, Header;
    Settled(d, lh, cache);
    CommitIsAtomic(d, lh, cache, k + 1);
  }

  lemma ImagesCrashSafe(d: Disk, lh: seq<nat>, cache: map<nat, Block>)
    requires GoodHeader(d) && Header(d) == [] && GoodList(lh)
    requires forall b :: b in lh ==> b in cache
    ensures var images := CommitImages(d, lh, cache, 2 * |lh| + 2);
            forall k :: 0 <= k < |images| ==>
              CrashSafe(images[k], d, CommitSteps(d, lh, cache, 2 * |lh| + 2), k >= |lh|)
  {
    var images := CommitImages(d, lh, cache, 2 * |lh| + 2);
    forall k | 0 <= k < |images|
      ensures CrashSafe(images[k], d, CommitSteps(d, lh, cache, 2 * |lh| + 2), k >= |lh|)
    {
      ImageCrashSafe(d, lh, cache, k);
    }
  }

  /** What a commit leaves behind, given the images that it has written. */
  lemma CommitOutcome(d: Disk, lh: seq<nat>, cache: map<nat, Block>, h: seq<Disk>, history: seq<Disk>)
    requires GoodHeader(d) && Header(d) == [] && GoodList(lh) && forall b :: b in lh ==> b in cache
    requires history == h + CommitImages(d, lh, cache, 2 * |lh| + 2)
    ensures var last := CommitSteps(d, lh, cache, 2 * |lh| + 2);
            && GoodHeader(last) && Header(last) == []
            && (forall b :: IsHome(b) ==> last[b] == if b in lh then cache[b] else d[b])
            && h <= history && |history| == |h| + 2 * |lh| + 2
            && forall k :: |h| <= k < |history| ==> CrashSafe(history[k], d, last, k - |h| >= |lh|)
  {
    Settled(d, lh, cache);
    ImagesCrashSafe(d, lh, cache);
    hide CommitSteps, CommitImages, CrashSafe, Header;
  }

  class BlockDevice {
    var blocks: Disk
    ghost var history: seq<Disk>   // the image after each write so far

    /** One virtio_disk_rw(b, 1): atomic, as the log requires of the disk. */
    method Write(b: nat, data: Block)
      requires b < FSSIZE
      modifies this
      ensures blocks == old(blocks)[b := data]
      ensures history == old(history) + [blocks]
    {
      blocks := blocks[b := data];
      history := history + [blocks];
    }
  }

  class Log {
    const dev: BlockDevice
    var outstanding: int
    var committing: bool
    var lhN: nat
    const lhBlock: array<nat>
    var cache: map<nat, Block>   // contents of the pinned buffers
    var sleepers: nat            // processes asleep on &log

    ghost predicate Valid()
      reads this, lhBlock
    {
      lhBlock.Length == LOGSIZE && lhN <= NLOG - 1 && GoodList(lhBlock[..lhN])
    }

    ghost function Lh(): seq<nat>
      requires Valid()
      reads this, lhBlock
    {
      lhBlock[..lhN]
    }

    ghost predicate Pinned()
      requires Valid()
      reads this, lhBlock
    {
      forall b :: b in Lh() ==> b in cache
    }

    /** initlog, at boot: whatever a crash left is recovered first. */
    constructor (d: BlockDevice)
      requires GoodHeader(d.blocks)
      modifies d
      ensures Valid() && dev == d && Lh() == [] && outstanding == 0 && !committing && sleepers == 0
      ensures dev.blocks == Recovered(old(d.blocks))
    {
      dev := d;
      outstanding, committing, lhN, cache, sleepers := 0, false, 0, map[], 0;
      lhBlock := new nat[LOGSIZE](_ => 0);
      new;
      RecoverFromLog();
    }

    /** begin_op from one acquisition of log.lock to the next: admit, or go to sleep. */
    method BeginOp() returns (admitted: bool)
      requires Valid() && outstanding >= 0
      modifies `outstanding, `sleepers
      ensures Valid() && Lh() == old(Lh())
      ensures sleepers == old(sleepers) + if admitted then 0 else 1
      ensures admitted <==> !committing && |Lh()| + (old(outstanding) + 1) * 10 <= 30
      ensures outstanding == old(outstanding) + if admitted then 1 else 0
    {
      if committing {
        sleepers, admitted := sleepers + 1, false;
      } else if lhN + (outstanding + 1) * MAXOPBLOCKS > LOGSIZE {
        sleepers, admitted := sleepers + 1, false;
      } else {
        outstanding := outstanding + 1;
        admitted := true;
      }
    }

    /** The locked part of end_op; the caller commits when told to. */
    method EndOp() returns (panicked: bool, doCommit: bool)
      requires Valid() && outstanding > 0
      modifies `outstanding, `committing, `sleepers
      ensures Valid() && Lh() == old(Lh())
      ensures sleepers == if panicked || doCommit then old(sleepers) else 0
      ensures panicked == old(committing) && outstanding == old(outstanding) - 1
      ensures doCommit <==> !old(committing) && outstanding == 0
      ensures committing == (old(committing) || doCommit)
    {
      panicked, doCommit := false, false;
      outstanding := outstanding - 1;
      if committing {
        panicked := true;
        return;
      }
      if outstanding == 0 {
        doCommit := true;
        committing := true;
      } else {
        sleepers := 0;
      }
    }

    /** The end of end_op, after the commit. */
    method EndCommit()
      modifies `committing, `sleepers
      ensures !committing && sleepers == 0
    {
      committing, sleepers := false, 0;
    }

    /** The caller has changed buffer b to data and holds its lock. */
    method LogWrite(b: nat, data: Block) returns (panicked: bool)
      requires Valid() && Pinned() && IsHome(b)
      modifies `lhN, `cache, lhBlock
      ensures panicked <==> |old(Lh())| >= NLOG - 1 || outstanding < 1
      ensures Valid() && Pinned()
      ensures panicked ==> Lh() == old(Lh()) && cache == old(cache)
      ensures !panicked ==> Lh() == (if b in old(Lh()) then old(Lh()) else old(Lh()) + [b]) && cache == old(cache)[b := data]
    {
      if lhN >= LOGSIZE || lhN >= NLOG - 1 {
        return true;
      }
      if outstanding < 1 {
        return true;
      }
      panicked := false;
      var i := 0;
      while i < lhN && lhBlock[i] != b
        invariant i <= lhN && b !in lhBlock[..i]
      {
        i := i + 1;
      }
      ghost var lh := Lh();
      assert i < lhN ==> lh[i] == b;
      lhBlock[i] := b;
      if i == lhN {
        lhN := lhN + 1;
        assert Lh() == lh + [b];
      } else {
        assert Lh() == lh;
      }
      cache := cache[b := data];
    }

    /** Buffer contents first to the log area, in list order. */
    method WriteLog()
      requires Valid() && Pinned()
      modifies dev
      ensures Valid() && dev.blocks == LogArea(old(dev.blocks), Lh(), cache, lhN)
      ensures dev.history == old(dev.history) + CommitImages(old(dev.blocks), Lh(), cache, lhN)
    {
      ghost var d := dev.blocks;
      ghost var h := dev.history;
      var tail := 0;
      while tail < lhN
        invariant tail <= lhN && Valid() && dev.blocks == LogArea(d, Lh(), cache, tail)
        invariant dev.history == h + CommitImages(d, Lh(), cache, tail)
      {
        dev.Write(LogSlot(tail), cache[lhBlock[tail]]);
        tail := tail + 1;
      }
    }

    /** The header buffer keeps its old words behind the entries in use. */
    method WriteHead()
      requires Valid()
      modifies dev
      ensures Valid() && dev.blocks == WithHeader(old(dev.blocks), Lh())
      ensures dev.history == old(dev.history) + [dev.blocks]
    {
      var buf := dev.blocks[LOGSTART];
      ghost var was := buf;
      buf := buf[0 := lhN];
      var i := 0;
      while i < lhN
        invariant i <= lhN && |buf| == WORDS && buf[0] == lhN
        invariant forall j :: 0 <= j < i ==> buf[1 + j] == lhBlock[j]
        invariant forall j :: 1 + i <= j < WORDS ==> buf[j] == was[j]
      {
        buf := buf[1 + i := lhBlock[i]];
        i := i + 1;
      }
      assert buf == [lhN] + Lh() + was[1 + lhN..];
      dev.Write(LOGSTART, buf);
    }

    /** Copy the blocks of the list from the log area home. */
    method InstallTrans()
      requires Valid()
      modifies dev
      ensures Valid() && dev.blocks == Redo(old(dev.blocks), Lh(), lhN)
      ensures dev.history == old(dev.history) + RedoImages(old(dev.blocks), Lh(), lhN)
    {
      ghost var d := dev.blocks;
      ghost var h := dev.history;
      var tail := 0;
      while tail < lhN
        invariant tail <= lhN && Valid() && dev.blocks == Redo(d, Lh(), tail)
        invariant dev.history == h + RedoImages(d, Lh(), tail)
      {
        dev.Write(lhBlock[tail], dev.blocks[LogSlot(tail)]);
        tail := tail + 1;
      }
    }

    method ReadHead()
      requires Valid() && GoodHeader(dev.blocks)
      modifies `lhN, lhBlock
      ensures Valid() && Lh() == Header(dev.blocks)
    {
      var buf := dev.blocks[LOGSTART];
      ghost var lh := Header(dev.blocks);
      lhN := 0;
      var i := 0;
      while i < buf[0]
        invariant 0 <= i <= buf[0] && lhBlock[..i] == lh[..i]
      {
        assert IsHome(lh[i]);
        lhBlock[i] := buf[1 + i];
        i := i + 1;
      }
      assert lh[..i] == lh;
      lhN := buf[0];
    }

    /** Redo what a committed header asks for, then clear it. Any image a crash may leave in
        between recovers to the same home blocks. */
    method RecoverFromLog()
      requires Valid() && GoodHeader(dev.blocks)
      modifies this, lhBlock, dev
      ensures Valid() && Lh() == [] && dev.blocks == Recovered(old(dev.blocks))
      ensures outstanding == old(outstanding) && committing == old(committing) && sleepers == old(sleepers)
      ensures old(dev.history) <= dev.history
      ensures forall k :: |old(dev.history)| <= k < |dev.history| ==>
                GoodHeader(dev.history[k]) && SameHome(Recovered(dev.history[k]), dev.blocks)
    {
      ghost var d := dev.blocks;
      ghost var h := dev.history;
      ReadHead();
      ghost var lh := Lh();
      InstallTrans();
      lhN := 0;
      WriteHead();
      assert dev.blocks == RecoverSteps(d, |lh| + 1);
      forall k | |h| <= k < |dev.history|
        ensures GoodHeader(dev.history[k]) && SameHome(Recovered(dev.history[k]), dev.blocks)
      {
        var j := k - |h|;
        assert dev.history[k] == RecoverSteps(d, j + 1);
        InterruptedRecovery(d, j + 1);
      }
      cache := map[];
    }

    /** The whole group reaches its homes. An image that a crash leaves inside recovers to the
        old home blocks as long as the header is unwritten, and to the new ones after. */
    method Commit()
      requires Valid() && Pinned() && GoodHeader(dev.blocks) && Header(dev.blocks) == []
      modifies this, dev
      ensures Valid() && Lh() == [] && GoodHeader(dev.blocks) && Header(dev.blocks) == []
      ensures old(dev.history) <= dev.history
      ensures forall b :: IsHome(b) ==>
                dev.blocks[b] == if b in old(Lh()) then old(cache)[b] else old(dev.blocks)[b]
      ensures forall k :: |old(dev.history)| <= k < |dev.history| ==>
                CrashSafe(dev.history[k], old(dev.blocks), dev.blocks, k - |old(dev.history)| >= |old(Lh())|)
      ensures |dev.history| == |old(dev.history)| + if old(Lh()) == [] then 0 else 2 * |old(Lh())| + 2
      ensures outstanding == old(outstanding) && committing == old(committing) && sleepers == old(sleepers)
    {
      if lhN > 0 {
        ghost var d, h, lh, c := dev.blocks, dev.history, Lh(), cache;
        assert Pinned() && forall b :: b in lh ==> b in c;
        hide CommitImages, CommitSteps, CrashSafe, Header, Pinned;
        CommitWrites();
        CommitOutcome(d, lh, c, h, dev.history);
      }
    }

    /** The four phases, and the writes they make. */
    method CommitWrites()
      requires Valid() && Pinned()
      modifies this, dev
      ensures Valid() && Lh() == []
      ensures dev.blocks == CommitSteps(old(dev.blocks), old(Lh()), old(cache), 2 * |old(Lh())| + 2)
      ensures dev.history == old(dev.history) + CommitImages(old(dev.blocks), old(Lh()), old(cache), 2 * |old(Lh())| + 2)
      ensures outstanding == old(outstanding) && committing == old(committing) && sleepers == old(sleepers)
    {
      ghost var d, h, lh, c := dev.blocks, dev.history, Lh(), cache;
      hide LogArea, Redo, WithHeader, Header, HeadDisk, CommitSteps, CommitImages, RedoImages;
      WriteGroup();
      ghost var e := dev.blocks;
      InstallGroup();
      LastImage(d, lh, c);
      ImagesCompose(d, lh, c);
      HistoryJoins(h, CommitImages(d, lh, c, |lh|), [e], RedoImages(e, lh, |lh|), [dev.blocks]);
    }

    /** The group is in the log, and its header committed. */
    method WriteGroup()
      requires Valid() && Pinned()
      modifies dev
      ensures Valid() && dev.blocks == HeadDisk(old(dev.blocks), Lh(), cache)
      ensures dev.history == old(dev.history) + CommitImages(old(dev.blocks), Lh(), cache, |Lh()|) + [dev.blocks]
    {
      hide LogArea, WithHeader, Header, CommitSteps, CommitImages;
      ghost var d := dev.blocks;
      WriteLog();
      WriteHead();
      LastImage(d, Lh(), cache);
    }

    /** The group is home, and the header clear. */
    method InstallGroup()
      requires Valid()
      modifies this, dev
      ensures Valid() && Lh() == [] && dev.blocks == WithHeader(Redo(old(dev.blocks), old(Lh()), |old(Lh())|), [])
      ensures dev.history == old(dev.history) + RedoImages(old(dev.blocks), old(Lh()), |old(Lh())|) + [dev.blocks]
      ensures outstanding == old(outstanding) && committing == old(committing) && sleepers == old(sleepers)
    {
      hide Redo, WithHeader, RedoImages;
      InstallTrans();
      lhN := 0;
      assert Lh() == [];
      WriteHead();
      cache := map[];
    }
  }

  lemma HistoryJoins(h: seq<Disk>, a: seq<Disk>, b: seq<Disk>, c: seq<Disk>, d: seq<Disk>)
    ensures h + a + b + c + d == h + (a + b + c + d)
  {
  }
}
