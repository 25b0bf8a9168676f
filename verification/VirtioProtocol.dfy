/**
 The virtio block driver of virtio_disk.c and its device as a state machine (sections 2.6 and
 5.2.6 of VIRTIO 1.1). Driver steps are the stretches that hold vdisk_lock; the device takes
 requests from the available ring and completes them in any order, reading only the descriptor
 memory. The two rings appear as the queues of entries not yet seen by the other side;
 VirtioDriver shows that the 16-bit indices implement such queues.
 */
module VirtioProtocol {
  import opened Basics

  const NUM: nat := 8
  const BSIZE: nat := 1024

  /** The addresses the driver gives to the device, symbolically. */
  datatype Addr = Zero | OpAddr(i: nat) | BufAddr(buf: nat) | StatusAddr(i: nat)

  datatype Desc = Desc(addr: Addr, len: nat, hasNext: bool, devWrites: bool, next: nat)

  const NODESC: Desc := Desc(Zero, 0, false, false, 0)

  /** Block numbers whose sector, blockno * (BSIZE / 512) in 32 bits, does not wrap: balloc counts
      blocks with an int, so a file system has no others. */
  type BlockNo = n: nat | n < 0x8000_0000
  type Sector = n: nat | n < 0x1_0000_0000

  /** struct virtio_blk_req, and the driver's note about a chain. */
  datatype BlkReq = BlkReq(out: bool, sector: Sector)
  datatype Info = Info(b: Option<nat>, status: nat)

  /** The part of struct disk that both sides work on. */
  datatype Mem = Mem(free: seq<bool>, desc: seq<Desc>, ops: seq<BlkReq>, info: seq<Info>)

  predicate Sized(m: Mem) {
    |m.free| == NUM && |m.desc| == NUM && |m.ops| == NUM && |m.info| == NUM
  }

  // ---- the driver's operations on descriptors ----------------------------------------------

  /** The lowest free descriptor from i on, NUM if there is none. */
  function Lowest(free: seq<bool>, i: nat): (r: nat)
    requires |free| == NUM && i <= NUM
    ensures i <= r <= NUM && (r < NUM ==> free[r]) && forall j :: i <= j < r ==> !free[j]
    decreases NUM - i
  {
    if i == NUM || free[i] then i else Lowest(free, i + 1)
  }

  /** The three lowest free descriptors, if there are three. */
  function Three(free: seq<bool>): (r: Option<(nat, nat, nat)>)
    requires |free| == NUM
    ensures r.Some? ==>
              && r.value.0 < r.value.1 < r.value.2 < NUM
              && free[r.value.0] && free[r.value.1] && free[r.value.2]
              && forall j :: 0 <= j < r.value.2 && free[j] ==> j == r.value.0 || j == r.value.1
  {
    var a := Lowest(free, 0);
    var b := if a < NUM then Lowest(free, a + 1) else NUM;
    var c := if b < NUM then Lowest(free, b + 1) else NUM;
    if c < NUM then Some((a, b, c)) else None
  }

  function FreeDesc(m: Mem, i: nat): Mem
    requires Sized(m) && i < NUM
  {
    m.(desc := m.desc[i := NODESC], free := m.free[i := true])
  }

  /** The chain for one request: header, data, status. */
  function Format(m: Mem, c: (nat, nat, nat), buf: nat, blockno: BlockNo, write: bool): Mem
    requires Sized(m) && c.0 < NUM && c.1 < NUM && c.2 < NUM
  {
    Mem(m.free[c.0 := false][c.1 := false][c.2 := false],
        m.desc[c.0 := Desc(OpAddr(c.0), 16, true, false, c.1)]
              [c.1 := Desc(BufAddr(buf), BSIZE, true, !write, c.2)]
              [c.2 := Desc(StatusAddr(c.0), 1, false, true, 0)],
        m.ops[c.0 := BlkReq(write, blockno * (BSIZE / 512))],
        m.info[c.0 := Info(Some(buf), 0xff)])
  }

  // ---- states ---------------------------------------------------------------------------------

  /** Where a submitted request is: in the available ring, inside the device, in the used ring,
      or seen by the interrupt handler. */
  datatype Stage = Avail | Taken | Used | Done

  /** A request, under the index of its head descriptor. id, and the wish of the caller behind
      it, are history. */
  datatype Req = Req(id: nat, pid: nat, i1: nat, i2: nat, stage: Stage, asleep: bool)

  datatype Wish = Wish(buf: nat, blockno: BlockNo, write: bool)

  /** calls: processes still looking for descriptors; starved: those asleep on &free[0];
      busy: the buffers with disk == 1. owner names the head of the chain that each descriptor
      is in, NUM if none. transfers is what the device did for each request. */
  datatype State = State(
    mem: Mem, avail: seq<nat>, used: seq<nat>, busy: set<nat>,
    calls: map<nat, Wish>, starved: set<nat>, reqs: map<nat, Req>, owner: seq<nat>,
    wishes: seq<Wish>, transfers: map<nat, Wish>, finished: set<nat>,
    repeated: bool, panicked: bool)

  /** No other process works on this buffer: the caller holds its lock. */
  ghost predicate Unused(s: State, buf: nat) {
    && (forall p :: p in s.calls ==> s.calls[p].buf != buf)
    && (forall h: nat :: h in s.reqs && s.reqs[h].id < |s.wishes| ==> s.wishes[s.reqs[h].id].buf != buf)
  }

  ghost predicate Call(s: State, t: State, p: nat, w: Wish) {
    && p !in s.calls && (forall h: nat :: h in s.reqs ==> s.reqs[h].pid != p) && Unused(s, w.buf)
    && t == s.(calls := s.calls[p := w])
  }

  /** virtio_disk_rw up to its first sleep: without three descriptors the process sleeps on
      &free[0], waking others if it put some back; else the request goes out and it sleeps on
      the buffer. */
  ghost predicate Submit(s: State, t: State, p: nat) {
    && p in s.calls && p !in s.starved && Sized(s.mem) && |s.owner| == NUM
    && var w := s.calls[p];
       match Three(s.mem.free)
       case None =>
         t.starved == (if Lowest(s.mem.free, 0) < NUM then {p} else s.starved + {p})
         && t == s.(starved := t.starved)
       case Some(c) =>
         t == s.(mem := Format(s.mem, c, w.buf, w.blockno, w.write),
                 avail := s.avail + [c.0], busy := s.busy + {w.buf}, calls := s.calls - {p},
                 reqs := s.reqs[c.0 := Req(|s.wishes|, p, c.1, c.2, Avail, true)],
                 owner := s.owner[c.0 := c.0][c.1 := c.0][c.2 := c.0],
                 wishes := s.wishes + [w])
  }

  ghost predicate DeviceTakes(s: State, t: State) {
    && s.avail != [] && s.avail[0] in s.reqs
    && t == s.(avail := s.avail[1..], reqs := s.reqs[s.avail[0] := s.reqs[s.avail[0]].(stage := Taken)])
  }

  /** What the device finds by following the chain from head h: a header that it reads, a block that
      it writes or reads as the header says, and a status byte that it writes. */
  function Reads(m: Mem, h: nat): Option<(BlkReq, nat, nat)>
    requires Sized(m)
  {
    if h < NUM && m.desc[h].hasNext && !m.desc[h].devWrites && m.desc[h].len == 16
       && m.desc[h].addr.OpAddr? && m.desc[h].addr.i < NUM && m.desc[h].next < NUM then
      var d1 := m.desc[m.desc[h].next];
      if d1.hasNext && d1.devWrites == !m.ops[m.desc[h].addr.i].out && d1.len == 1024 && d1.addr.BufAddr? && d1.next < NUM then
        var d2 := m.desc[d1.next];
        if !d2.hasNext && d2.devWrites && d2.len == 1 && d2.addr.StatusAddr? && d2.addr.i < NUM then
          Some((m.ops[m.desc[h].addr.i], d1.addr.buf, d2.addr.i))
        else None
      else None
    else None
  }

  /** The device moves the data, writes status 0 where the chain says, and reports head h. */
  ghost predicate DeviceCompletes(s: State, t: State, h: nat) {
    && h in s.reqs && s.reqs[h].stage == Taken && Sized(s.mem)
    && match Reads(s.mem, h)
       case None => t == s.(panicked := true)
       case Some((req, buf, status)) =>
         t == s.(mem := s.mem.(info := s.mem.info[status := s.mem.info[status].(status := 0)]),
                 used := s.used + [h], reqs := s.reqs[h := s.reqs[h].(stage := Used)],
                 repeated := s.repeated || s.reqs[h].id in s.transfers,
                 transfers := s.transfers[s.reqs[h].id := Wish(buf, req.sector / 2, req.out)])
  }

  /** One turn of the loop in virtio_disk_intr. */
  ghost predicate Interrupt(s: State, t: State) {
    && s.used != [] && Sized(s.mem)
    && var h := s.used[0];
       if h >= NUM || h !in s.reqs || s.mem.info[h].status != 0 || s.mem.info[h].b.None? then
         t == s.(panicked := true)
       else
         t == s.(used := s.used[1..], busy := s.busy - {s.mem.info[h].b.value},
                 reqs := s.reqs[h := s.reqs[h].(stage := Done, asleep := false)])
  }

  /** The end of virtio_disk_rw, once the buffer is the driver's again: free the chain. */
  ghost predicate Finish(s: State, t: State, h: nat) {
    && h in s.reqs && !s.reqs[h].asleep && s.reqs[h].id < |s.wishes| && Sized(s.mem) && |s.owner| == NUM
    && s.wishes[s.reqs[h].id].buf !in s.busy
    && var r := s.reqs[h];
       if h >= NUM || r.i1 >= NUM || r.i2 >= NUM || s.mem.free[h] || s.mem.free[r.i1] || s.mem.free[r.i2]
          || s.mem.desc[h].next != r.i1 || s.mem.desc[r.i1].next != r.i2
          || !s.mem.desc[h].hasNext || !s.mem.desc[r.i1].hasNext || s.mem.desc[r.i2].hasNext
       then t == s.(panicked := true)   // free_desc, or a chain that is not the one built
       else
         var m := s.mem.(info := s.mem.info[h := s.mem.info[h].(b := None)]);
         t == s.(mem := FreeDesc(FreeDesc(FreeDesc(m, h), r.i1), r.i2), starved := {},
                 reqs := s.reqs - {h}, owner := s.owner[h := NUM][r.i1 := NUM][r.i2 := NUM],
                 finished := s.finished + {r.id})
  }

  ghost predicate Step(s: State, t: State) {
    !s.panicked && (
    || (exists p, w :: Call(s, t, p, w))
    || (exists p :: Submit(s, t, p))
    || DeviceTakes(s, t)
    || (exists h :: DeviceCompletes(s, t, h))
    || Interrupt(s, t)
    || (exists h :: Finish(s, t, h)))
  }

  ghost predicate Init(s: State) {
    s == State(Mem(seq(NUM, _ => true), seq(NUM, _ => NODESC), seq(NUM, _ => BlkReq(false, 0)),
                   seq(NUM, _ => Info(None, 0))),
               [], [], {}, map[], {}, map[], seq(NUM, _ => NUM), [], map[], {}, false, false)
  }

  // ---- the invariant --------------------------------------------------------------------------

  /** Descriptor i is free, or in the chain of its owner. */
  ghost predicate OwnedAt(s: State, i: nat)
    requires |s.mem.free| == NUM && |s.owner| == NUM && i < NUM
  {
    && (s.mem.free[i] <==> s.owner[i] == NUM)
    && (s.owner[i] != NUM ==>
          s.owner[i] in s.reqs && (i == s.owner[i] || i == s.reqs[s.owner[i]].i1 || i == s.reqs[s.owner[i]].i2))
  }

  /** Request h has three descriptors of its own. */
  ghost predicate ChainAt(s: State, h: nat)
    requires |s.owner| == NUM && h in s.reqs
  {
    var r := s.reqs[h];
    && h < NUM && r.i1 < NUM && r.i2 < NUM && h != r.i1 && h != r.i2 && r.i1 != r.i2
    && s.owner[h] == h && s.owner[r.i1] == h && s.owner[r.i2] == h
  }

  /** Descriptors are free or in exactly one three-element chain. */
  ghost predicate Partition(s: State) {
    && Sized(s.mem) && |s.owner| == NUM
    && (forall i: nat {:trigger OwnedAt(s, i)} :: i < NUM ==> OwnedAt(s, i))
    && (forall h: nat :: h in s.reqs ==> ChainAt(s, h))
  }

  /** The chain of request r says what its caller wished. */
  ghost predicate Formatted(m: Mem, h: nat, r: Req, w: Wish)
    requires Sized(m) && h < NUM && r.i1 < NUM && r.i2 < NUM
  {
    && m.desc[h] == Desc(OpAddr(h), 16, true, false, r.i1)
    && m.desc[r.i1] == Desc(BufAddr(w.buf), BSIZE, true, !w.write, r.i2)
    && m.desc[r.i2] == Desc(StatusAddr(h), 1, false, true, 0)
    && m.ops[h] == BlkReq(w.write, w.blockno * 2)
    && m.info[h].b == Some(w.buf)
    && (m.info[h].status == 0 <==> r.stage == Used || r.stage == Done)
  }

  ghost predicate Chains(s: State)
    requires Partition(s)
  {
    forall h: nat :: h in s.reqs ==> FormattedAt(s, h)
  }

  ghost predicate FormattedAt(s: State, h: nat)
    requires Sized(s.mem) && |s.owner| == NUM && h in s.reqs && ChainAt(s, h)
  {
    s.reqs[h].id < |s.wishes| && Formatted(s.mem, h, s.reqs[h], s.wishes[s.reqs[h].id])
  }

  /** Each request is in the queue its stage names, once. */
  ghost predicate Queues(s: State) {
    && Distinct(s.avail) && Distinct(s.used)
    && (forall h: nat :: h in s.avail <==> h in s.reqs && s.reqs[h].stage == Avail)
    && (forall h: nat :: h in s.used <==> h in s.reqs && s.reqs[h].stage == Used)
  }

  /** Buffers and identifiers tell requests and callers apart. */
  ghost predicate Separate(s: State) {
    && (forall h: nat :: h in s.reqs ==> s.reqs[h].id < |s.wishes|)
    && (forall h: nat, g: nat :: h in s.reqs && g in s.reqs && h != g ==>
          s.reqs[h].id != s.reqs[g].id && s.wishes[s.reqs[h].id].buf != s.wishes[s.reqs[g].id].buf)
    && (forall h, p :: h in s.reqs && p in s.calls ==> s.wishes[s.reqs[h].id].buf != s.calls[p].buf)
    && (forall p, q :: p in s.calls && q in s.calls && p != q ==> s.calls[p].buf != s.calls[q].buf)
    && (forall h: nat :: h in s.reqs ==> s.reqs[h].id !in s.finished)
    && (forall i: nat :: i in s.finished ==> i < |s.wishes|)
  }

  /** A process sleeps on its buffer only while the device owns it, and on &free[0] only while
      three descriptors are not to be had. */
  ghost predicate NoLostWakeup(s: State)
    requires Sized(s.mem) && forall h: nat :: h in s.reqs ==> s.reqs[h].id < |s.wishes|
  {
    && (forall h: nat :: h in s.reqs ==> (s.wishes[s.reqs[h].id].buf in s.busy <==> s.reqs[h].stage != Done))
    && (forall h: nat :: h in s.reqs && s.reqs[h].asleep ==> s.reqs[h].stage != Done)
    && (s.starved != {} ==> Three(s.mem.free).None?)
  }

  /** The device did for each request what was wished, once, and not before it was told. */
  ghost predicate OnceEach(s: State) {
    && !s.repeated
    && (forall i: nat :: i in s.transfers ==> i < |s.wishes| && s.transfers[i] == s.wishes[i])
    && (forall h: nat :: h in s.reqs ==>
          (s.reqs[h].id in s.transfers <==> s.reqs[h].stage == Used || s.reqs[h].stage == Done))
    && (forall i: nat :: i in s.finished ==> i in s.transfers)
  }

  ghost predicate Inv(s: State) {
    && !s.panicked && Partition(s) && Chains(s) && Queues(s) && Separate(s) && NoLostWakeup(s) && OnceEach(s)
  }

  lemma InitInv(s: State)
    requires Init(s)
    ensures Inv(s)
  {
  }

  lemma CallKeeps(s: State, t: State, p: nat, w: Wish)
    requires Inv(s) && Call(s, t, p, w)
    ensures Inv(t)
  {
    hide Three, Lowest, Partition, Chains, Separate;
    assert Partition(t) && Chains(t) by { SameChains(s, t); }
    CallSeparate(s, t, p, w);
    PartitionSized(t);
    assert Separate(t) ==> forall h: nat :: h in t.reqs ==> t.reqs[h].id < |t.wishes| by { SeparateIds(t); }
  }

  lemma SeparateIds(s: State)
    ensures Separate(s) ==> forall h: nat :: h in s.reqs ==> s.reqs[h].id < |s.wishes|
  {
  }

  lemma CallSeparate(s: State, t: State, p: nat, w: Wish)
    requires Separate(s) && Call(s, t, p, w)
    ensures Separate(t)
  {
    hide Three, Lowest;
  }

  // ---- submitting -----------------------------------------------------------------------------

  ghost predicate Submits(s: State, t: State, p: nat, c: (nat, nat, nat)) {
    Submit(s, t, p) && Three(s.mem.free) == Some(c)
  }

  /** Free descriptors are in nobody's chain. */
  lemma FreshApart(s: State, c: (nat, nat, nat), h: nat)
    requires Partition(s) && Three(s.mem.free) == Some(c) && h in s.reqs
    ensures h < NUM && s.reqs[h].i1 < NUM && s.reqs[h].i2 < NUM
    ensures h !in {c.0, c.1, c.2} && s.reqs[h].i1 !in {c.0, c.1, c.2} && s.reqs[h].i2 !in {c.0, c.1, c.2}
  {
    hide Three, Lowest;
    assert OwnedAt(s, c.0) && OwnedAt(s, c.1) && OwnedAt(s, c.2) && ChainAt(s, h);
  }

  lemma SubmitPartition(s: State, t: State, p: nat, c: (nat, nat, nat))
    requires Partition(s) && Submits(s, t, p, c)
    ensures Partition(t) && c.0 !in s.reqs
  {
    hide Three, Lowest;
    assert c.0 !in s.reqs by {
      if c.0 in s.reqs { FreshApart(s, c, c.0); }
    }
    forall h: nat | h in t.reqs ensures ChainAt(t, h) {
      SubmitChainAt(s, t, p, c, h);
    }
    forall i: nat | i < NUM ensures OwnedAt(t, i) {
      assert OwnedAt(s, i);
      SubmitOwned(s, t, p, c, i);
    }
  }

  lemma SubmitChainAt(s: State, t: State, p: nat, c: (nat, nat, nat), h: nat)
    requires Partition(s) && Submits(s, t, p, c) && h in t.reqs
    ensures |t.owner| == NUM && ChainAt(t, h)
  {
    if h != c.0 {
      FreshApart(s, c, h);
      assert ChainAt(s, h);
    }
    hide Three, Lowest, Partition, Format;
  }

  lemma SubmitOwned(s: State, t: State, p: nat, c: (nat, nat, nat), i: nat)
    requires Submits(s, t, p, c) && Sized(s.mem) && |s.owner| == NUM && i < NUM && OwnedAt(s, i)
    requires c.0 !in s.reqs
    ensures |t.mem.free| == NUM && |t.owner| == NUM && OwnedAt(t, i)
  {
    hide Three, Lowest;
  }

  lemma SubmitChains(s: State, t: State, p: nat, c: (nat, nat, nat))
    requires Partition(s) && Chains(s) && Submits(s, t, p, c) && Partition(t)
    ensures Chains(t)
  {
    hide Three, Lowest, Format, FormattedAt, OwnedAt;
    forall h: nat | h in t.reqs ensures FormattedAt(t, h) {
      assert ChainAt(t, h);
      if h != c.0 {
        FreshApart(s, c, h);
        assert ChainAt(s, h) && FormattedAt(s, h);
        SubmitFormatted(s, t, p, c, h);
      } else {
        SubmitFormatsNew(s, t, p, c);
      }
    }
  }

  lemma SubmitFormatsNew(s: State, t: State, p: nat, c: (nat, nat, nat))
    requires Submits(s, t, p, c) && Sized(t.mem) && |t.owner| == NUM && c.0 in t.reqs && ChainAt(t, c.0)
    ensures FormattedAt(t, c.0)
  {
    hide Three, Lowest;
  }

  lemma SubmitFormatted(s: State, t: State, p: nat, c: (nat, nat, nat), h: nat)
    requires Sized(s.mem) && |s.owner| == NUM && |t.owner| == NUM && Submits(s, t, p, c) && h != c.0
    requires h in s.reqs && ChainAt(s, h) && FormattedAt(s, h) && ChainAt(t, h) && Sized(t.mem)
    requires s.reqs[h].i1 !in {c.0, c.1, c.2} && s.reqs[h].i2 !in {c.0, c.1, c.2} && h !in {c.0, c.1, c.2}
    ensures FormattedAt(t, h)
  {
    hide Three, Lowest;
  }

  lemma SubmitQueues(s: State, t: State, p: nat, c: (nat, nat, nat))
    requires Submits(s, t, p, c) && c.0 !in s.reqs && Queues(s)
    ensures Queues(t)
  {
    hide Three, Lowest, Format;
    assert forall h: nat :: h in t.avail <==> h in s.avail || h == c.0;
  }

  lemma SubmitSeparate(s: State, t: State, p: nat, c: (nat, nat, nat))
    requires Submits(s, t, p, c) && c.0 !in s.reqs && Separate(s)
    ensures Separate(t)
  {
    hide Three, Lowest, Format;
  }

  lemma SubmitOnce(s: State, t: State, p: nat, c: (nat, nat, nat))
    requires Submits(s, t, p, c) && c.0 !in s.reqs && Separate(s) && OnceEach(s)
    ensures OnceEach(t)
  {
    hide Three, Lowest, Format;
  }

  lemma SubmitWakeups(s: State, t: State, p: nat, c: (nat, nat, nat))
    requires Submits(s, t, p, c) && c.0 !in s.reqs && Separate(s) && NoLostWakeup(s) && Sized(t.mem)
    requires Separate(t)
    ensures NoLostWakeup(t)
  {
    hide Lowest, Format;
  }

  lemma SubmitKeeps(s: State, t: State, p: nat)
    requires Inv(s) && Submit(s, t, p)
    ensures Inv(t)
  {
    hide Partition, Chains, Queues, Separate, NoLostWakeup, OnceEach, Three, Lowest, Format;
    match Three(s.mem.free) {
      case None => StarveKeeps(s, t, p);
      case Some(c) =>
        SubmitPartition(s, t, p, c);
        SubmitChains(s, t, p, c);
        SubmitQueues(s, t, p, c);
        SubmitSeparate(s, t, p, c);
        SubmitOnce(s, t, p, c);
        assert Sized(t.mem) by { PartitionSized(t); }
        SubmitWakeups(s, t, p, c);
    }
  }

  lemma PartitionSized(s: State)
    requires Partition(s)
    ensures Sized(s.mem)
  {
  }

  lemma StarveKeeps(s: State, t: State, p: nat)
    requires Inv(s) && Submit(s, t, p) && Three(s.mem.free).None?
    ensures Inv(t)
  {
    hide Lowest, Three;
    SameChains(s, t);
  }

  /** Partition and Chains depend on the memory, the chains' owners and the requests only. */
  lemma SameChains(s: State, t: State)
    requires Partition(s) && Chains(s)
    requires t.mem == s.mem && t.owner == s.owner && t.reqs == s.reqs && t.wishes == s.wishes
    ensures Partition(t) && Chains(t)
  {
    forall h: nat | h in t.reqs ensures ChainAt(t, h) { assert ChainAt(s, h); }
    forall i: nat | i < NUM ensures OwnedAt(t, i) { assert OwnedAt(s, i); }
    forall h: nat | h in t.reqs ensures FormattedAt(t, h) { assert FormattedAt(s, h); }
  }

  // ---- the device and the interrupt -----------------------------------------------------------

  /** A request in another stage: same descriptors, same identity. */
  ghost predicate Moved(s: State, t: State, h: nat, r: Req) {
    && h in s.reqs && t.reqs == s.reqs[h := r]
    && r.id == s.reqs[h].id && r.i1 == s.reqs[h].i1 && r.i2 == s.reqs[h].i2
    && t.owner == s.owner && t.wishes == s.wishes && t.calls == s.calls && t.finished == s.finished
  }

  /** A request moves to its next stage, and its status byte may become 0: the chains stay. */
  lemma MovedPartition(s: State, t: State, h: nat, r: Req)
    requires Partition(s) && Moved(s, t, h, r) && Sized(t.mem) && t.mem.free == s.mem.free
    ensures Partition(t)
  {
    forall g: nat | g in t.reqs ensures ChainAt(t, g) { assert ChainAt(s, g); }
    forall i: nat | i < NUM ensures OwnedAt(t, i) { assert OwnedAt(s, i); }
  }

  lemma MovedChains(s: State, t: State, h: nat, r: Req)
    requires Partition(s) && Chains(s) && Moved(s, t, h, r) && Partition(t) && h < NUM
    requires t.mem == s.mem || t.mem == s.mem.(info := s.mem.info[h := s.mem.info[h].(status := 0)])
    requires t.mem.info[h].status == 0 <==> r.stage == Used || r.stage == Done
    ensures Chains(t)
  {
    hide OwnedAt, Formatted;
    forall g: nat | g in t.reqs ensures FormattedAt(t, g) {
      assert ChainAt(s, g) && ChainAt(t, g) && FormattedAt(s, g);
      MovedFormatted(s.mem, t.mem, g, s.reqs[g], t.reqs[g], s.wishes[s.reqs[g].id], h);
    }
  }

  lemma MovedFormatted(m: Mem, n: Mem, g: nat, q: Req, r: Req, w: Wish, h: nat)
    requires Sized(m) && Sized(n) && g < NUM && h < NUM && q.i1 == r.i1 < NUM && q.i2 == r.i2 < NUM && Formatted(m, g, q, w)
    requires n == m || n == m.(info := m.info[h := m.info[h].(status := 0)])
    requires if g == h then n.info[h].status == 0 <==> r.stage == Used || r.stage == Done else r == q
    ensures Formatted(n, g, r, w)
  {
  }

  lemma MovedSeparate(s: State, t: State, h: nat, r: Req)
    requires Separate(s) && Moved(s, t, h, r)
    ensures Separate(t)
  {
    assert t.reqs.Keys == s.reqs.Keys;
  }

  lemma Restaged(s: State, t: State, h: nat, r: Req)
    requires Partition(s) && Chains(s) && Separate(s) && Moved(s, t, h, r) && h < NUM
    requires t.mem == s.mem || t.mem == s.mem.(info := s.mem.info[h := s.mem.info[h].(status := 0)])
    requires t.mem.info[h].status == 0 <==> r.stage == Used || r.stage == Done
    ensures Partition(t) && Chains(t) && Separate(t)
  {
    hide Partition, Chains, Separate;
    PartitionSized(s);
    MovedPartition(s, t, h, r);
    MovedChains(s, t, h, r);
    MovedSeparate(s, t, h, r);
  }

  lemma TakesQueues(s: State, t: State)
    requires Queues(s) && DeviceTakes(s, t)
    ensures Queues(t) && s.reqs[s.avail[0]].stage == Avail
  {
    var h := s.avail[0];
    assert h in s.avail;
    assert forall g: nat :: g in t.avail <==> g in s.avail && g != h by {
      assert s.avail == [h] + t.avail;
    }
  }

  lemma TakesRest(s: State, t: State)
    requires Separate(s) && OnceEach(s) && Sized(s.mem) && NoLostWakeup(s) && DeviceTakes(s, t)
    requires s.reqs[s.avail[0]].stage == Avail && Separate(t)
    ensures OnceEach(t) && Sized(t.mem) && NoLostWakeup(t)
  {
    hide Three, Lowest;
  }

  lemma TakesKeeps(s: State, t: State)
    requires Inv(s) && DeviceTakes(s, t)
    ensures Inv(t)
  {
    TakesQueues(s, t);
    PartitionSized(s);
    var h := s.avail[0];
    assert ChainAt(s, h) && FormattedAt(s, h);
    hide Partition, Chains, Separate, NoLostWakeup, OnceEach, Queues;
    Restaged(s, t, h, s.reqs[h].(stage := Taken));
    TakesRest(s, t);
  }

  /** The device reads exactly what was wished. */
  lemma ReadsTheWish(s: State, h: nat)
    requires Partition(s) && Chains(s) && h in s.reqs
    ensures h < NUM
    ensures s.reqs[h].id < |s.wishes|
    ensures Reads(s.mem, h) ==
            Some((BlkReq(s.wishes[s.reqs[h].id].write, s.wishes[s.reqs[h].id].blockno * 2), s.wishes[s.reqs[h].id].buf, h))
  {
    assert ChainAt(s, h) && FormattedAt(s, h);
  }

  lemma CompletesQueues(s: State, t: State, h: nat)
    requires Queues(s) && h in s.reqs && s.reqs[h].stage == Taken
    requires t.reqs == s.reqs[h := s.reqs[h].(stage := Used)] && t.avail == s.avail && t.used == s.used + [h]
    ensures Queues(t)
  {
    assert forall g: nat :: g in t.used <==> g in s.used || g == h;
  }

  lemma CompletesRest(s: State, t: State, h: nat)
    requires Separate(s) && OnceEach(s) && Sized(s.mem) && Sized(t.mem) && NoLostWakeup(s)
    requires h in s.reqs && s.reqs[h].stage == Taken && t.mem.free == s.mem.free
    requires t == s.(mem := t.mem, used := t.used, reqs := s.reqs[h := s.reqs[h].(stage := Used)],
                     repeated := s.repeated || s.reqs[h].id in s.transfers,
                     transfers := s.transfers[s.reqs[h].id := s.wishes[s.reqs[h].id]])
    requires Separate(t)
    ensures OnceEach(t) && NoLostWakeup(t)
  {
    hide Three, Lowest, OnceEach, NoLostWakeup, Separate;
    CompletesOnce(s, t, h);
    assert NoLostWakeup(t) by { CompletesWakeups(s, t, h); }
  }

  lemma CompletesOnce(s: State, t: State, h: nat)
    requires Separate(s) && OnceEach(s) && h in s.reqs && s.reqs[h].stage == Taken
    requires t == s.(mem := t.mem, used := t.used, reqs := s.reqs[h := s.reqs[h].(stage := Used)],
                     repeated := s.repeated || s.reqs[h].id in s.transfers,
                     transfers := s.transfers[s.reqs[h].id := s.wishes[s.reqs[h].id]])
    ensures OnceEach(t)
  {
  }

  lemma CompletesWakeups(s: State, t: State, h: nat)
    requires Separate(s) && Sized(s.mem) && Sized(t.mem) && NoLostWakeup(s)
    requires h in s.reqs && s.reqs[h].stage == Taken && t.mem.free == s.mem.free
    requires t.reqs == s.reqs[h := s.reqs[h].(stage := Used)]
    requires t.wishes == s.wishes && t.busy == s.busy && t.starved == s.starved
    ensures forall g: nat :: g in t.reqs ==> t.reqs[g].id < |t.wishes|
    ensures NoLostWakeup(t)
  {
    hide Three, Lowest;
  }

  lemma CompletesAsWished(s: State, t: State, h: nat)
    requires Partition(s) && Chains(s) && DeviceCompletes(s, t, h)
    ensures h < NUM && s.reqs[h].id < |s.wishes|
    ensures t == s.(mem := s.mem.(info := s.mem.info[h := s.mem.info[h].(status := 0)]),
                    used := s.used + [h], reqs := s.reqs[h := s.reqs[h].(stage := Used)],
                    repeated := s.repeated || s.reqs[h].id in s.transfers,
                    transfers := s.transfers[s.reqs[h].id := s.wishes[s.reqs[h].id]])
  {
    ReadsTheWish(s, h);
    hide Reads, Chains, Partition;
  }

  lemma CompletesKeeps(s: State, t: State, h: nat)
    requires Inv(s) && DeviceCompletes(s, t, h)
    ensures Inv(t)
  {
    PartitionSized(s);
    CompletesAsWished(s, t, h);
    assert s.reqs[h].stage == Taken;
    hide DeviceCompletes, Reads, Partition, Chains, Separate, NoLostWakeup, OnceEach, Queues;
    CompletesQueues(s, t, h);
    Restaged(s, t, h, s.reqs[h].(stage := Used));
    CompletesRest(s, t, h);
  }

  /** What the handler finds at the head of the used ring. */
  lemma InterruptFinds(s: State)
    requires Inv(s) && s.used != []
    ensures var h := s.used[0];
            && h in s.reqs && h < NUM && s.reqs[h].id < |s.wishes| && s.reqs[h].stage == Used
            && s.mem.info[h] == Info(Some(s.wishes[s.reqs[h].id].buf), 0)
  {
    var h := s.used[0];
    assert h in s.used && h in s.reqs;
    assert ChainAt(s, h) && FormattedAt(s, h);
    hide Separate, NoLostWakeup, OnceEach;
  }

  lemma InterruptQueues(s: State, t: State)
    requires Queues(s) && s.used != [] && s.used[0] in s.reqs
    requires t.reqs == s.reqs[s.used[0] := s.reqs[s.used[0]].(stage := Done, asleep := false)]
    requires t.avail == s.avail && t.used == s.used[1..]
    ensures Queues(t)
  {
    var h := s.used[0];
    assert h in s.used;
    assert forall g: nat :: g in t.used <==> g in s.used && g != h by {
      assert s.used == [h] + s.used[1..];
    }
  }

  lemma InterruptRest(s: State, t: State, h: nat)
    requires Separate(s) && OnceEach(s) && Sized(s.mem) && NoLostWakeup(s)
    requires h in s.reqs && s.reqs[h].stage == Used
    requires t == s.(used := t.used, busy := s.busy - {s.wishes[s.reqs[h].id].buf},
                     reqs := s.reqs[h := s.reqs[h].(stage := Done, asleep := false)])
    requires Separate(t)
    ensures OnceEach(t) && Sized(t.mem) && NoLostWakeup(t)
  {
    hide Three, Lowest;
  }

  lemma InterruptKeeps(s: State, t: State)
    requires Inv(s) && Interrupt(s, t)
    ensures Inv(t)
  {
    InterruptFinds(s);
    PartitionSized(s);
    var h := s.used[0];
    hide Partition, Chains, Separate, NoLostWakeup, OnceEach, Queues;
    InterruptQueues(s, t);
    Restaged(s, t, h, s.reqs[h].(stage := Done, asleep := false));
    InterruptRest(s, t, h);
  }

  // ---- finishing ------------------------------------------------------------------------------

  /** None of the panics of free_desc is met, and the chain is the one that was built. */
  lemma FinishFrees(s: State, t: State, h: nat)
    requires Partition(s) && Chains(s) && Finish(s, t, h)
    ensures h in s.reqs && Sized(s.mem) && |s.owner| == NUM
    ensures var r := s.reqs[h];
            && h < NUM && r.i1 < NUM && r.i2 < NUM
            && t == s.(mem := t.mem, starved := {}, reqs := s.reqs - {h},
                       owner := s.owner[h := NUM][r.i1 := NUM][r.i2 := NUM], finished := s.finished + {r.id})
            && t.mem == Mem(s.mem.free[h := true][r.i1 := true][r.i2 := true],
                            s.mem.desc[h := NODESC][r.i1 := NODESC][r.i2 := NODESC],
                            s.mem.ops, s.mem.info[h := s.mem.info[h].(b := None)])
  {
    var r := s.reqs[h];
    assert ChainAt(s, h) && FormattedAt(s, h);
    assert OwnedAt(s, h) && OwnedAt(s, r.i1) && OwnedAt(s, r.i2);
  }

  lemma FinishPartition(s: State, t: State, h: nat)
    requires Partition(s) && Chains(s) && Finish(s, t, h)
    ensures Partition(t)
  {
    hide Finish, Chains, ChainAt, OwnedAt;
    FinishFrees(s, t, h);
    assert ChainAt(s, h);
    forall g: nat | g in t.reqs ensures ChainAt(t, g) {
      assert ChainAt(s, g);
      FinishChainAt(s, t, h, g);
    }
    forall i: nat | i < NUM ensures OwnedAt(t, i) {
      assert OwnedAt(s, i);
      FinishOwned(s, t, h, i);
    }
  }

  lemma FinishChainAt(s: State, t: State, h: nat, g: nat)
    requires |s.owner| == NUM && h in s.reqs && ChainAt(s, h) && g in s.reqs && ChainAt(s, g) && g != h
    requires var r := s.reqs[h];
             t.reqs == s.reqs - {h} && t.owner == s.owner[h := NUM][r.i1 := NUM][r.i2 := NUM]
    ensures ChainAt(t, g)
  {
    assert t.reqs[g] == s.reqs[g];
  }

  lemma FinishOwned(s: State, t: State, h: nat, i: nat)
    requires Sized(s.mem) && Sized(t.mem) && |s.owner| == NUM && i < NUM && h in s.reqs && ChainAt(s, h) && OwnedAt(s, i)
    requires var r := s.reqs[h];
             t.mem.free == s.mem.free[h := true][r.i1 := true][r.i2 := true] && t.reqs == s.reqs - {h}
             && t.owner == s.owner[h := NUM][r.i1 := NUM][r.i2 := NUM]
    ensures OwnedAt(t, i)
  {
  }

  lemma FinishChains(s: State, t: State, h: nat)
    requires Partition(s) && Chains(s) && Finish(s, t, h) && Partition(t)
    ensures Chains(t)
  {
    FinishFrees(s, t, h);
    hide Finish;
    assert ChainAt(s, h);
    hide OwnedAt;
    forall g: nat | g in t.reqs ensures FormattedAt(t, g) {
      assert ChainAt(s, g) && FormattedAt(s, g);
      hide FormattedAt;
      FinishFormatted(s, t, h, g);
    }
  }

  lemma FinishFormatted(s: State, t: State, h: nat, g: nat)
    requires Sized(s.mem) && |s.owner| == NUM && |t.owner| == NUM && Sized(t.mem) && g != h
    requires h in s.reqs && ChainAt(s, h) && g in s.reqs && ChainAt(s, g) && FormattedAt(s, g)
    requires t.reqs == s.reqs - {h} && t.wishes == s.wishes && ChainAt(t, g)
    requires var r := s.reqs[h];
             t.mem == Mem(s.mem.free[h := true][r.i1 := true][r.i2 := true],
                          s.mem.desc[h := NODESC][r.i1 := NODESC][r.i2 := NODESC],
                          s.mem.ops, s.mem.info[h := s.mem.info[h].(b := None)])
    ensures FormattedAt(t, g)
  {
    assert t.reqs[g] == s.reqs[g];
  }

  lemma FinishRest(s: State, t: State, h: nat)
    requires h in s.reqs && Separate(s) && OnceEach(s) && Sized(s.mem) && NoLostWakeup(s) && Queues(s)
    requires !s.reqs[h].asleep && s.wishes[s.reqs[h].id].buf !in s.busy && Sized(t.mem)
    requires t == s.(mem := t.mem, starved := {}, reqs := s.reqs - {h},
                     owner := t.owner, finished := s.finished + {s.reqs[h].id})
    ensures Separate(t) && OnceEach(t) && NoLostWakeup(t) && Queues(t)
  {
    hide Three, Lowest, Separate;
    FinishSeparate(s, t, h);
    SeparateIds(t);
  }

  lemma FinishSeparate(s: State, t: State, h: nat)
    requires h in s.reqs && Separate(s) && t.reqs == s.reqs - {h} && t.wishes == s.wishes && t.calls == s.calls
    requires t.finished == s.finished + {s.reqs[h].id}
    ensures Separate(t)
  {
  }

  lemma FinishKeeps(s: State, t: State, h: nat)
    requires Inv(s) && Finish(s, t, h)
    ensures Inv(t)
  {
    PartitionSized(s);
    FinishFrees(s, t, h);
    FinishPartition(s, t, h);
    FinishChains(s, t, h);
    hide Partition, Chains, Separate, NoLostWakeup, OnceEach, Queues;
    FinishRest(s, t, h);
  }

  lemma StepKeeps(s: State, t: State)
    requires Inv(s) && Step(s, t)
    ensures Inv(t)
  {
    hide Inv;
    if p, w :| Call(s, t, p, w) {
      CallKeeps(s, t, p, w);
    } else if p :| Submit(s, t, p) {
      SubmitKeeps(s, t, p);
    } else if DeviceTakes(s, t) {
      TakesKeeps(s, t);
    } else if h :| DeviceCompletes(s, t, h) {
      CompletesKeeps(s, t, h);
    } else if Interrupt(s, t) {
      InterruptKeeps(s, t);
    } else {
      var h :| Finish(s, t, h);
      FinishKeeps(s, t, h);
    }
  }

  // ---- every run --------------------------------------------------------------------------------

  ghost predicate StepAt(run: seq<State>, k: nat)
    requires k + 1 < |run|
  {
    Step(run[k], run[k + 1])
  }

  ghost predicate IsRun(run: seq<State>) {
    run != [] && Init(run[0]) && forall k :: 0 <= k < |run| - 1 ==> StepAt(run, k)
  }

  lemma {:induction false} RunKeeps(run: seq<State>, k: nat)
    requires IsRun(run) && k < |run|
    ensures Inv(run[k])
  {
    hide Inv;
    if k == 0 {
      InitInv(run[0]);
    } else {
      RunKeeps(run, k - 1);
      assert StepAt(run, k - 1);
      StepKeeps(run[k - 1], run[k]);
    }
  }

  /** The status byte of a request tells what the interrupt handler wants to know: it is 0 if and only
      if the device has carried the request out. */
  lemma StatusTells(run: seq<State>, k: nat, h: nat)
    requires IsRun(run) && k < |run| && h in run[k].reqs
    ensures var s := run[k];
            && h < |s.mem.info|
            && (s.mem.info[h].status == 0 <==> s.reqs[h].stage == Used || s.reqs[h].stage == Done)
            && (s.mem.info[h].status == 0 <==> s.reqs[h].id in s.transfers)
  {
    RunKeeps(run, k);
    assert ChainAt(run[k], h) && FormattedAt(run[k], h);
  }

  /** In every run no panic of the driver is reached, and every request whose caller has
      returned was carried out by the device exactly once, on its own buffer and block. */
  lemma RequestsCompleteOnce(run: seq<State>, k: nat)
    requires IsRun(run) && k < |run|
    ensures var s := run[k];
            && !s.panicked && !s.repeated
            && (forall i: nat :: i in s.finished ==> i in s.transfers && i < |s.wishes| && s.transfers[i] == s.wishes[i])
            && (forall h: nat :: h in s.reqs ==>
                  s.reqs[h].id < |s.wishes|
                  && (s.reqs[h].id in s.transfers <==> s.reqs[h].stage == Used || s.reqs[h].stage == Done))
  {
    RunKeeps(run, k);
  }

  /** With no request under way every descriptor is free. */
  lemma IdleHasThree(s: State)
    requires Partition(s) && s.reqs == map[]
    ensures Three(s.mem.free).Some?
  {
    forall i: nat | i < NUM ensures s.mem.free[i] {
      assert OwnedAt(s, i);
    }
    ThreeIffThreeFree(s.mem.free);
    assert s.mem.free[0] && s.mem.free[1] && s.mem.free[2];
  }

  /** A process asleep for want of descriptors is never alone: at least one request is under way
      whose end will wake it. */
  lemma StarvedAreFed(run: seq<State>, k: nat)
    requires IsRun(run) && k < |run| && run[k].starved != {}
    ensures run[k].reqs != map[]
  {
    RunKeeps(run, k);
    if run[k].reqs == map[] {
      IdleHasThree(run[k]);
    }
  }

  /** A failed search for descriptors means that fewer than three are free. */
  lemma ThreeIffThreeFree(free: seq<bool>)
    requires |free| == NUM
    ensures Three(free).Some? <==>
            exists i, j, k :: 0 <= i < j < k < NUM && free[i] && free[j] && free[k]
  {
    if i, j, k :| 0 <= i < j < k < NUM && free[i] && free[j] && free[k] {
      var a := Lowest(free, 0);
      assert a <= i;
      var b := Lowest(free, a + 1);
      assert b <= j;
    }
  }
}
