/**
 The code of virtio_disk.c on its arrays: descriptor allocation, the chain-freeing loop, and the
 two rings with their 16-bit indices. VirtioProtocol gives the meaning of every operation.
 */
module VirtioDriver {
  import opened VirtioProtocol
  import opened Basics

  const WRAP: nat := 0x1_0000   // avail->idx, used->idx and used_idx are 16 bits wide

  // ---- a ring of NUM entries with 16-bit running indices ---------------------------------------

  function Count(head: nat, tail: nat): (n: nat)
    requires head < WRAP && tail < WRAP
    ensures n < WRAP && (head + n) % WRAP == tail
  {
    (tail - head) % WRAP
  }

  /** The entries between the two indices, oldest first. */
  function Queue(ring: seq<nat>, head: nat, tail: nat): (q: seq<nat>)
    requires |ring| == NUM && head < WRAP && tail < WRAP
    ensures |q| == Count(head, tail)
  {
    seq(Count(head, tail), k requires 0 <= k => ring[(head + k) % NUM])
  }

  /** NUM divides 2^16, so a slot does not depend on the wrap of the index. */
  lemma SlotOfIndex(i: nat)
    ensures (i % WRAP) % NUM == i % NUM
  {
    assert i == WRAP * (i / WRAP) + i % WRAP;
    assert WRAP * (i / WRAP) == NUM * (8192 * (i / WRAP));
  }

  /** Below capacity, entries at different places are in different slots. */
  lemma SlotsApart(i: nat, j: nat)
    requires i < j < i + NUM
    ensures i % NUM != j % NUM
  {
  }

  /** Writing the slot at the tail index and bumping it appends, also across the wrap. */
  lemma QueuePush(ring: seq<nat>, head: nat, tail: nat, x: nat)
    requires |ring| == NUM && head < WRAP && tail < WRAP && Count(head, tail) < NUM
    ensures Queue(ring[tail % NUM := x], head, (tail + 1) % WRAP) == Queue(ring, head, tail) + [x]
  {
    var n: nat := Count(head, tail);
    var q, t := Queue(ring, head, tail) + [x], Queue(ring[tail % NUM := x], head, (tail + 1) % WRAP);
    assert |t| == n + 1;
    forall k: nat | k < n + 1 ensures t[k] == q[k] {
      PushedSlot(ring, head, tail, x, k);
    }
  }

  lemma PushedSlot(ring: seq<nat>, head: nat, tail: nat, x: nat, k: nat)
    requires |ring| == NUM && head < WRAP && tail < WRAP && k <= Count(head, tail) < NUM
    ensures ring[tail % NUM := x][(head + k) % NUM] == if k < Count(head, tail) then ring[(head + k) % NUM] else x
  {
    var n: nat := Count(head, tail);
    SlotOfIndex(head + n);
    if k < n { SlotsApart(head + k, head + n); }
  }

  lemma NextSlot(head: nat, k: nat)
    requires head < WRAP
    ensures ((head + 1) % WRAP + k) % NUM == (head + 1 + k) % NUM
  {
    SlotOfIndex(head + 1);
    SlotSum((head + 1) % WRAP, k);
    SlotSum(head + 1, k);
  }

  lemma SlotSum(a: nat, k: nat)
    ensures (a + k) % NUM == (a % NUM + k) % NUM
  {
  }

  /** Reading the slot at the head index and bumping it takes the oldest entry. */
  lemma QueuePop(ring: seq<nat>, head: nat, tail: nat)
    requires |ring| == NUM && head < WRAP && tail < WRAP && head != tail
    ensures Queue(ring, head, tail) == [ring[head % NUM]] + Queue(ring, (head + 1) % WRAP, tail)
  {
    var n: nat := Count(head, tail);
    var q, t := Queue(ring, head, tail), Queue(ring, (head + 1) % WRAP, tail);
    assert n > 0 && |t| == n - 1;
    assert q[0] == ring[(head + 0) % NUM];
    forall k: nat | k < n - 1 ensures q[k + 1] == t[k] {
      NextSlot(head, k);
    }
    assert q[1..] == t;
  }

  /** Distinct indices that spare one do not fill a ring. */
  lemma RoomFor(q: seq<nat>, x: nat)
    requires Distinct(q) && x < NUM && forall i :: 0 <= i < |q| ==> q[i] < NUM && q[i] != x
    ensures |q| < NUM
  {
    hide Below;
    Pigeonhole(q, Below(NUM) - {x});
  }

  /** When the driver finds three free descriptors the available ring has room. */
  lemma AvailHasRoom(s: State)
    requires Inv(s) && Three(s.mem.free).Some?
    ensures |s.avail| < NUM
  {
    var c := Three(s.mem.free).value;
    hide Three, Lowest, Partition, Chains, Separate, NoLostWakeup, OnceEach;
    forall i | 0 <= i < |s.avail| ensures s.avail[i] < NUM && s.avail[i] != c.0 {
      assert s.avail[i] in s.avail;
      FreshApart(s, c, s.avail[i]);
    }
    RoomFor(s.avail, c.0);
  }

  /** Nor can the device overrun the used ring: a request it holds is not in it. */
  lemma UsedHasRoom(s: State, h: nat)
    requires Inv(s) && h in s.reqs && s.reqs[h].stage == Taken
    ensures |s.used| < NUM
  {
    hide Chains, Separate, NoLostWakeup, OnceEach;
    assert ChainAt(s, h);
    forall i | 0 <= i < |s.used| ensures s.used[i] < NUM && s.used[i] != h {
      assert s.used[i] in s.used;
      assert ChainAt(s, s.used[i]);
    }
    RoomFor(s.used, h);
  }

  // ---- freeing a chain -------------------------------------------------------------------------

  function InUse(free: seq<bool>): set<nat> {
    set i: nat | i < |free| && !free[i]
  }

  /** free_chain from i; None where free_desc panics. */
  function FreeFrom(m: Mem, i: nat): (r: Option<Mem>)
    requires Sized(m)
    ensures r.Some? ==> Sized(r.value)
    decreases InUse(m.free)
  {
    if i >= NUM || m.free[i] then None
    else
      assert i in InUse(m.free) && InUse(FreeDesc(m, i).free) == InUse(m.free) - {i};
      if m.desc[i].hasNext then FreeFrom(FreeDesc(m, i), m.desc[i].next)
      else Some(FreeDesc(m, i))
  }

  /** On the chain of a finished request, the loop of free_chain meets no panic and frees exactly
      its three descriptors: it is the Finish step of the protocol. */
  lemma FreesThree(s: State, t: State, h: nat)
    requires Partition(s) && Chains(s) && Finish(s, t, h)
    ensures h < NUM && FreeFrom(s.mem.(info := s.mem.info[h := s.mem.info[h].(b := None)]), h) == Some(t.mem)
  {
    var r := s.reqs[h];
    assert ChainAt(s, h) && FormattedAt(s, h);
    assert OwnedAt(s, h) && OwnedAt(s, r.i1) && OwnedAt(s, r.i2);
    FinishFrees(s, t, h);
    hide Partition, Chains, Finish;
    var m1 := FreeDesc(s.mem.(info := s.mem.info[h := s.mem.info[h].(b := None)]), h);
    var m2 := FreeDesc(m1, r.i1);
    assert FreeFrom(m2, r.i2) == Some(FreeDesc(m2, r.i2));
    assert FreeFrom(m1, r.i1) == FreeFrom(m2, r.i2);
  }

  // ---- struct disk -----------------------------------------------------------------------------

  class Disk {
    const free: array<bool>
    const desc: array<Desc>
    const ops: array<BlkReq>
    const info: array<Info>
    const availRing: array<nat>
    const usedRing: array<nat>
    var availIdx: nat      // written by the driver
    var usedIdx: nat       // how far the driver has looked in the used ring
    var deviceAvail: nat   // how far the device has looked in the available ring
    var deviceUsed: nat    // written by the device
    var busy: set<nat>     // the buffers with disk == 1

    ghost predicate Valid()
      reads this, free, desc, ops, info, availRing, usedRing
    {
      && free.Length == NUM && desc.Length == NUM && ops.Length == NUM && info.Length == NUM
      && availRing.Length == NUM && usedRing.Length == NUM && availRing != usedRing
      && availIdx < WRAP && usedIdx < WRAP && deviceAvail < WRAP && deviceUsed < WRAP
      && (forall i :: 0 <= i < NUM && free[i] ==> desc[i] == NODESC)
    }

    ghost function Memory(): Mem
      reads free, desc, ops, info
    {
      Mem(free[..], desc[..], ops[..], info[..])
    }

    ghost function Avail(): seq<nat>
      reads this, availRing
      requires availRing.Length == NUM && availIdx < WRAP && deviceAvail < WRAP
    {
      Queue(availRing[..], deviceAvail, availIdx)
    }

    ghost function Used(): seq<nat>
      reads this, usedRing
      requires usedRing.Length == NUM && usedIdx < WRAP && deviceUsed < WRAP
    {
      Queue(usedRing[..], usedIdx, deviceUsed)
    }

    constructor ()
      ensures Valid() && Avail() == [] && Used() == [] && busy == {}
      ensures Memory() == Mem(seq(NUM, _ => true), seq(NUM, _ => NODESC), seq(NUM, _ => BlkReq(false, 0)),
                              seq(NUM, _ => Info(None, 0)))
    {
      free := new bool[NUM](_ => true);
      desc := new Desc[NUM](_ => NODESC);
      ops := new BlkReq[NUM](_ => BlkReq(false, 0));
      info := new Info[NUM](_ => Info(None, 0));
      availRing := new nat[NUM](_ => 0);
      usedRing := new nat[NUM](_ => 0);
      availIdx, usedIdx, deviceAvail, deviceUsed, busy := 0, 0, 0, 0, {};
      new;
      assert free[..] == seq(NUM, _ => true);
      assert desc[..] == seq(NUM, _ => NODESC);
      assert ops[..] == seq(NUM, _ => BlkReq(false, 0));
      assert info[..] == seq(NUM, _ => Info(None, 0));
    }

    method AllocDesc() returns (i: int)
      requires Valid()
      modifies free
      ensures Valid()
      ensures Lowest(old(free[..]), 0) == NUM ==> i == -1 && free[..] == old(free[..])
      ensures Lowest(old(free[..]), 0) < NUM ==>
                i == Lowest(old(free[..]), 0) && free[..] == old(free[..])[i := false]
    {
      i := 0;
      while i < NUM
        invariant 0 <= i <= NUM && forall j :: 0 <= j < i ==> !free[j]
        invariant free[..] == old(free[..])
      {
        if free[i] {
          FirstFree(free[..], i);
          free[i] := false;
          return;
        }
        i := i + 1;
      }
      FirstFree(free[..], NUM);
      i := -1;
    }

    /** ok is false where the code panics. */
    method FreeOne(i: nat) returns (ok: bool)
      requires Valid()
      modifies free, desc
      ensures Valid() && ok == (i < NUM && !old(free[..])[i])
      ensures Memory() == if ok then FreeDesc(old(Memory()), i) else old(Memory())
    {
      if i >= NUM || free[i] {
        return false;
      }
      desc[i] := NODESC;
      free[i] := true;
      return true;
    }

    method FreeChain(start: nat) returns (ok: bool)
      requires Valid()
      modifies free, desc
      ensures Valid()
      ensures ok <==> FreeFrom(old(Memory()), start).Some?
      ensures ok ==> Memory() == FreeFrom(old(Memory()), start).value
    {
      var i: nat := start;
      while true
        invariant Valid() && FreeFrom(Memory(), i) == FreeFrom(old(Memory()), start)
        decreases InUse(free[..])
      {
        if i >= NUM { return false; }
        var flag, nxt := desc[i].hasNext, desc[i].next;
        ghost var before := Memory();
        ok := FreeOne(i);
        if !ok { return; }
        assert i in InUse(before.free) && InUse(free[..]) == InUse(before.free) - {i};
        if flag { i := nxt; } else { return; }
      }
    }

    /** Freeing a descriptor just allocated undoes the allocation. */
    method PutBack(a: nat, ghost was: seq<bool>)
      requires Valid() && a < NUM == |was| && was[a] && free[..] == was[a := false] && desc[a] == NODESC
      modifies free, desc
      ensures Valid() && free[..] == was && desc[..] == old(desc[..])
    {
      assert free[..][a] == free[a];
      var _ := FreeOne(a);
      assert desc[..] == old(desc[..])[a := NODESC];
      assert free[..] == was[a := false][a := true];
    }

    /** Three descriptors, the lowest free ones; or none taken at all. */
    method Alloc3Desc() returns (idx: Option<(nat, nat, nat)>)
      requires Valid()
      modifies free, desc
      ensures Valid() && idx == Three(old(free[..])) && desc[..] == old(desc[..])
      ensures free[..] ==
              match idx
              case None => old(free[..])
              case Some(c) => old(free[..])[c.0 := false][c.1 := false][c.2 := false]
    {
      ghost var was := free[..];
      hide Lowest;
      var a := AllocDesc();
      if a < 0 { return None; }
      TakenBelow(was, 0, a);
      ghost var was1 := free[..];
      assert was[a] && desc[a] == NODESC;
      var b := AllocDesc();
      if b < 0 {
        PutBack(a, was);
        return None;
      }
      TakenAgain(was, a, b);
      assert was1[b] && desc[b] == NODESC;
      var c := AllocDesc();
      if c < 0 {
        PutBack(b, was1);
        PutBack(a, was);
        return None;
      }
      return Some((a, b, c));
    }

    /** virtio_disk_rw up to its first sleep: format the three descriptors and publish the head. */
    method StartRequest(buf: nat, blockno: BlockNo, write: bool) returns (idx: Option<(nat, nat, nat)>)
      requires Valid() && |Avail()| < NUM
      modifies this`availIdx, this`busy, free, desc, ops, info, availRing
      ensures Valid() && idx == Three(old(free[..])) && Used() == old(Used())
      ensures idx.None? ==> Memory() == old(Memory()) && Avail() == old(Avail()) && busy == old(busy)
      ensures idx.Some? ==>
                && Memory() == Format(old(Memory()), idx.value, buf, blockno, write)
                && Avail() == old(Avail()) + [idx.value.0] && busy == old(busy) + {buf}
    {
      hide Three;
      idx := Alloc3Desc();
      if idx.None? { return; }
      var (i0, i1, i2) := idx.value;
      FormatChain(i0, i1, i2, buf, blockno, write);
      busy := busy + {buf};
      QueuePush(availRing[..], deviceAvail, availIdx, i0);
      availRing[availIdx % NUM] := i0;
      availIdx := (availIdx + 1) % WRAP;
    }

    method FormatChain(i0: nat, i1: nat, i2: nat, buf: nat, blockno: BlockNo, write: bool)
      requires Valid() && i0 < i1 < i2 < NUM && !free[i0] && !free[i1] && !free[i2]
      modifies desc, ops, info
      ensures Valid() && Memory() == Format(old(Memory()), (i0, i1, i2), buf, blockno, write)
    {
      ops[i0] := BlkReq(write, blockno * (BSIZE / 512));
      desc[i0] := Desc(OpAddr(i0), 16, true, false, i1);
      desc[i1] := Desc(BufAddr(buf), BSIZE, true, !write, i2);
      info[i0] := Info(info[i0].b, 0xff);
      desc[i2] := Desc(StatusAddr(i0), 1, false, true, 0);
      info[i0] := Info(Some(buf), info[i0].status);
      assert free[..] == old(free[..])[i0 := false][i1 := false][i2 := false];
    }

    /** virtio_disk_intr: take everything from the used ring; false where the code panics. */
    method Interrupt() returns (ok: bool)
      requires Valid()
      modifies this`usedIdx, this`busy
      ensures Valid() && Avail() == old(Avail())
      ensures ok <==> forall h <- old(Used()) :: Completed(info[..], h)
      ensures ok ==> Used() == [] && busy == old(busy) - Released(info[..], old(Used()))
    {
      hide Released;
      ghost var used := Used();
      ghost var n: nat := 0;
      assert Released(info[..], []) == {} by { ReleasedNone(info[..]); }
      while usedIdx != deviceUsed
        invariant usedIdx < WRAP && n <= |used| && Used() == used[n..]
        invariant forall h <- used[..n] :: Completed(info[..], h)
        invariant busy == old(busy) - Released(info[..], used[..n])
        decreases |used| - n
      {
        QueuePop(usedRing[..], usedIdx, deviceUsed);
        var id := usedRing[usedIdx % NUM];
        assert id == Used()[0] == used[n];
        if id >= NUM || info[id].status != 0 || info[id].b.None? {
          assert !Completed(info[..], used[n]) && used[n] in used;
          return false;
        }
        assert used[..n + 1] == used[..n] + [id];
        ReleasedOne(info[..], used[..n], id);
        busy := busy - {info[id].b.value};
        usedIdx := (usedIdx + 1) % WRAP;
        n := n + 1;
      }
      assert used[..n] == used;
      return true;
    }

    /** The end of virtio_disk_rw. */
    method FinishRequest(idx0: nat) returns (ok: bool)
      requires Valid() && idx0 < NUM
      modifies free, desc, info
      ensures Valid()
      ensures var m := old(Memory());
              var noted := m.(info := m.info[idx0 := m.info[idx0].(b := None)]);
              && (ok <==> FreeFrom(noted, idx0).Some?)
              && (ok ==> Memory() == FreeFrom(noted, idx0).value)
    {
      info[idx0] := info[idx0].(b := None);
      ok := FreeChain(idx0);
    }
  }

  /** The device has completed the request of head h. */
  ghost predicate Completed(info: seq<Info>, h: nat) {
    h < |info| && info[h].status == 0 && info[h].b.Some?
  }

  /** The buffers of the completed requests of q. */
  ghost function Released(info: seq<Info>, q: seq<nat>): set<nat> {
    set h | h in q && Completed(info, h) :: info[h].b.value
  }

  lemma ReleasedNone(info: seq<Info>)
    ensures Released(info, []) == {}
  {
  }

  lemma ReleasedOne(info: seq<Info>, q: seq<nat>, h: nat)
    requires Completed(info, h)
    ensures Released(info, q + [h]) == Released(info, q) + {info[h].b.value}
  {
    var a, b := Released(info, q + [h]), Released(info, q) + {info[h].b.value};
    forall x ensures x in a <==> x in b {
      if x in Released(info, q) {
        var g :| g in q && Completed(info, g) && info[g].b.value == x;
        assert g in q + [h];
      }
    }
  }

  /** The search finds the least free index. */
  lemma FirstFree(free: seq<bool>, i: nat)
    requires |free| == NUM && i <= NUM && (i < NUM ==> free[i]) && forall j :: 0 <= j < i ==> !free[j]
    ensures Lowest(free, 0) == i
  {
  }

  lemma TakenBelow(free: seq<bool>, from: nat, i: nat)
    requires |free| == NUM && from <= i < NUM && Lowest(free, 0) == i
    ensures Lowest(free[i := false], 0) == Lowest(free, i + 1)
  {
    FirstFree(free[i := false], Lowest(free, i + 1));
  }

  lemma TakenAgain(free: seq<bool>, a: nat, b: nat)
    requires |free| == NUM && a < NUM && b < NUM
    requires Lowest(free, 0) == a && Lowest(free, a + 1) == b && Lowest(free[a := false], 0) == b
    ensures Lowest(free[a := false][b := false], 0) == Lowest(free, b + 1)
  {
    FirstFree(free[a := false][b := false], Lowest(free, b + 1));
  }
}
