/**
 The block allocator, block map and byte-range operations of fs.c on an array of blocks and an
 array of inodes. Buffers are transparent here: a change to bp->data followed by log_write is a
 change of the block, and logged collects the blocks passed to log_write.
 */
module FileSystem {
  import opened FsLayout
  import opened FsSteps

  const IPB: nat := 16   // inodes per block

  /** Mapping block k of file i changes no other block of a file and no byte of any file. */
  ghost predicate Mapped(d: seq<Block>, inodes: seq<Inode>, e: seq<Block>, jnodes: seq<Inode>, i: nat, k: nat)
    requires i < |inodes| == |jnodes| && k <= MAXFILE
  {
    && |d| == |e|
    && SameFiles(d, inodes, e, jnodes)
    && (forall j: nat {:trigger jnodes[j]} :: j < |inodes| && j != i ==> jnodes[j] == inodes[j] && SameSlots(d, inodes[j], e, inodes[j]))
    && (forall l: nat {:trigger Slot(e, jnodes[i], l)} :: l < MAXFILE && l != k ==> Slot(e, jnodes[i], l) == Slot(d, inodes[i], l))
    && (forall l: nat {:trigger Slot(e, jnodes[i], l)} :: l <= MAXFILE && Slot(d, inodes[i], l) != 0 ==> Slot(e, jnodes[i], l) == Slot(d, inodes[i], l))
  }

  /** Between d and e, only blocks that log_write was told of have changed. */
  ghost predicate Covered(d: seq<Block>, l: set<nat>, e: seq<Block>, m: set<nat>) {
    |e| == |d| && l <= m && forall b: nat {:trigger e[b]} :: b < |d| && e[b] != d[b] ==> b in m
  }

  lemma CoveredThen(d: seq<Block>, l: set<nat>, e: seq<Block>, m: set<nat>, f: seq<Block>, n: set<nat>)
    requires Covered(d, l, e, m) && Covered(e, m, f, n)
    ensures Covered(d, l, f, n)
  {
    forall b: nat | b < |d| && f[b] != d[b] ensures b in n {
      if f[b] == e[b] { assert e[b] != d[b]; }
    }
  }

  lemma CoveredSame(d: seq<Block>, l: set<nat>)
    ensures Covered(d, l, d, l)
  {
  }

  lemma CoveredPut(d: seq<Block>, l: set<nat>, e: seq<Block>, m: set<nat>, at: nat, x: Block)
    requires Covered(d, l, e, m) && at < |e|
    ensures Covered(d, l, e[at := x], m + {at})
  {
    CoveredThen(d, l, e, m, e[at := x], m + {at});
  }

  lemma CoveredMore(d: seq<Block>, l: set<nat>, e: seq<Block>, m: set<nat>, n: set<nat>)
    requires Covered(d, l, e, m)
    ensures Covered(d, l, e, m + n)
  {
  }

  ghost predicate NoneHeld(own: seq<Owner>) {
    forall b :: 0 <= b < |own| ==> !own[b].Held?
  }

  /** No bit is clear: balloc fails. */
  ghost predicate Full(g: Geo, disk: seq<Block>)
    requires GeoOk(g) && |disk| == g.size
  {
    forall b: nat :: b < g.size ==> Bit(g, disk, b)
  }

  /** Block b was free, and is now marked, zeroed and not yet in any file. */
  ghost predicate Claimed(g: Geo, d: seq<Block>, e: seq<Block>, inodes: seq<Inode>, b: nat)
    requires GeoOk(g) && |d| == g.size
  {
    && |e| == |d| && g.nmeta <= b < g.size && !Bit(g, d, b) && Zeroed(e[b])
    && e == SetBit(g, d, b)[b := e[b]]
    && SameFiles(d, inodes, e, inodes)
    && forall i: nat {:trigger inodes[i]} :: i < |inodes| ==> SameSlots(d, inodes[i], e, inodes[i])
  }

  lemma TakeZeroed(g: Geo, d: seq<Block>, inodes: seq<Inode>, own: seq<Owner>, b: nat, k: nat, x: Block)
    requires Owned(g, d, inodes, own) && b < g.size && !Bit(g, d, b) && Zeroed(x)
    ensures own[b] == Free
    ensures Owned(g, SetBit(g, d, b)[b := x], inodes, own[b := Held(k)])
    ensures Claimed(g, d, SetBit(g, d, b)[b := x], inodes, b)
  {
    var d1 := SetBit(g, d, b);
    hide SetBit, Slot, Byte, Bit;
    FreeIffClear(g, d, inodes, own, b);
    TakeKeepsOwned(g, d, inodes, own, b, k);
    BitmapUnseen(g, d, inodes, own, b);
    var own1 := own[b := Held(k)];
    WriteKeepsOwned(g, d1, inodes, own1, b, x);
    UnseenByAll(g, d1, inodes, own1, b, x);
    hide Owned;
    forall i: nat | i < |inodes| ensures SameSlots(d, inodes[i], d1[b := x], inodes[i]) {
      assert SameSlots(d, inodes[i], d1, inodes[i]) && SameSlots(d1, inodes[i], d1[b := x], inodes[i]);
    }
    forall i: nat | i < |inodes| ensures SameBytes(d, inodes[i], d1[b := x], inodes[i]) {
      assert SameBytes(d, inodes[i], d1, inodes[i]) && SameBytes(d1, inodes[i], d1[b := x], inodes[i]);
    }
  }

  class FileSys {
    const g: Geo
    const inodestart: nat
    const disk: array<Block>
    const inodes: array<Inode>    // in memory
    const dinodes: array<Inode>   // as last written by iupdate
    ghost var own: seq<Owner>
    ghost var logged: set<nat>

    ghost predicate Good()
      reads this, disk, inodes, dinodes
    {
      && inodes != dinodes && inodes.Length == dinodes.Length
      && Owned(g, disk[..], inodes[..], own)
    }

    /** An empty file system, with the bitmap that mkfs writes. */
    constructor (geo: Geo, start: nat, ninodes: nat)
      requires GeoOk(geo)
      ensures Valid() && g == geo && inodestart == start && inodes.Length == ninodes && fresh(disk) && fresh(inodes) && fresh(dinodes)
      ensures forall i :: 0 <= i < ninodes ==> inodes[i] == EMPTY
      ensures forall b: nat :: b < g.size ==> (Bit(g, disk[..], b) <==> b < g.nmeta)
    {
      g, inodestart := geo, start;
      disk := new Block[geo.size](_ => seq(BSIZE, _ => 0));
      inodes := new Inode[ninodes](_ => EMPTY);
      dinodes := new Inode[ninodes](_ => EMPTY);
      own := seq(geo.size, b => if b < geo.nmeta then Meta else Free);
      logged := {};
      new;
      hide Mask;
      forall b: nat | b < g.size ensures !Bit(g, disk[..], b) {
        BitmapRange(g, b);
        NoBit(BitIndex(b));
      }
      var used := 0;
      while used < g.nmeta
        invariant used <= g.nmeta
        invariant forall b: nat :: b < g.size ==> (Bit(g, disk[..], b) <==> b < used)
        modifies disk, this`logged
      {
        BitmapRange(g, used);
        ghost var d := disk[..];
        forall b: nat | b < g.size ensures Bit(g, SetBit(g, d, used), b) <==> b < used + 1 {
          SetBitAt(g, d, used, b);
        }
        Mark(BitmapBlock(g, used), used % BPB, used);
        used := used + 1;
      }
      FormattedOwned(g, disk[..], inodes[..], own);
    }

    /** Between operations. */
    ghost predicate Valid()
      reads this, disk, inodes, dinodes
    {
      Good() && Settled(g, disk[..], inodes[..], own) && dinodes[..] == inodes[..]
    }

    method Bzero(b: nat)
      requires b < disk.Length
      modifies disk, this`logged
      ensures disk[..] == old(disk[..])[b := seq(BSIZE, _ => 0)]
      ensures logged == old(logged) + {b}
    {
      disk[b] := seq(BSIZE, _ => 0);
      logged := logged + {b};
    }

    /** Set the bit of b in its byte of the bitmap. */
    method Mark(at: nat, bi: nat, b: nat)
      requires GeoOk(g) && disk.Length == g.size && b < g.size && bi < BPB
      requires at == BitmapBlock(g, b) && bi == b % BPB
      modifies disk, this`logged
      ensures disk[..] == SetBit(g, old(disk[..]), b) && logged == old(logged) + {at}
      ensures Covered(old(disk[..]), old(logged), disk[..], logged)
    {
      BitmapRange(g, b);
      BitPlace(b, bi);
      hide Mask, BitmapBlock;
      disk[at] := disk[at][bi / 8 := disk[at][bi / 8] | Mask(bi % 8)];
      logged := logged + {at};
    }

    /** The end of balloc, for the free block it found. */
    method Claim(at: nat, bi: nat, b: nat, ghost k: nat)
      requires Good() && b < g.size && !Bit(g, disk[..], b) && bi < BPB
      requires at == BitmapBlock(g, b) && bi == b % BPB
      modifies disk, this`own, this`logged
      ensures Good() && Claimed(g, old(disk[..]), disk[..], inodes[..], b)
      ensures old(own)[b] == Free && own == old(own)[b := Held(k)]
      ensures logged == old(logged) + {at, b} && Covered(old(disk[..]), old(logged), disk[..], logged)
    {
      ghost var d, l := disk[..], logged;
      hide Owned, Bit, SetBit, BitmapBlock, Covered;
      OwnedSized(g, d, inodes[..], own);
      TakeZeroed(g, d, inodes[..], own, b, k, seq(BSIZE, _ => 0));
      Mark(at, bi, b);
      CoveredPut(d, l, disk[..], logged, b, seq(BSIZE, _ => 0));
      Bzero(b);
      assert logged == l + {at} + {b} == l + {at, b};
      assert disk[b] == seq(BSIZE, _ => 0);
      own := own[b := Held(k)];
    }

    /** balloc: the first block whose bit is clear, marked and zeroed; 0 if there is none. */
    method Balloc(ghost k: nat) returns (r: nat)
      requires Good()
      modifies disk, this`own, this`logged
      ensures Good()
      ensures r == 0 ==> Full(g, disk[..]) && disk[..] == old(disk[..]) && own == old(own) && logged == old(logged)
      ensures r != 0 ==>
                && Claimed(g, old(disk[..]), disk[..], inodes[..], r)
                && (forall c: nat :: c < r ==> Bit(g, old(disk[..]), c))
                && old(own)[r] == Free && own == old(own)[r := Held(k)]
                && logged == old(logged) + {BitmapBlock(g, r), r}
      ensures Covered(old(disk[..]), old(logged), disk[..], logged)
    {
      var b := 0;
      ghost var d := disk[..];
      hide Owned, Bit, Covered;
      CoveredSame(d, logged);
      assert GeoOk(g) && |d| == g.size by { OwnedSized(g, d, inodes[..], own); }
      while b < g.size
        invariant b % BPB == 0 && disk[..] == d && own == old(own) && logged == old(logged)
        invariant forall c: nat :: c < b && c < g.size ==> Bit(g, d, c)
        decreases g.size - b
      {
        var at := BitmapBlock(g, b);
        BitmapRange(g, b);
        var bi := 0;
        while bi < BPB && b + bi < g.size
          invariant bi <= BPB && disk[..] == d && own == old(own) && logged == old(logged)
          invariant forall c: nat :: c < b + bi && c < g.size ==> Bit(g, d, c)
        {
          var m := Mask(bi % 8);
          BitHere(g, d, b, bi);
          if disk[at][bi / 8] & m == 0 {
            Claim(at, bi, b + bi, k);
            return b + bi;
          }
          bi := bi + 1;
        }
        b := b + BPB;
      }
      return 0;
    }

    /** "if addrs[k] == 0, allocate a block and put it there", for direct and indirect pointers. */
    method AddrOrAlloc(i: nat, k: nat) returns (addr: nat)
      requires Good() && i < inodes.Length && k <= NDIRECT
      modifies disk, inodes, this`own, this`logged
      ensures Good() && BlockMapped(old(disk[..]), old(inodes[..]), old(own), i, SlotOfAddr(k), addr)
      ensures Slot(old(disk[..]), old(inodes[i]), SlotOfAddr(k)) != 0 ==> logged == old(logged)
      ensures logged <= old(logged) + (if addr == 0 then {} else {BitmapBlock(g, addr), addr})
      ensures Covered(old(disk[..]), old(logged), disk[..], logged)
    {
      hide Owned, Slot, Linked, SetBit, Covered;
      CoveredSame(disk[..], logged);
      OwnedSized(g, disk[..], inodes[..], own);
      addr := inodes[i].addrs[k];
      assert addr == Slot(disk[..], inodes[i], SlotOfAddr(k)) by { AddrSlot(disk[..], inodes[i], k); }
      if addr == 0 {
        ghost var d, ins, own0 := disk[..], inodes[..], own;
        addr := Balloc(SlotOfAddr(k));
        if addr == 0 { return; }
        LinkClaimedAddr(g, d, disk[..], ins, own0, i, k, addr);
        inodes[i] := WithAddr(inodes[i], k, addr);
        assert inodes[..] == ins[i := WithAddr(ins[i], k, addr)];
        own := own[addr := Ref(i, SlotOfAddr(k))];
        assert own == own0[addr := Ref(i, SlotOfAddr(k))];
      }
    }

    /** The same for entry k of the indirect block, which exists. */
    method EntryOrAlloc(i: nat, k: nat) returns (addr: nat)
      requires Good() && i < inodes.Length && NDIRECT <= k < MAXFILE && inodes[i].addrs[NDIRECT] != 0
      modifies disk, this`own, this`logged
      ensures Good() && BlockMapped(old(disk[..]), old(inodes[..]), old(own), i, k, addr)
      ensures Slot(old(disk[..]), old(inodes[i]), k) != 0 ==> logged == old(logged)
      ensures logged <= old(logged) + (if addr == 0 then {} else {BitmapBlock(g, addr), addr, inodes[i].addrs[NDIRECT]})
      ensures Covered(old(disk[..]), old(logged), disk[..], logged)
    {
      hide Owned, Slot, Linked, SetBit, PutWord, Word, Covered;
      CoveredSame(disk[..], logged);
      OwnedSized(g, disk[..], inodes[..], own);
      var at := inodes[i].addrs[NDIRECT];
      IndirectInRange(g, disk[..], inodes[..], own, i);
      addr := Word(disk[at], k - NDIRECT);
      assert addr == Slot(disk[..], inodes[i], k) by { EntrySlot(disk[..], inodes[i], k); }
      if addr == 0 {
        ghost var d, own0 := disk[..], own;
        addr := Balloc(k);
        if addr == 0 { return; }
        ghost var e := disk[..];
        LinkClaimedEntry(g, d, e, inodes[..], own0, i, k, addr);
        CoveredPut(d, old(logged), e, logged, at, PutWord(e[at], k - NDIRECT, addr));
        disk[at] := PutWord(disk[at], k - NDIRECT, addr);
        assert disk[..] == e[at := PutWord(e[at], k - NDIRECT, addr)];
        logged := logged + {at};
        own := own[addr := Ref(i, k)];
        assert own == own0[addr := Ref(i, k)];
      }
    }

    /** The block that holds block bn of file i, allocated if need be; 0 if there is none and
        none can be had. */
    method Bmap(i: nat, bn: nat) returns (addr: nat)
      requires Good() && i < inodes.Length && bn < MAXFILE
      modifies disk, inodes, this`own, this`logged
      ensures Good() && BlockMapped(old(disk[..]), old(inodes[..]), old(own), i, bn, addr)
      ensures Slot(old(disk[..]), old(inodes[i]), bn) != 0 ==> logged == old(logged)
      ensures logged <= old(logged) + BmapLogs(g, addr, inodes[i].addrs[NDIRECT])
      ensures Covered(old(disk[..]), old(logged), disk[..], logged)
    {
      hide Owned, Slot, Byte, Covered;
      OwnedSized(g, disk[..], inodes[..], own);
      ghost var d, ins := disk[..], inodes[..];
      if bn < NDIRECT {
        addr := AddrOrAlloc(i, bn);
        BitmapInMaps(g, disk[..], inodes[..], own, i, bn);
        return;
      }
      var at := AddrOrAlloc(i, NDIRECT);
      assert at == inodes[i].addrs[NDIRECT] by { AddrSlot(disk[..], inodes[i], NDIRECT); }
      BitmapInMaps(g, disk[..], inodes[..], own, i, MAXFILE);
      if at == 0 {
        NoEntry(d, ins[i], bn);
        NoEntry(disk[..], inodes[i], bn);
        MappedWiden(d, ins, disk[..], inodes[..], i, bn);
        return 0;
      }
      ghost var e, jns, l := disk[..], inodes[..], logged;
      NoEntry(d, ins[i], bn);
      addr := EntryOrAlloc(i, bn);
      CoveredThen(d, old(logged), e, l, disk[..], logged);
      BitmapInMaps(g, disk[..], inodes[..], own, i, bn);
      MappedTwice(d, ins, e, jns, disk[..], inodes[..], i, bn);
    }

    /** ok is false where bfree panics: "freeing free block". */
    method Bfree(b: nat) returns (ok: bool)
      requires GeoOk(g) && disk.Length == g.size && b < g.size
      modifies disk, this`logged
      ensures ok == Bit(g, old(disk[..]), b)
      ensures disk[..] == if ok then ClearBit(g, old(disk[..]), b) else old(disk[..])
      ensures logged <= old(logged) + {BitmapBlock(g, b)}
      ensures Covered(old(disk[..]), old(logged), disk[..], logged)
    {
      BitmapRange(g, b);
      var at, bi := BitmapBlock(g, b), b % BPB;
      BitPlace(b, bi);
      var m := Mask(bi % 8);
      if disk[at][bi / 8] & m == 0 {
        return false;
      }
      hide BitmapBlock;
      disk[at] := disk[at][bi / 8 := disk[at][bi / 8] & !m];
      logged := logged + {at};
      return true;
    }

    /** In itrunc on file i, which was as d0, ins0, own0 say: the slots below lo are freed. */
    ghost predicate Truncating(d0: seq<Block>, ins0: seq<Inode>, own0: seq<Owner>, i: nat, lo: nat)
      reads this, disk
    {
      && i < |ins0| && lo <= MAXFILE + 1 && Owned(g, d0, ins0, own0)
      && Owned(g, disk[..], ins0[i := EMPTY], Dropping(own0, i, lo))
      && SameFiles(d0, ins0[i := EMPTY], disk[..], ins0[i := EMPTY])
      && (forall j: nat :: j < |ins0| ==> SameSlots(d0, ins0[j], disk[..], ins0[j]))
    }

    /** One turn of the loops of itrunc: no panic, and one slot more is freed. */
    method FreeSlot(ghost d0: seq<Block>, ghost ins0: seq<Inode>, ghost own0: seq<Owner>, i: nat, ghost lo: nat, b: nat)
      returns (ok: bool)
      requires Truncating(d0, ins0, own0, i, lo) && lo <= MAXFILE && b == Slot(d0, ins0[i], lo)
      modifies disk, this`logged
      ensures ok && Truncating(d0, ins0, own0, i, lo + 1)
      ensures logged <= old(logged) + Maps(g) && Covered(old(disk[..]), old(logged), disk[..], logged)
    {
      hide Owned, Slot, Bit, ClearBit, Byte, Covered;
      CoveredSame(disk[..], logged);
      OwnedSized(g, disk[..], ins0[i := EMPTY], Dropping(own0, i, lo));
      OwnedSized(g, d0, ins0, own0);
      DropStep(g, d0, ins0, own0, i, lo);
      BitmapInMaps(g, d0, ins0, own0, i, lo);
      if b == 0 { return true; }
      ghost var d := disk[..];
      DropKeepsOwned(g, d, ins0[i := EMPTY], Dropping(own0, i, lo), b);
      BitmapUnseen(g, d, ins0[i := EMPTY], Dropping(own0, i, lo), b);
      ok := Bfree(b);
      SameFilesTrans(d0, ins0[i := EMPTY], d, ins0[i := EMPTY], disk[..], ins0[i := EMPTY]);
      AddrsKeepSlots(g, d0, ins0, own0, d, i, lo, b);
    }

    /** itrunc frees exactly the blocks of file i; no other file changes. */
    method Itrunc(i: nat) returns (ok: bool)
      requires Valid() && i < inodes.Length
      modifies disk, inodes, dinodes, this`own, this`logged
      ensures Valid() && ok
      ensures inodes[..] == old(inodes[..])[i := EMPTY] && own == Dropping(old(own), i, MAXFILE + 1)
      ensures forall b: nat :: 0 < b < g.size ==>
                (Bit(g, disk[..], b) <==>
                   Bit(g, old(disk[..]), b) && !exists k :: 0 <= k <= MAXFILE && Slot(old(disk[..]), old(inodes[..])[i], k) == b)
      ensures SameFiles(old(disk[..]), inodes[..], disk[..], inodes[..])
      ensures logged <= old(logged) + Maps(g) + {i / IPB + inodestart} && i / IPB + inodestart in logged
      ensures Covered(old(disk[..]), old(logged), disk[..], logged)
    {
      hide Owned, Slot, Byte, Bit, NoHoles, Covered;
      ghost var d, ins, own0, l0 := disk[..], inodes[..], own, logged;
      CoveredSame(d, l0);
      OwnedSized(g, d, ins, own0);
      StartTruncating(g, d, ins, own0, i);
      ok := true;
      var k := 0;
      while k < NDIRECT
        invariant k <= NDIRECT && ok && Truncating(d, ins, own0, i, k) && own == own0
        invariant inodes[..] == ins[i := inodes[i]] && inodes[i].addrs[k..] == ins[i].addrs[k..] && inodes[i].size == ins[i].size
        invariant forall l :: 0 <= l < k ==> inodes[i].addrs[l] == 0
        invariant logged <= old(logged) + Maps(g) && dinodes[..] == ins && Covered(d, l0, disk[..], logged)
      {
        ghost var e, l := disk[..], logged;
        var b := inodes[i].addrs[k];
        assert b == Slot(d, ins[i], k) by {
          assert inodes[i].addrs[k..][0] == ins[i].addrs[k..][0];
          AddrSlot(d, ins[i], k);
        }
        var freed := FreeSlot(d, ins, own0, i, k, b);
        CoveredThen(d, l0, e, l, disk[..], logged);
        ok := ok && freed;
        inodes[i] := WithAddr(inodes[i], k, 0);
        k := k + 1;
      }
      assert inodes[i].addrs[NDIRECT] == ins[i].addrs[NDIRECT] by {
        assert inodes[i].addrs[NDIRECT..][0] == ins[i].addrs[NDIRECT..][0];
      }
      var at := inodes[i].addrs[NDIRECT];
      ghost var e, l := disk[..], logged;
      var freed := FreeEntries(d, ins, own0, i, at);
      CoveredThen(d, l0, e, l, disk[..], logged);
      ok := ok && freed;
      inodes[i] := WithAddr(inodes[i], NDIRECT, 0);
      inodes[i] := inodes[i].(size := 0);
      assert inodes[..] == ins[i := EMPTY] by { assert inodes[i].addrs == EMPTY.addrs; }
      own := Dropping(own0, i, MAXFILE + 1);
      EndTruncating(g, d, ins, own0, disk[..], i);
      FreesExactly(g, d, ins, own0, disk[..], inodes[..], own, i);
      CoveredMore(d, l0, disk[..], logged, {i / IPB + inodestart});
      Iupdate(i);
    }

    /** The second half of itrunc: the entries of the indirect block at, then the block itself. */
    method FreeEntries(ghost d0: seq<Block>, ghost ins0: seq<Inode>, ghost own0: seq<Owner>, i: nat, at: nat)
      returns (ok: bool)
      requires Truncating(d0, ins0, own0, i, NDIRECT) && at == ins0[i].addrs[NDIRECT]
      modifies disk, this`logged
      ensures ok && Truncating(d0, ins0, own0, i, MAXFILE + 1)
      ensures logged <= old(logged) + Maps(g) && Covered(old(disk[..]), old(logged), disk[..], logged)
    {
      hide Owned, Slot, Byte, Word, Covered;
      ghost var d, l0 := disk[..], logged;
      CoveredSame(d, l0);
      ok := true;
      if at == 0 {
        NothingToFree(g, d0, ins0, own0, i);
        return;
      }
      OwnedSized(g, disk[..], ins0[i := EMPTY], Dropping(own0, i, NDIRECT));
      OwnedSized(g, d0, ins0, own0);
      IndirectInRange(g, d0, ins0, own0, i);
      var j := 0;
      while j < NINDIRECT
        invariant j <= NINDIRECT && ok && Truncating(d0, ins0, own0, i, NDIRECT + j)
        invariant logged <= old(logged) + Maps(g) && Covered(d, l0, disk[..], logged)
      {
        ghost var e, l := disk[..], logged;
        var b := Word(disk[at], j);
        assert b == Slot(d0, ins0[i], NDIRECT + j) by {
          EntrySlot(disk[..], ins0[i], NDIRECT + j);
          assert SameSlots(d0, ins0[i], disk[..], ins0[i]);
        }
        var freed := FreeSlot(d0, ins0, own0, i, NDIRECT + j, b);
        CoveredThen(d, l0, e, l, disk[..], logged);
        ok := ok && freed;
        j := j + 1;
      }
      assert at == Slot(d0, ins0[i], MAXFILE) by { AddrSlot(d0, ins0[i], NDIRECT); }
      ghost var e, l := disk[..], logged;
      var freed := FreeSlot(d0, ins0, own0, i, MAXFILE, at);
      CoveredThen(d, l0, e, l, disk[..], logged);
      ok := ok && freed;
    }

    /** iupdate: the on-disk inode becomes the one in memory. */
    method Iupdate(i: nat)
      requires i < inodes.Length == dinodes.Length && inodes != dinodes
      modifies dinodes, this`logged
      ensures dinodes[..] == old(dinodes[..])[i := inodes[i]]
      ensures logged == old(logged) + {i / IPB + inodestart}
    {
      dinodes[i] := inodes[i];
      logged := logged + {i / IPB + inodestart};
    }

    /** The new state in terms of an old one, after mapping slot k of file i to addr. */
    ghost predicate BlockMapped(d: seq<Block>, ins: seq<Inode>, own0: seq<Owner>, i: nat, k: nat, addr: nat)
      requires i < |ins| == inodes.Length && k <= MAXFILE && GeoOk(g) && |d| == g.size
      reads this, disk, inodes
    {
      && Mapped(d, ins, disk[..], inodes[..], i, k)
      && addr == Slot(disk[..], inodes[i], k)
      && (Slot(d, ins[i], k) != 0 ==> disk[..] == d && inodes[..] == ins && own == own0)
      && (addr == 0 ==> Full(g, disk[..]))
      && (NoneHeld(own0) ==> NoneHeld(own))
      && KeepsOwners(own0, own, i)
    }
  }

  /** Nobody loses a block, and only file i may gain some. */
  ghost predicate KeepsOwners(own: seq<Owner>, own': seq<Owner>, i: nat) {
    |own'| == |own| && forall b {:trigger own'[b]} :: 0 <= b < |own| && own'[b] != own[b] ==> own[b] == Free && own'[b].Ref? && own'[b].i == i
  }

  lemma AddrSlot(d: seq<Block>, ino: Inode, k: nat)
    requires k <= NDIRECT
    ensures Slot(d, ino, SlotOfAddr(k)) == ino.addrs[k]
  {
  }

  lemma LinkClaimedAddr(g: Geo, d: seq<Block>, e: seq<Block>, inodes: seq<Inode>, own: seq<Owner>, i: nat, k: nat, b: nat)
    requires GeoOk(g) && |d| == g.size == |own| && b < g.size && i < |inodes| && k <= NDIRECT && inodes[i].addrs[k] == 0
    requires Claimed(g, d, e, inodes, b) && Owned(g, e, inodes, own[b := Held(SlotOfAddr(k))])
    ensures var jnodes := inodes[i := WithAddr(inodes[i], k, b)];
            && Owned(g, e, jnodes, own[b := Ref(i, SlotOfAddr(k))])
            && Mapped(d, inodes, e, jnodes, i, SlotOfAddr(k))
            && Slot(d, inodes[i], SlotOfAddr(k)) == 0 < b == Slot(e, jnodes[i], SlotOfAddr(k))
  {
    AddrSlot(d, inodes[i], k);
    hide Owned, Slot, SetBit, Byte;
    var s := SlotOfAddr(k);
    var jnodes := inodes[i := WithAddr(inodes[i], k, b)];
    LinkAddrOwned(g, e, inodes, own[b := Held(s)], i, k, b);
    assert own[b := Held(s)][b := Ref(i, s)] == own[b := Ref(i, s)];
    assert SameSlots(d, inodes[i], e, inodes[i]);
    SameFilesTrans(d, inodes, e, inodes, e, jnodes);
  }

  lemma EntrySlot(d: seq<Block>, ino: Inode, k: nat)
    requires NDIRECT <= k < MAXFILE && 0 < ino.addrs[NDIRECT] < |d|
    ensures Slot(d, ino, k) == Word(d[ino.addrs[NDIRECT]], k - NDIRECT)
  {
  }

  lemma IndirectInRange(g: Geo, d: seq<Block>, inodes: seq<Inode>, own: seq<Owner>, i: nat)
    requires Owned(g, d, inodes, own) && i < |inodes| && inodes[i].addrs[NDIRECT] != 0
    ensures inodes[i].addrs[NDIRECT] < |d|
  {
    assert UpAt(d, inodes[i], own, i, MAXFILE);
  }

  lemma LinkClaimedEntry(g: Geo, d: seq<Block>, e: seq<Block>, inodes: seq<Inode>, own: seq<Owner>, i: nat, k: nat, b: nat)
    requires GeoOk(g) && |d| == g.size == |own| && b < g.size && i < |inodes| && NDIRECT <= k < MAXFILE
    requires inodes[i].addrs[NDIRECT] != 0 && Slot(d, inodes[i], k) == 0
    requires Claimed(g, d, e, inodes, b) && Owned(g, e, inodes, own[b := Held(k)])
    ensures var a := inodes[i].addrs[NDIRECT];
            && a < g.size
            && var f := e[a := PutWord(e[a], k - NDIRECT, b)];
               && Owned(g, f, inodes, own[b := Ref(i, k)])
               && Mapped(d, inodes, f, inodes, i, k)
               && 0 < b == Slot(f, inodes[i], k)
  {
    hide Owned, Slot, SetBit, Byte, PutWord;
    assert SameSlots(d, inodes[i], e, inodes[i]);
    LinkEntryOwned(g, e, inodes, own[b := Held(k)], i, k, b);
    assert own[b := Held(k)][b := Ref(i, k)] == own[b := Ref(i, k)];
    var f := e[inodes[i].addrs[NDIRECT] := PutWord(e[inodes[i].addrs[NDIRECT]], k - NDIRECT, b)];
    SameFilesTrans(d, inodes, e, inodes, f, inodes);
    forall j: nat | j < |inodes| && j != i ensures SameSlots(d, inodes[j], f, inodes[j]) {
      assert SameSlots(d, inodes[j], e, inodes[j]) && SameSlots(e, inodes[j], f, inodes[j]);
    }
  }

  /** The bitmap blocks. */
  function Maps(g: Geo): set<nat> {
    set b: nat | b < g.size :: BitmapBlock(g, b)
  }

  /** Blocks that bmap may log for the data block addr and the indirect block at. */
  function BmapLogs(g: Geo, addr: nat, at: nat): set<nat> {
    Maps(g) + (if addr == 0 then {} else {addr}) + (if at == 0 then {} else {at})
  }

  lemma BitmapInMaps(g: Geo, d: seq<Block>, inodes: seq<Inode>, own: seq<Owner>, i: nat, k: nat)
    requires Owned(g, d, inodes, own) && i < |inodes| && k <= MAXFILE
    ensures Slot(d, inodes[i], k) < g.size && BitmapBlock(g, Slot(d, inodes[i], k)) in Maps(g)
  {
    assert UpAt(d, inodes[i], own, i, k);
  }

  lemma NoEntry(d: seq<Block>, ino: Inode, k: nat)
    requires NDIRECT <= k < MAXFILE
    ensures ino.addrs[NDIRECT] == 0 ==> Slot(d, ino, k) == 0
    ensures Slot(d, ino, MAXFILE) == ino.addrs[NDIRECT]
  {
  }

  lemma MappedWiden(d: seq<Block>, x: seq<Inode>, e: seq<Block>, y: seq<Inode>, i: nat, k: nat)
    requires i < |x| == |y| && k < MAXFILE && Mapped(d, x, e, y, i, MAXFILE)
    ensures Mapped(d, x, e, y, i, k)
  {
    hide Slot, Byte;
  }

  lemma MappedTwice(d: seq<Block>, x: seq<Inode>, e: seq<Block>, y: seq<Inode>, f: seq<Block>, z: seq<Inode>, i: nat, k: nat)
    requires i < |x| == |y| == |z| && k < MAXFILE && Mapped(d, x, e, y, i, MAXFILE) && Mapped(e, y, f, z, i, k)
    ensures Mapped(d, x, f, z, i, k)
  {
    hide Slot, Byte;
    SameFilesTrans(d, x, e, y, f, z);
    forall j: nat | j < |x| && j != i ensures SameSlots(d, x[j], f, z[j]) {
      assert SameSlots(d, x[j], e, y[j]) && SameSlots(e, y[j], f, z[j]);
    }
    forall l: nat | l < MAXFILE && l != k ensures Slot(f, z[i], l) == Slot(d, x[i], l) {
      assert Slot(e, y[i], l) == Slot(d, x[i], l);
    }
    forall l: nat | l <= MAXFILE && Slot(d, x[i], l) != 0 ensures Slot(f, z[i], l) == Slot(d, x[i], l) {
      assert Slot(e, y[i], l) == Slot(d, x[i], l);
    }
  }

  /** Ownership in the middle of itrunc: slots of file i below lo are free, the others held. */
  function Dropping(own: seq<Owner>, i: nat, lo: nat): (r: seq<Owner>)
    ensures |r| == |own|
  {
    seq(|own|, b requires 0 <= b < |own| =>
      if own[b].Ref? && own[b].i == i then (if own[b].k < lo then Free else Held(own[b].k)) else own[b])
  }

  /** The bits that are cleared are those of the blocks that were in a slot of file i. */
  lemma FreesExactly(g: Geo, d: seq<Block>, ins: seq<Inode>, own: seq<Owner>, e: seq<Block>, jns: seq<Inode>, own': seq<Owner>, i: nat)
    requires Owned(g, d, ins, own) && Owned(g, e, jns, own') && i < |ins| && own' == Dropping(own, i, MAXFILE + 1)
    ensures forall b: nat :: 0 < b < g.size ==>
              (Bit(g, e, b) <==> Bit(g, d, b) && !exists k :: 0 <= k <= MAXFILE && Slot(d, ins[i], k) == b)
  {
    hide Bit, Slot, NoHoles;
    forall b: nat | 0 < b < g.size
      ensures Bit(g, e, b) <==> Bit(g, d, b) && !exists k :: 0 <= k <= MAXFILE && Slot(d, ins[i], k) == b
    {
      assert DownAt(g, d, ins, own, b) && DownAt(g, e, jns, own', b);
      if k: nat :| k <= MAXFILE && Slot(d, ins[i], k) == b {
        assert UpAt(d, ins[i], own, i, k);
      }
    }
  }

  lemma DropStep(g: Geo, d: seq<Block>, inodes: seq<Inode>, own: seq<Owner>, i: nat, lo: nat)
    requires Owned(g, d, inodes, own) && i < |inodes| && lo <= MAXFILE
    ensures var b := Slot(d, inodes[i], lo);
            && b < |own|
            && (b == 0 ==> Dropping(own, i, lo + 1) == Dropping(own, i, lo))
            && (b != 0 ==> Dropping(own, i, lo)[b] == Held(lo) && Dropping(own, i, lo + 1) == Dropping(own, i, lo)[b := Free])
  {
    hide Slot, Bit;
    var b := Slot(d, inodes[i], lo);
    assert UpAt(d, inodes[i], own, i, lo);
    forall c: nat | c < |own| && own[c] == Ref(i, lo) ensures c == b {
      assert DownAt(g, d, inodes, own, c);
    }
    assert DownAt(g, d, inodes, own, 0);
  }

  lemma StartTruncating(g: Geo, d: seq<Block>, inodes: seq<Inode>, own: seq<Owner>, i: nat)
    requires Owned(g, d, inodes, own) && i < |inodes|
    ensures Owned(g, d, inodes[i := EMPTY], Dropping(own, i, 0))
  {
    DetachKeepsOwned(g, d, inodes, own, i);
    assert Dropping(own, i, 0) == Unref(own, i);
  }

  lemma NothingToFree(g: Geo, d: seq<Block>, inodes: seq<Inode>, own: seq<Owner>, i: nat)
    requires Owned(g, d, inodes, own) && i < |inodes| && inodes[i].addrs[NDIRECT] == 0
    ensures Dropping(own, i, MAXFILE + 1) == Dropping(own, i, NDIRECT)
  {
    forall c: nat | c < |own| && own[c].Ref? && own[c].i == i ensures own[c].k < NDIRECT {
      assert DownAt(g, d, inodes, own, c);
      assert DownAt(g, d, inodes, own, 0);
    }
  }

  /** Clearing a bit of the bitmap changes no block map, not even that of the file being freed. */
  lemma AddrsKeepSlots(g: Geo, d0: seq<Block>, ins0: seq<Inode>, own0: seq<Owner>, d: seq<Block>, i: nat, lo: nat, b: nat)
    requires Owned(g, d0, ins0, own0) && i < |ins0| && |d| == |d0| && b < g.size
    requires forall j: nat :: j < |ins0| ==> SameSlots(d0, ins0[j], d, ins0[j])
    ensures forall j: nat :: j < |ins0| ==> SameSlots(d0, ins0[j], ClearBit(g, d, b), ins0[j])
  {
    BitmapRange(g, b);
    hide Mask, Word;
    forall j: nat | j < |ins0| ensures SameSlots(d0, ins0[j], ClearBit(g, d, b), ins0[j]) {
      assert SameSlots(d0, ins0[j], d, ins0[j]);
      assert UpAt(d0, ins0[j], own0, j, MAXFILE);
      assert DownAt(g, d0, ins0, own0, BitmapBlock(g, b));
      forall k: nat | k <= MAXFILE ensures Slot(ClearBit(g, d, b), ins0[j], k) == Slot(d, ins0[j], k) {}
    }
  }

  lemma EndTruncating(g: Geo, d0: seq<Block>, ins0: seq<Inode>, own0: seq<Owner>, d: seq<Block>, i: nat)
    requires Settled(g, d0, ins0, own0) && i < |ins0|
    requires Owned(g, d, ins0[i := EMPTY], Dropping(own0, i, MAXFILE + 1))
    requires forall j: nat :: j < |ins0| ==> SameSlots(d0, ins0[j], d, ins0[j])
    ensures Settled(g, d, ins0[i := EMPTY], Dropping(own0, i, MAXFILE + 1))
  {
    var jns := ins0[i := EMPTY];
    var own1 := Dropping(own0, i, MAXFILE + 1);
    forall b: nat | b < g.size ensures !own1[b].Held? {
      assert DownAt(g, d0, ins0, own0, b);
    }
    hide Owned, Slot;
    forall j | 0 <= j < |jns| ensures NoHoles(d, jns[j], jns[j].size) {
      forall k: nat | k < MAXFILE ensures HoleAt(d, jns[j], jns[j].size, k) {
        if j == i { EmptySlots(d, k); } else {
          assert NoHoles(d0, ins0[j], ins0[j].size) && HoleAt(d0, ins0[j], ins0[j].size, k);
          assert SameSlots(d0, ins0[j], d, ins0[j]);
        }
      }
    }
  }

  lemma SameFilesTrans(a: seq<Block>, x: seq<Inode>, b: seq<Block>, y: seq<Inode>, c: seq<Block>, z: seq<Inode>)
    requires SameFiles(a, x, b, y) && SameFiles(b, y, c, z)
    ensures SameFiles(a, x, c, z)
  {
    hide Byte;
    forall i | 0 <= i < |x| ensures SameBytes(a, x[i], c, z[i]) && x[i].size == z[i].size {
      assert SameBytes(a, x[i], b, y[i]) && SameBytes(b, y[i], c, z[i]);
    }
  }

  lemma NoBit(i: nat)
    requires i < 8
    ensures !BitOf(0, i)
  {
  }

  lemma FormattedOwned(g: Geo, d: seq<Block>, inodes: seq<Inode>, own: seq<Owner>)
    requires GeoOk(g) && |d| == |own| == g.size && forall i :: 0 <= i < |inodes| ==> inodes[i] == EMPTY
    requires forall b :: 0 <= b < g.size ==> own[b] == if b < g.nmeta then Meta else Free
    requires forall b: nat :: b < g.size ==> (Bit(g, d, b) <==> b < g.nmeta)
    ensures Settled(g, d, inodes, own)
  {
    hide Bit, Slot;
    forall k: nat | k <= MAXFILE ensures Slot(d, EMPTY, k) == 0 { EmptySlots(d, k); }
    forall b: nat | b < g.size ensures DownAt(g, d, inodes, own, b) {}
    forall i: nat, k: nat | i < |inodes| && k <= MAXFILE ensures UpAt(d, inodes[i], own, i, k) {}
    forall i | 0 <= i < |inodes| ensures NoHoles(d, inodes[i], inodes[i].size) {
      forall k: nat | k < MAXFILE ensures HoleAt(d, inodes[i], 0, k) {}
    }
  }

  lemma OwnedSized(g: Geo, disk: seq<Block>, inodes: seq<Inode>, own: seq<Owner>)
    requires Owned(g, disk, inodes, own)
    ensures GeoOk(g) && |disk| == |own| == g.size
  {
  }

  lemma BitPlace(b: nat, bi: nat)
    requires bi == b % BPB
    ensures bi / 8 == ByteIndex(b) && bi % 8 == BitIndex(b)
  {
  }

  /** What the inner loop of balloc tests. */
  lemma BitHere(g: Geo, disk: seq<Block>, b: nat, bi: nat)
    requires GeoOk(g) && |disk| == g.size && b % BPB == 0 && bi < BPB && b + bi < g.size
    ensures BitmapBlock(g, b + bi) == BitmapBlock(g, b) < g.size && bi == (b + bi) % BPB
    ensures Bit(g, disk, b + bi) <==> disk[BitmapBlock(g, b)][bi / 8] & Mask(bi % 8) != 0
  {
    hide Mask;
    BitmapRange(g, b);
    assert (b + bi) / BPB == b / BPB && (b + bi) % BPB == bi;
    BitPlace(b + bi, bi);
  }

  lemma FreeIffClear(g: Geo, disk: seq<Block>, inodes: seq<Inode>, own: seq<Owner>, b: nat)
    requires Owned(g, disk, inodes, own) && b < g.size
    ensures Bit(g, disk, b) <==> own[b] != Free
    ensures b < g.nmeta <==> own[b] == Meta
  {
    assert DownAt(g, disk, inodes, own, b);
  }
}
