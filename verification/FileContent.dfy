/**
 readi and writei of fs.c, and filewrite of file.c: byte ranges of a file against its content as a
 plain sequence of bytes.
 */
module FileContent {
  import opened FsLayout
  import opened FsSteps
  import opened FileSystem
  import opened Basics

  const MAXCHUNK: nat := 3072   // filewrite: ((MAXOPBLOCKS - 1 - 1 - 2) / 2) * BSIZE

  // ---- what a write does to the bytes -----------------------------------------------------------

  /** Bytes off.. of the file are s, the others as before. */
  ghost predicate Wrote(d: seq<Block>, a: Inode, e: seq<Block>, b: Inode, off: nat, s: seq<bv8>) {
    forall p: nat {:trigger Byte(e, b, p)} :: p < MAXBYTES ==>
      Byte(e, b, p) == if off <= p < off + |s| then s[p - off] else Byte(d, a, p)
  }

  /** Nothing happens to the other files. */
  ghost predicate Others(d: seq<Block>, ins: seq<Inode>, e: seq<Block>, jns: seq<Inode>, i: nat) {
    && |ins| == |jns|
    && forall j: nat {:trigger jns[j]} :: j < |ins| && j != i ==>
         jns[j] == ins[j] && SameSlots(d, ins[j], e, jns[j]) && SameBytes(d, ins[j], e, jns[j])
  }

  /** Blocks once in the file stay where they are. */
  ghost predicate KeepsSlots(d: seq<Block>, a: Inode, e: seq<Block>, b: Inode) {
    forall l: nat {:trigger Slot(e, b, l)} :: l <= MAXFILE && Slot(d, a, l) != 0 ==> Slot(e, b, l) == Slot(d, a, l)
  }

  lemma WroteThen(d: seq<Block>, a: Inode, e: seq<Block>, b: Inode, f: seq<Block>, c: Inode, off: nat, s: seq<bv8>, t: seq<bv8>)
    requires Wrote(d, a, e, b, off, s) && Wrote(e, b, f, c, off + |s|, t)
    ensures Wrote(d, a, f, c, off, s + t)
  {
    hide Byte;
    forall p: nat | p < MAXBYTES
      ensures Byte(f, c, p) == if off <= p < off + |s + t| then (s + t)[p - off] else Byte(d, a, p)
    {
      assert Byte(e, b, p) == if off <= p < off + |s| then s[p - off] else Byte(d, a, p);
    }
  }

  lemma OthersThen(d: seq<Block>, x: seq<Inode>, e: seq<Block>, y: seq<Inode>, f: seq<Block>, z: seq<Inode>, i: nat)
    requires Others(d, x, e, y, i) && Others(e, y, f, z, i)
    ensures Others(d, x, f, z, i)
  {
    hide Byte, Slot;
    forall j: nat | j < |x| && j != i
      ensures z[j] == x[j] && SameSlots(d, x[j], f, z[j]) && SameBytes(d, x[j], f, z[j])
    {
      assert y[j] == x[j] && z[j] == y[j];
    }
  }

  lemma ContentWrote(d: seq<Block>, a: Inode, e: seq<Block>, b: Inode, off: nat, s: seq<bv8>)
    requires Wrote(d, a, e, b, off, s) && off <= a.size <= MAXBYTES && off + |s| <= MAXBYTES
    requires b.size == if off + |s| > a.size then off + |s| else a.size
    ensures Content(e, b) == Replaced(Content(d, a), off, s)
  {
    hide Byte;
    var c, r := Content(e, b), Replaced(Content(d, a), off, s);
    forall p: nat | p < b.size ensures c[p] == r[p] {
      assert c[p] == Byte(e, b, p);
    }
  }

  // ---- one block --------------------------------------------------------------------------------

  /** Writing part of a block that is in the file. */
  lemma OverlayWrites(g: Geo, d: seq<Block>, inodes: seq<Inode>, own: seq<Owner>, i: nat, off: nat, s: seq<bv8>)
    requires Owned(g, d, inodes, own) && i < |inodes| && off < MAXBYTES && off % BSIZE + |s| <= BSIZE
    requires Slot(d, inodes[i], off / BSIZE) != 0
    ensures var b := Slot(d, inodes[i], off / BSIZE);
            && b < g.size == |d|
            && var e := d[b := Overlay(d[b], off % BSIZE, s)];
               && Owned(g, e, inodes, own) && Wrote(d, inodes[i], e, inodes[i], off, s)
               && Others(d, inodes, e, inodes, i) && SameSlots(d, inodes[i], e, inodes[i])
  {
    var k := off / BSIZE;
    var b := Slot(d, inodes[i], k);
    assert b < g.size == |d| by { BitmapInMaps(g, d, inodes, own, i, k); OwnedSized(g, d, inodes, own); }
    var x := Overlay(d[b], off % BSIZE, s);
    var e := d[b := x];
    WriteData(g, d, inodes, own, b, x, i, k);
    forall p: nat | p < MAXBYTES
      ensures Byte(e, inodes[i], p) == if off <= p < off + |s| then s[p - off] else Byte(d, inodes[i], p)
    {
      hide Owned, Slot;
      if p / BSIZE == k {
        assert p == k * BSIZE + p % BSIZE && off == k * BSIZE + off % BSIZE;
      }
    }
    hide Owned, Slot, Byte;
  }

  /** What filling the hole at the end does to the absence of holes. */
  lemma HolesFilled(d: seq<Block>, a: Inode, e: seq<Block>, b: Inode, size: nat, off: nat, m: nat)
    requires NoHoles(d, a, size) && off <= size && 0 < m && off % BSIZE + m <= BSIZE && off < MAXBYTES
    requires Slot(e, b, off / BSIZE) != 0
    requires forall l: nat :: l < MAXFILE && l != off / BSIZE ==> Slot(e, b, l) == Slot(d, a, l)
    ensures NoHoles(e, b, if off + m > size then off + m else size)
  {
    hide Slot;
    var to := if off + m > size then off + m else size;
    forall k: nat | k < MAXFILE ensures HoleAt(e, b, to, k) {
      assert HoleAt(d, a, size, k);
    }
  }

  lemma HolesKept(d: seq<Block>, a: Inode, e: seq<Block>, b: Inode, size: nat)
    requires NoHoles(d, a, size) && forall l: nat :: l < MAXFILE ==> Slot(e, b, l) == Slot(d, a, l)
    ensures NoHoles(e, b, size)
  {
    hide Slot;
    forall k: nat | k < MAXFILE ensures HoleAt(e, b, size, k) {
      assert HoleAt(d, a, size, k);
    }
  }

  // ---- writei -----------------------------------------------------------------------------------

  function Max(a: nat, b: nat): nat {
    if a > b then a else b
  }

  /** In the middle of a write at off, of which done is written: how things stand relative to the
      start of the write. The size field still waits. */
  ghost predicate Writing(fs: FileSys, d0: seq<Block>, ins0: seq<Inode>, i: nat, off: nat, done: seq<bv8>)
    reads fs, fs.disk, fs.inodes, fs.dinodes
  {
    && fs.Good() && NoneHeld(fs.own) && fs.dinodes[..] == ins0 && i < |ins0| == fs.inodes.Length
    && Wrote(d0, ins0[i], fs.disk[..], fs.inodes[i], off, done)
    && Others(d0, ins0, fs.disk[..], fs.inodes[..], i)
    && KeepsSlots(d0, ins0[i], fs.disk[..], fs.inodes[i])
    && fs.inodes[i].size == ins0[i].size
    && NoHoles(fs.disk[..], fs.inodes[i], Max(ins0[i].size, off + |done|))
  }

  /** The data blocks from block from up to block to of a file. */
  function DataBlocks(d: seq<Block>, ino: Inode, from: nat, to: nat): (s: set<nat>)
    requires to <= MAXFILE
  {
    set k: nat | from <= k < to && Slot(d, ino, k) != 0 :: Slot(d, ino, k)
  }

  /** The number of the first block wholly at or after position p. */
  function BlockAfter(p: nat): nat {
    (p + (BSIZE - 1)) / BSIZE
  }

  /** What a write from off to end may have logged. */
  ghost predicate LogsOnly(fs: FileSys, logged0: set<nat>, i: nat, off: nat, end: nat)
    reads fs, fs.disk, fs.inodes
    requires i < fs.inodes.Length && end <= MAXBYTES
  {
    fs.logged <= logged0 + Maps(fs.g) + BmapLogs(fs.g, 0, fs.inodes[i].addrs[NDIRECT])
                 + DataBlocks(fs.disk[..], fs.inodes[i], off / BSIZE, BlockAfter(end))
  }

  /** From one state in the middle of a write to the next. */
  lemma WritingOn(g: Geo, d0: seq<Block>, ins0: seq<Inode>, d: seq<Block>, ins: seq<Inode>, e: seq<Block>, jns: seq<Inode>,
                  i: nat, off: nat, done: seq<bv8>, s: seq<bv8>)
    requires i < |ins0| == |ins| == |jns|
    requires Wrote(d0, ins0[i], d, ins[i], off, done) && Wrote(d, ins[i], e, jns[i], off + |done|, s)
    requires Others(d0, ins0, d, ins, i) && Others(d, ins, e, jns, i)
    requires KeepsSlots(d0, ins0[i], d, ins[i]) && KeepsSlots(d, ins[i], e, jns[i])
    ensures Wrote(d0, ins0[i], e, jns[i], off, done + s) && Others(d0, ins0, e, jns, i)
    ensures KeepsSlots(d0, ins0[i], e, jns[i])
  {
    hide Byte, Slot;
    WroteThen(d0, ins0[i], d, ins[i], e, jns[i], off, done, s);
    OthersThen(d0, ins0, d, ins, e, jns, i);
    forall l: nat | l <= MAXFILE && Slot(d0, ins0[i], l) != 0 ensures Slot(e, jns[i], l) == Slot(d0, ins0[i], l) {
      assert Slot(d, ins[i], l) == Slot(d0, ins0[i], l);
    }
  }

  /** Mapping a block writes nothing. */
  lemma MappedWritesNothing(d: seq<Block>, ins: seq<Inode>, e: seq<Block>, jns: seq<Inode>, i: nat, k: nat, off: nat)
    requires i < |ins| == |jns| && k < MAXFILE && Mapped(d, ins, e, jns, i, k)
    ensures Wrote(d, ins[i], e, jns[i], off, []) && Others(d, ins, e, jns, i) && KeepsSlots(d, ins[i], e, jns[i])
    ensures jns[i].size == ins[i].size
  {
    hide Byte, Slot;
    assert SameBytes(d, ins[i], e, jns[i]);
    forall j: nat | j < |ins| && j != i ensures SameBytes(d, ins[j], e, jns[j]) {}
  }

  /** One turn of the loop of writei; ok is false when no block is to be had. */
  method WriteBlock(fs: FileSys, ghost d0: seq<Block>, ghost ins0: seq<Inode>, i: nat, ghost off0: nat, ghost done: seq<bv8>,
                    off: nat, s: seq<bv8>) returns (ok: bool)
    requires Writing(fs, d0, ins0, i, off0, done) && off == off0 + |done| && off0 <= ins0[i].size
    requires 0 < |s| && off % BSIZE + |s| <= BSIZE && off + |s| <= MAXBYTES
    modifies fs`own, fs`logged, fs.disk, fs.inodes
    ensures Writing(fs, d0, ins0, i, off0, if ok then done + s else done)
    ensures !ok ==> Full(fs.g, fs.disk[..])
    ensures KeepsSlots(old(fs.disk[..]), old(fs.inodes[i]), fs.disk[..], fs.inodes[i])
    ensures var at := Slot(fs.disk[..], fs.inodes[i], off / BSIZE);
            fs.logged <= old(fs.logged) + BmapLogs(fs.g, at, fs.inodes[i].addrs[NDIRECT]) && (ok <==> at != 0)
    ensures Covered(old(fs.disk[..]), old(fs.logged), fs.disk[..], fs.logged)
  {
    hide Owned, Slot, Byte, Covered;
    ghost var d, ins, l := fs.disk[..], fs.inodes[..], fs.logged;
    OwnedSized(fs.g, d, ins, fs.own);
    var k := off / BSIZE;
    var addr := fs.Bmap(i, k);
    ghost var e, jns := fs.disk[..], fs.inodes[..];
    MappedWritesNothing(d, ins, e, jns, i, k, off);
    WritingOn(fs.g, d0, ins0, d, ins, e, jns, i, off0, done, []);
    assert done + [] == done;
    if addr == 0 {
      assert Slot(d, ins[i], k) == 0 by { assert Slot(d, ins[i], k) != 0 ==> e == d && jns == ins; }
      HolesKept(d, ins[i], e, jns[i], Max(ins0[i].size, off));
      return false;
    }
    OverlayWrites(fs.g, e, jns, fs.own, i, off, s);
    CoveredPut(d, l, e, fs.logged, addr, Overlay(e[addr], off % BSIZE, s));
    fs.disk[addr] := Overlay(fs.disk[addr], off % BSIZE, s);
    fs.logged := fs.logged + {addr};
    ghost var f := fs.disk[..];
    assert f == e[addr := Overlay(e[addr], off % BSIZE, s)];
    WritingOn(fs.g, d0, ins0, e, jns, f, jns, i, off0, done, s);
    HolesFilled(d, ins[i], f, jns[i], Max(ins0[i].size, off), off, |s|);
    return true;
  }

  lemma DataBlocksGrow(d: seq<Block>, a: Inode, e: seq<Block>, b: Inode, from: nat, to: nat, to': nat)
    requires KeepsSlots(d, a, e, b) && to <= to' <= MAXFILE
    ensures DataBlocks(d, a, from, to) <= DataBlocks(e, b, from, to')
  {
    hide Slot;
    forall x | x in DataBlocks(d, a, from, to) ensures x in DataBlocks(e, b, from, to') {
      var k: nat :| from <= k < to && Slot(d, a, k) != 0 && x == Slot(d, a, k);
      assert Slot(e, b, k) == x;
    }
  }

  lemma IndirectKept(d: seq<Block>, a: Inode, e: seq<Block>, b: Inode)
    requires KeepsSlots(d, a, e, b)
    ensures a.addrs[NDIRECT] != 0 ==> a.addrs[NDIRECT] == b.addrs[NDIRECT]
  {
    assert Slot(d, a, MAXFILE) == a.addrs[NDIRECT];
    assert Slot(e, b, MAXFILE) == b.addrs[NDIRECT];
  }

  /** One block more: what WriteBlock may log fits what the whole write may. */
  lemma LogsOn(g: Geo, d: seq<Block>, a: Inode, e: seq<Block>, b: Inode, off: nat, o: nat, m: nat)
    requires KeepsSlots(d, a, e, b) && off <= o && 0 < m && o % BSIZE + m <= BSIZE && o + m <= MAXBYTES
    ensures DataBlocks(d, a, off / BSIZE, BlockAfter(o)) <= DataBlocks(e, b, off / BSIZE, BlockAfter(o))
    ensures DataBlocks(d, a, off / BSIZE, BlockAfter(o)) <= DataBlocks(e, b, off / BSIZE, BlockAfter(o + m))
    ensures var at := Slot(e, b, o / BSIZE);
            at != 0 ==> at in DataBlocks(e, b, off / BSIZE, BlockAfter(o + m))
  {
    hide Slot;
    assert off / BSIZE <= o / BSIZE < BlockAfter(o + m) && BlockAfter(o) <= BlockAfter(o + m);
    DataBlocksGrow(d, a, e, b, off / BSIZE, BlockAfter(o), BlockAfter(o));
    DataBlocksGrow(d, a, e, b, off / BSIZE, BlockAfter(o), BlockAfter(o + m));
  }

  /** The logs of a block fit those of the write. */
  lemma LogsFit(g: Geo, d: seq<Block>, a: Inode, e: seq<Block>, b: Inode, off: nat, o: nat, m: nat, ok: bool,
                logged0: set<nat>, logged: set<nat>, logged': set<nat>)
    requires KeepsSlots(d, a, e, b) && off <= o && 0 < m && o % BSIZE + m <= BSIZE && o + m <= MAXBYTES
    requires logged <= logged0 + Maps(g) + BmapLogs(g, 0, a.addrs[NDIRECT]) + DataBlocks(d, a, off / BSIZE, BlockAfter(o))
    requires logged' <= logged + BmapLogs(g, Slot(e, b, o / BSIZE), b.addrs[NDIRECT])
    requires ok <==> Slot(e, b, o / BSIZE) != 0
    ensures logged' <= logged0 + Maps(g) + BmapLogs(g, 0, b.addrs[NDIRECT])
                       + DataBlocks(e, b, off / BSIZE, BlockAfter(if ok then o + m else o))
  {
    IndirectKept(d, a, e, b);
    LogsOn(g, d, a, e, b, off, o, m);
    hide Slot, DataBlocks, BlockAfter, Maps;
  }

  lemma LogsStart(d: seq<Block>, a: Inode, off: nat)
    requires off <= MAXBYTES
    ensures off / BSIZE <= BlockAfter(off) <= off / BSIZE + 1 && BlockAfter(off) <= MAXFILE
  {
  }

  /** After the loop: the size goes up to the end of what was written. */
  lemma SettleWrite(g: Geo, d0: seq<Block>, ins0: seq<Inode>, d: seq<Block>, ins: seq<Inode>, own0: seq<Owner>, own: seq<Owner>,
                    i: nat, size: nat)
    requires Settled(g, d0, ins0, own0) && Owned(g, d, ins, own) && NoneHeld(own) && i < |ins0| == |ins|
    requires Others(d0, ins0, d, ins, i) && NoHoles(d, ins[i], size)
    ensures Settled(g, d, ins[i := ins[i].(size := size)], own)
    ensures SameSlots(d, ins[i], d, ins[i].(size := size)) && SameBytes(d, ins[i], d, ins[i].(size := size))
  {
    var jns := ins[i := ins[i].(size := size)];
    assert SameSlots(d, ins[i], d, jns[i]) && SameBytes(d, ins[i], d, jns[i]);
    SameMapOwned(g, d, ins, jns, own);
    hide Owned, Slot, Byte;
    forall j | 0 <= j < |jns| ensures NoHoles(d, jns[j], jns[j].size) {
      if j == i { HolesKept(d, ins[i], d, jns[i], size); }
      else { HolesKept(d0, ins0[j], d, jns[j], ins0[j].size); }
    }
  }

  /** Ownership depends on the addresses in the inodes only. */
  lemma SameMapOwned(g: Geo, d: seq<Block>, ins: seq<Inode>, jns: seq<Inode>, own: seq<Owner>)
    requires Owned(g, d, ins, own) && |ins| == |jns| && forall j :: 0 <= j < |ins| ==> jns[j].addrs == ins[j].addrs
    ensures Owned(g, d, jns, own)
  {
    hide Bit;
    forall b: nat | b < g.size ensures DownAt(g, d, jns, own, b) {
      assert DownAt(g, d, ins, own, b);
    }
    forall i: nat, k: nat | i < |jns| && k <= MAXFILE ensures UpAt(d, jns[i], own, i, k) {
      assert UpAt(d, ins[i], own, i, k);
    }
  }

  /** The cases in which writei refuses; off + n is computed in 32 bits. */
  predicate Refused(size: nat, off: nat, n: nat) {
    off > size || (off + n) % WORD < off || (off + n) % WORD > MAXBYTES
  }

  /** Beyond the end of the file, or past the maximum; a sum that wraps is past it too. */
  lemma RefusedIff(size: nat, off: nat, n: nat)
    requires off < WORD && n < WORD
    ensures Refused(size, off, n) <==> off > size || off + n > 274432
  {
  }

  lemma NotRefused(size: nat, off: nat, n: nat)
    requires off < WORD && n < WORD && !Refused(size, off, n)
    ensures off <= size && off + n <= MAXBYTES
  {
  }

  /** What writei did to file i. */
  ghost predicate Written(d: seq<Block>, ins: seq<Inode>, e: seq<Block>, jns: seq<Inode>, i: nat, off: nat, s: seq<bv8>)
    requires i < |ins| && ins[i].size <= MAXBYTES
  {
    && Others(d, ins, e, jns, i)
    && off <= ins[i].size
    && KeepsSlots(d, ins[i], e, jns[i])
    && jns[i].size == Max(ins[i].size, off + |s|) <= MAXBYTES
    && Content(e, jns[i]) == Replaced(Content(d, ins[i]), off, s)
  }

  /** The loop of writei. */
  method WriteLoop(fs: FileSys, i: nat, off: nat, src: seq<bv8>) returns (tot: nat)
    requires fs.Valid() && i < fs.inodes.Length && off <= fs.inodes[i].size && off + |src| <= MAXBYTES
    modifies fs`own, fs`logged, fs.disk, fs.inodes
    ensures tot <= |src| && (tot < |src| ==> Full(fs.g, fs.disk[..]))
    ensures Writing(fs, old(fs.disk[..]), old(fs.inodes[..]), i, off, src[..tot])
    ensures LogsOnly(fs, old(fs.logged), i, off, off + tot)
    ensures Covered(old(fs.disk[..]), old(fs.logged), fs.disk[..], fs.logged)
  {
    hide Owned, Slot, Byte, DataBlocks, Maps, Covered;
    ghost var d0, ins0, logged0 := fs.disk[..], fs.inodes[..], fs.logged;
    CoveredSame(d0, logged0);
    LogsStart(d0, ins0[i], off);
    OwnedSized(fs.g, d0, ins0, fs.own);
    tot := 0;
    var o := off;
    assert src[..0] == [];
    while tot < |src|
      invariant tot <= |src| && o == off + tot
      invariant Writing(fs, d0, ins0, i, off, src[..tot])
      invariant LogsOnly(fs, logged0, i, off, o)
      invariant Covered(d0, logged0, fs.disk[..], fs.logged)
    {
      var m := if |src| - tot < BSIZE - o % BSIZE then |src| - tot else BSIZE - o % BSIZE;
      ghost var d, ino, logged := fs.disk[..], fs.inodes[i], fs.logged;
      var ok := WriteBlock(fs, d0, ins0, i, off, src[..tot], o, src[tot..tot + m]);
      CoveredThen(d0, logged0, d, logged, fs.disk[..], fs.logged);
      LogsFit(fs.g, d, ino, fs.disk[..], fs.inodes[i], off, o, m, ok, logged0, logged, fs.logged);
      if !ok { break; }
      assert src[..tot] + src[tot..tot + m] == src[..tot + m];
      tot := tot + m;
      o := o + m;
    }
  }

  method Writei(fs: FileSys, i: nat, off: nat, src: seq<bv8>) returns (tot: int)
    requires fs.Valid() && i < fs.inodes.Length && off < WORD && |src| < WORD
    modifies fs`own, fs`logged, fs.disk, fs.inodes, fs.dinodes
    ensures fs.Valid()
    ensures tot == -1 <==> off > old(fs.inodes[i]).size || off + |src| > 274432
    ensures Refused(old(fs.inodes[i]).size, off, |src|) ==>
              tot == -1 && fs.disk[..] == old(fs.disk[..]) && fs.inodes[..] == old(fs.inodes[..]) && fs.logged == old(fs.logged)
    ensures !Refused(old(fs.inodes[i]).size, off, |src|) ==>
              && 0 <= tot <= |src| && (tot < |src| ==> Full(fs.g, fs.disk[..]))
              && Written(old(fs.disk[..]), old(fs.inodes[..]), fs.disk[..], fs.inodes[..], i, off, src[..tot])
              && off + tot <= MAXBYTES
              && LogsOnly(fs, old(fs.logged) + {i / IPB + fs.inodestart}, i, off, off + tot)
              && i / IPB + fs.inodestart in fs.logged
    ensures Covered(old(fs.disk[..]), old(fs.logged), fs.disk[..], fs.logged)
  {
    hide Owned, Slot, Byte, DataBlocks, Maps, BmapLogs, Wrote, Others, KeepsSlots, Written, Replaced, Covered;
    CoveredSame(fs.disk[..], fs.logged);
    var size := fs.inodes[i].size;
    RefusedIff(size, off, |src|);
    if off > size || (off + |src|) % WORD < off { return -1; }
    if (off + |src|) % WORD > MAXBYTES { return -1; }
    NotRefused(size, off, |src|);
    ghost var d0, ins0, own0 := fs.disk[..], fs.inodes[..], fs.own;
    tot := WriteLoop(fs, i, off, src);
    var o := off + tot;
    ghost var d, ins := fs.disk[..], fs.inodes[..];
    var newSize := Max(size, o);
    SettleWrite(fs.g, d0, ins0, d, ins, own0, fs.own, i, newSize);
    DataBlocksSame(d, ins[i], ins[i].(size := newSize), off / BSIZE, BlockAfter(o));
    if o > size { fs.inodes[i] := fs.inodes[i].(size := o); }
    assert fs.inodes[..] == ins[i := ins[i].(size := newSize)];
    CoveredMore(d0, old(fs.logged), d, fs.logged, {i / IPB + fs.inodestart});
    fs.Iupdate(i);
    OthersUpdate(d0, ins0, d, ins, i, fs.inodes[i]);
    FinishWrite(d0, ins0, d, ins, i, off, src[..tot]);
  }

  lemma OthersUpdate(d: seq<Block>, ins: seq<Inode>, e: seq<Block>, jns: seq<Inode>, i: nat, x: Inode)
    requires Others(d, ins, e, jns, i) && i < |ins|
    ensures jns[i := x] == ins[i := x]
  {
    hide Slot, Byte;
    assert forall j: nat :: j < |ins| && j != i ==> jns[j] == ins[j];
  }

  lemma DataBlocksSame(d: seq<Block>, a: Inode, b: Inode, from: nat, to: nat)
    requires a.addrs == b.addrs && to <= MAXFILE
    ensures DataBlocks(d, a, from, to) == DataBlocks(d, b, from, to)
  {
    assert forall k: nat :: k < MAXFILE ==> Slot(d, a, k) == Slot(d, b, k);
  }

  lemma FinishWrite(d0: seq<Block>, ins0: seq<Inode>, d: seq<Block>, ins: seq<Inode>, i: nat, off: nat, s: seq<bv8>)
    requires i < |ins0| == |ins| && off <= ins0[i].size <= MAXBYTES && off + |s| <= MAXBYTES
    requires Wrote(d0, ins0[i], d, ins[i], off, s) && Others(d0, ins0, d, ins, i) && KeepsSlots(d0, ins0[i], d, ins[i])
    requires ins[i].size == ins0[i].size
    ensures var jns := ins[i := ins[i].(size := Max(ins0[i].size, off + |s|))];
            Written(d0, ins0, d, jns, i, off, s)
  {
    var to := ins[i].(size := Max(ins0[i].size, off + |s|));
    assert SameSlots(d, ins[i], d, to) && SameBytes(d, ins[i], d, to);
    hide Slot, Byte;
    ContentWrote(d0, ins0[i], d, to, off, s);
  }

  // ---- readi ------------------------------------------------------------------------------------

  /** Every position below the size is in a block. */
  lemma InBlock(d: seq<Block>, ino: Inode, p: nat)
    requires NoHoles(d, ino, ino.size) && p < ino.size
    ensures p < MAXBYTES && Slot(d, ino, p / BSIZE) != 0
  {
    assert HoleAt(d, ino, ino.size, p / BSIZE);
  }

  lemma BlockSlice(d: seq<Block>, ino: Inode, o: nat, m: nat)
    requires ino.size <= MAXBYTES && o + m <= ino.size && 0 < m && o % BSIZE + m <= BSIZE
    requires 0 < Slot(d, ino, o / BSIZE) < |d|
    ensures d[Slot(d, ino, o / BSIZE)][o % BSIZE..o % BSIZE + m] == Content(d, ino)[o..o + m]
  {
    hide Slot;
    var x := d[Slot(d, ino, o / BSIZE)][o % BSIZE..o % BSIZE + m];
    forall k: nat | k < m ensures x[k] == Content(d, ino)[o..o + m][k] {
      assert (o + k) / BSIZE == o / BSIZE && (o + k) % BSIZE == o % BSIZE + k;
      assert Content(d, ino)[o + k] == Byte(d, ino, o + k);
    }
  }

  /** Reading returns the slice of the content, allocates nothing and logs nothing. */
  method Readi(fs: FileSys, i: nat, off: nat, n: nat) returns (r: seq<bv8>)
    requires fs.Valid() && i < fs.inodes.Length && off < WORD && n < WORD
    modifies fs`own, fs`logged, fs.disk, fs.inodes
    ensures fs.Valid() && fs.disk[..] == old(fs.disk[..]) && fs.inodes[..] == old(fs.inodes[..])
    ensures fs.own == old(fs.own) && fs.logged == old(fs.logged)
    ensures var size := fs.inodes[i].size;
            size <= MAXBYTES
            && r == if off > size || off + n >= WORD then []
                    else Content(fs.disk[..], fs.inodes[i])[off..if off + n > size then size else off + n]
  {
    hide Owned, Slot, Byte, NoHoles;
    ghost var d, ins, own := fs.disk[..], fs.inodes[..], fs.own;
    var size := fs.inodes[i].size;
    SizeFits(d, ins[i]);
    if off > size || (off + n) % WORD < off { return []; }
    var len: nat := if off + n > size then size - off else n;
    r := [];
    var tot: nat := 0;
    var o := off;
    while tot < len
      invariant tot <= len && o == off + tot && r == Content(d, ins[i])[off..o]
      invariant fs.disk[..] == d && fs.inodes[..] == ins && fs.own == own && fs.logged == old(fs.logged)
      decreases len - tot
    {
      InBlock(d, ins[i], o);
      var addr := fs.Bmap(i, o / BSIZE);
      if addr == 0 { break; }
      var m: nat := if len - tot < BSIZE - o % BSIZE then len - tot else BSIZE - o % BSIZE;
      BitmapInMaps(fs.g, d, ins, own, i, o / BSIZE);
      OwnedSized(fs.g, d, ins, own);
      BlockSlice(d, ins[i], o, m);
      assert Content(d, ins[i])[off..o] + Content(d, ins[i])[o..o + m] == Content(d, ins[i])[off..o + m];
      r := r + fs.disk[addr][o % BSIZE..o % BSIZE + m];
      tot := tot + m;
      o := o + m;
    }
  }

  lemma SizeFits(d: seq<Block>, ino: Inode)
    requires NoHoles(d, ino, ino.size)
    ensures ino.size <= MAXBYTES
  {
  }

  // ---- filewrite --------------------------------------------------------------------------------

  /** struct file, for an inode. */
  class OpenFile {
    var off: nat
    const ip: nat
    const writable: bool
  }

  lemma {:induction false} FewDataBlocks(d: seq<Block>, ino: Inode, from: nat, to: nat)
    requires from <= to <= MAXFILE
    ensures |DataBlocks(d, ino, from, to)| <= to - from
  {
    if from < to {
      FewDataBlocks(d, ino, from, to - 1);
      assert DataBlocks(d, ino, from, to) <= DataBlocks(d, ino, from, to - 1) + {Slot(d, ino, to - 1)};
      SubsetSize(DataBlocks(d, ino, from, to), DataBlocks(d, ino, from, to - 1) + {Slot(d, ino, to - 1)});
    } else {
      assert DataBlocks(d, ino, from, to) == {};
    }
  }

  lemma OneMap(g: Geo)
    requires GeoOk(g) && g.size <= BPB
    ensures |Maps(g)| <= 1
  {
    forall b: nat | b < g.size ensures BitmapBlock(g, b) == g.bmapstart {}
    SubsetSize(Maps(g), {g.bmapstart});
  }

  /** Each transaction of the list logs at most seven blocks. */
  ghost predicate SmallOps(ops: seq<set<nat>>) {
    forall op <- ops :: |op| <= 7
  }

  lemma SmallOpsMore(ops: seq<set<nat>>, op: set<nat>)
    requires SmallOps([op])
    ensures SmallOps(ops) ==> SmallOps(ops + [op])
  {
    assert op in [op];
  }

  lemma NoOps()
    ensures SmallOps([]) && SmallOps([{}])
  {
  }

  /** The transaction of one chunk logs at most seven blocks, if one bitmap block is enough: four
      data blocks, the bitmap, the indirect block, the inode. */
  lemma ChunkLogsSeven(g: Geo, d: seq<Block>, ino: Inode, off: nat, end: nat, inodeBlock: nat, logged: set<nat>)
    requires GeoOk(g) && g.size <= BPB && off <= end <= off + MAXCHUNK && end <= MAXBYTES
    requires logged <= {inodeBlock} + Maps(g) + BmapLogs(g, 0, ino.addrs[NDIRECT]) + DataBlocks(d, ino, off / BSIZE, BlockAfter(end))
    ensures SmallOps([logged])
  {
    hide Slot;
    OneMap(g);
    LogsStart(d, ino, off);
    var from, to := off / BSIZE, BlockAfter(end);
    assert to <= from + 4;
    var data := if from <= to then DataBlocks(d, ino, from, to) else {};
    assert data == DataBlocks(d, ino, from, to);
    if from <= to { FewDataBlocks(d, ino, from, to); }
    var at := if ino.addrs[NDIRECT] == 0 then {} else {ino.addrs[NDIRECT]};
    SubsetSize(logged, {inodeBlock} + Maps(g) + at + data);
  }

  /** What has happened to file i since d, ins. */
  lemma WrittenThen(d: seq<Block>, x: seq<Inode>, e: seq<Block>, y: seq<Inode>, f: seq<Block>, z: seq<Inode>, i: nat,
                    off: nat, s: seq<bv8>, t: seq<bv8>)
    requires i < |x| == |y| && x[i].size <= MAXBYTES && y[i].size <= MAXBYTES
    requires Written(d, x, e, y, i, off, s) && Written(e, y, f, z, i, off + |s|, t)
    ensures Written(d, x, f, z, i, off, s + t)
  {
    hide Byte, Slot, Content;
    OthersThen(d, x, e, y, f, z, i);
    ReplacedTwice(Content(d, x[i]), off, s, t);
    forall l: nat | l <= MAXFILE && Slot(d, x[i], l) != 0 ensures Slot(f, z[i], l) == Slot(d, x[i], l) {
      assert Slot(e, y[i], l) == Slot(d, x[i], l);
    }
  }

  lemma WrittenNothing(d: seq<Block>, x: seq<Inode>, i: nat, off: nat)
    requires i < |x| && off <= x[i].size <= MAXBYTES
    ensures Written(d, x, d, x, i, off, [])
  {
    assert Replaced(Content(d, x[i]), off, []) == Content(d, x[i]);
  }

  lemma ValidSizes(fs: FileSys, i: nat)
    requires fs.Valid() && i < fs.inodes.Length
    ensures GeoOk(fs.g) && fs.disk.Length == fs.g.size && fs.inodes[i].size <= MAXBYTES
  {
    assert NoHoles(fs.disk[..], fs.inodes[i], fs.inodes[i].size);
  }

  /** After some transactions of a filewrite at off, with s written. */
  ghost predicate Progress(d: seq<Block>, x: seq<Inode>, e: seq<Block>, y: seq<Inode>, i: nat, off: nat, s: seq<bv8>) {
    && i < |x| == |y| && x[i].size <= MAXBYTES && y[i].size <= MAXBYTES
    && (off <= x[i].size ==> Written(d, x, e, y, i, off, s) && off + |s| <= y[i].size)
  }

  lemma ProgressOn(d0: seq<Block>, x0: seq<Inode>, d: seq<Block>, x: seq<Inode>, e: seq<Block>, y: seq<Inode>, i: nat,
                   off: nat, src: seq<bv8>, n: nat, n1: nat, r: nat)
    requires r <= n1 && n + n1 <= |src| && i < |y| && Progress(d0, x0, d, x, i, off, src[..n])
    requires Written(d, x, e, y, i, off + n, src[n..n + n1][..r])
    ensures Progress(d0, x0, e, y, i, off, src[..n + r])
  {
    hide Slot, Byte, Content, Written, Replaced;
    assert src[n..n + n1][..r] == src[n..n + r];
    assert src[..n] + src[n..n + r] == src[..n + r];
    WrittenReaches(d, x, e, y, i, off + n, src[n..n + r]);
    if off <= x0[i].size {
      WrittenThen(d0, x0, d, x, e, y, i, off, src[..n], src[n..n + r]);
    }
  }

  /** A filewrite that began in state d0, x0 with the offset at off has written n bytes of src. */
  ghost predicate Standing(fs: FileSys, f: OpenFile, d0: seq<Block>, x0: seq<Inode>, off: nat, src: seq<bv8>, n: nat)
    reads fs, f, fs.disk, fs.inodes, fs.dinodes
  {
    && fs.Valid() && n <= |src| && f.off == off + n < WORD
    && Progress(d0, x0, fs.disk[..], fs.inodes[..], f.ip, off, src[..n])
    && (off > x0[f.ip].size ==> n == 0 && fs.disk[..] == d0 && fs.inodes[..] == x0)
  }

  /** The file system between two transactions, and how much of the write was done by then. */
  datatype Snap = Snap(disk: seq<Block>, inodes: seq<Inode>, done: nat)

  /** The blocks a write to a file may log: the one of its inode, bitmap blocks and data blocks. */
  ghost predicate Loggable(g: Geo, inodeBlock: nat, op: set<nat>) {
    forall b :: b in op ==> b == inodeBlock || g.bmapstart <= b < g.size
  }

  lemma NothingLoggable(g: Geo, inodeBlock: nat)
    ensures Loggable(g, inodeBlock, {})
  {
  }

  lemma LogsLoggable(g: Geo, d: seq<Block>, ins: seq<Inode>, own: seq<Owner>, i: nat, from: nat, to: nat, inodeBlock: nat, op: set<nat>)
    requires Owned(g, d, ins, own) && i < |ins| && to <= MAXFILE
    requires op <= {inodeBlock} + Maps(g) + BmapLogs(g, 0, ins[i].addrs[NDIRECT]) + DataBlocks(d, ins[i], from, to)
    ensures Loggable(g, inodeBlock, op)
  {
    hide Slot, Bit;
    AddrSlot(d, ins[i], NDIRECT);
    forall k: nat | k <= MAXFILE && Slot(d, ins[i], k) != 0
      ensures g.bmapstart <= Slot(d, ins[i], k) < g.size
    {
      assert UpAt(d, ins[i], own, i, k);
      assert DownAt(g, d, ins, own, Slot(d, ins[i], k));
    }
    hide Owned;
    forall b: nat | b < g.size ensures g.bmapstart <= BitmapBlock(g, b) < g.size { BitmapRange(g, b); }
    forall b | b in op ensures b == inodeBlock || g.bmapstart <= b < g.size {
      if b in DataBlocks(d, ins[i], from, to) {
        var k: nat :| k < MAXFILE && Slot(d, ins[i], k) != 0 && Slot(d, ins[i], k) == b;
      }
    }
  }

  /** What the transaction from d, x to e, y changed on disk it passed to log_write. */
  ghost predicate Transacted(g: Geo, d: seq<Block>, x: seq<Inode>, e: seq<Block>, y: seq<Inode>, i: nat, inodeBlock: nat, op: set<nat>) {
    && Covered(d, {}, e, op) && Loggable(g, inodeBlock, op)
    && i < |x| && |y| == |x| && y == x[i := y[i]]
    && (y != x ==> inodeBlock in op)
  }

  lemma WrittenInode(d: seq<Block>, x: seq<Inode>, e: seq<Block>, y: seq<Inode>, i: nat, off: nat, s: seq<bv8>)
    requires i < |x| && x[i].size <= MAXBYTES && Written(d, x, e, y, i, off, s)
    ensures |y| == |x| && y == x[i := y[i]]
  {
    hide Byte, Slot, Content;
    assert forall j: nat :: j < |x| && j != i ==> y[j] == x[j];
  }

  /** Each block is free or has one owner, and no file has holes. */
  ghost predicate Sound(g: Geo, d: seq<Block>, x: seq<Inode>) {
    exists own {:trigger Settled(g, d, x, own)} :: Settled(g, d, x, own)
  }

  /** The transactions of a filewrite on inode i that began in d0, x0 with the offset at off. */
  ghost predicate Trail(g: Geo, trail: seq<Snap>, ops: seq<set<nat>>, d0: seq<Block>, x0: seq<Inode>, i: nat, inodeBlock: nat,
                        off: nat, src: seq<bv8>) {
    && |trail| == |ops| + 1 && trail[0] == Snap(d0, x0, 0)
    && (forall j: nat {:trigger ops[j]} :: j < |ops| ==> 
          Transacted(g, trail[j].disk, trail[j].inodes, trail[j + 1].disk, trail[j + 1].inodes, i, inodeBlock, ops[j]))
    && (forall j: nat {:trigger trail[j]} :: j < |trail| ==>
          && trail[j].done <= |src| && Progress(d0, x0, trail[j].disk, trail[j].inodes, i, off, src[..trail[j].done])
          && Sound(g, trail[j].disk, trail[j].inodes))
  }

  lemma TrailOn(g: Geo, trail: seq<Snap>, ops: seq<set<nat>>, d0: seq<Block>, x0: seq<Inode>, i: nat, inodeBlock: nat,
                off: nat, src: seq<bv8>, b: Snap, op: set<nat>)
    requires Trail(g, trail, ops, d0, x0, i, inodeBlock, off, src)
    requires Transacted(g, trail[|ops|].disk, trail[|ops|].inodes, b.disk, b.inodes, i, inodeBlock, op)
    requires b.done <= |src| && Progress(d0, x0, b.disk, b.inodes, i, off, src[..b.done]) && Sound(g, b.disk, b.inodes)
    ensures Trail(g, trail + [b], ops + [op], d0, x0, i, inodeBlock, off, src)
  {
    hide Progress, Transacted, Sound;
    var u := trail + [b];
    forall j: nat | j < |ops + [op]|
      ensures Transacted(g, u[j].disk, u[j].inodes, u[j + 1].disk, u[j + 1].inodes, i, inodeBlock, (ops + [op])[j])
    {
      if j < |ops| { assert ops[j] == (ops + [op])[j]; }
    }
    forall j: nat | j < |u|
      ensures u[j].done <= |src| && Progress(d0, x0, u[j].disk, u[j].inodes, i, off, src[..u[j].done])
      ensures Sound(g, u[j].disk, u[j].inodes)
    {
      if j < |trail| { assert trail[j] == u[j]; }
    }
  }

  /** writei between begin_op and end_op: op is what it logged. */
  method Chunk(fs: FileSys, i: nat, off: nat, s: seq<bv8>) returns (r: int, ghost op: set<nat>)
    requires fs.Valid() && i < fs.inodes.Length && off < WORD && |s| <= MAXCHUNK
    modifies fs`own, fs`logged, fs.disk, fs.inodes, fs.dinodes
    ensures fs.Valid()
    ensures old(fs.inodes[i]).size <= MAXBYTES
    ensures Refused(old(fs.inodes[i]).size, off, |s|) ==>
              r == -1 && fs.disk[..] == old(fs.disk[..]) && fs.inodes[..] == old(fs.inodes[..])
    ensures !Refused(old(fs.inodes[i]).size, off, |s|) ==>
              && 0 <= r <= |s| && (r < |s| ==> OutOfSpace(fs))
              && Written(old(fs.disk[..]), old(fs.inodes[..]), fs.disk[..], fs.inodes[..], i, off, s[..r])
    ensures fs.g.size <= BPB ==> SmallOps([op])
    ensures Transacted(fs.g, old(fs.disk[..]), old(fs.inodes[..]), fs.disk[..], fs.inodes[..], i, i / IPB + fs.inodestart, op)
  {
    hide Owned, Slot, Byte, Content, NoHoles, Written, Full, Replaced, SmallOps, Covered, Loggable;
    ghost var d, x, inodeBlock := fs.disk[..], fs.inodes[..], i / IPB + fs.inodestart;
    ValidSizes(fs, i);
    fs.logged := {};
    r := Writei(fs, i, off, s);
    op := fs.logged;
    NoOps();
    NothingLoggable(fs.g, inodeBlock);
    if !Refused(x[i].size, off, |s|) {
      if fs.g.size <= BPB {
        ChunkLogsSeven(fs.g, fs.disk[..], fs.inodes[i], off, off + r, inodeBlock, op);
      }
      LogsLoggable(fs.g, fs.disk[..], fs.inodes[..], fs.own, i, off / BSIZE, BlockAfter(off + r), inodeBlock, op);
      WrittenInode(d, x, fs.disk[..], fs.inodes[..], i, off, s[..r]);
    }
  }

  /** One transaction of filewrite: the next n1 bytes. */
  method Transaction(fs: FileSys, f: OpenFile, src: seq<bv8>, n: nat, n1: nat,
                     ghost d0: seq<Block>, ghost x0: seq<Inode>, ghost off: nat) returns (r: int, ghost op: set<nat>)
    requires Standing(fs, f, d0, x0, off, src, n) && 0 < n1 <= MAXCHUNK && n + n1 <= |src|
    modifies fs`own, fs`logged, fs.disk, fs.inodes, fs.dinodes, f`off
    ensures r <= n1 && Standing(fs, f, d0, x0, off, src, n + if r > 0 then r else 0)
    ensures r < n1 && off <= x0[f.ip].size && off + n + n1 <= MAXBYTES ==> OutOfSpace(fs)
    ensures fs.g.size <= BPB ==> SmallOps([op])
    ensures Transacted(fs.g, old(fs.disk[..]), old(fs.inodes[..]), fs.disk[..], fs.inodes[..], f.ip, f.ip / IPB + fs.inodestart, op)
  {
    hide Owned, Slot, Byte, Content, NoHoles, Written, Replaced, SmallOps, Transacted, OutOfSpace;
    ghost var d, x := fs.disk[..], fs.inodes[..];
    r, op := Chunk(fs, f.ip, f.off, src[n..n + n1]);
    if !Refused(x[f.ip].size, off + n, n1) {
      WrittenReaches(d, x, fs.disk[..], fs.inodes[..], f.ip, off + n, src[n..n + n1][..r]);
      ProgressOn(d0, x0, d, x, fs.disk[..], fs.inodes[..], f.ip, off, src, n, n1, r);
    }
    if r > 0 { f.off := f.off + r; }
  }

  ghost predicate OutOfSpace(fs: FileSys)
    reads fs, fs.disk
  {
    GeoOk(fs.g) && fs.disk.Length == fs.g.size && Full(fs.g, fs.disk[..])
  }

  /** filewrite on an inode. done counts the bytes written; ops lists the blocks that each of the
      transactions logged, trail the states between them. Only a full disk or the size limit stops
      it early. */
  method Filewrite(fs: FileSys, f: OpenFile, src: seq<bv8>, n: int)
    returns (ret: int, ghost done: nat, ghost ops: seq<set<nat>>, ghost trail: seq<Snap>)
    requires fs.Valid() && f.ip < fs.inodes.Length && f.off < WORD && n <= |src| < WORD
    modifies fs`own, fs`logged, fs.disk, fs.inodes, fs.dinodes, f`off
    ensures Standing(fs, f, old(fs.disk[..]), old(fs.inodes[..]), old(f.off), src, done)
    ensures ret == if f.writable && done == n then n else -1
    ensures !f.writable || n <= 0 ==> done == 0 && fs.disk[..] == old(fs.disk[..]) && fs.inodes[..] == old(fs.inodes[..])
    ensures f.writable && done < n && old(f.off) <= old(fs.inodes[f.ip]).size && old(f.off) + n <= MAXBYTES ==> OutOfSpace(fs)
    ensures fs.g.size <= BPB ==> SmallOps(ops)
    ensures Trail(fs.g, trail, ops, old(fs.disk[..]), old(fs.inodes[..]), f.ip, f.ip / IPB + fs.inodestart, old(f.off), src)
    ensures trail[|ops|] == Snap(fs.disk[..], fs.inodes[..], done)
  {
    hide FileSys.Valid, FileSys.Good, Progress, SmallOps, Sound;
    ghost var d0, x0, off := fs.disk[..], fs.inodes[..], f.off;
    NoOps();
    StartProgress(fs, f.ip, off);
    ValidSound(fs);
    assert src[..0] == [];
    done, ops, trail := 0, [], [Snap(d0, x0, 0)];
    ghost var inodeBlock := f.ip / IPB + fs.inodestart;
    assert Trail(fs.g, trail, ops, d0, x0, f.ip, inodeBlock, off, src);
    hide Standing, OutOfSpace, Trail, Transacted;
    if !f.writable { return -1, done, ops, trail; }
    var i := 0;
    while i < n
      invariant (i == 0 || i <= n) && done == i && Standing(fs, f, d0, x0, off, src, i)
      invariant i == 0 ==> fs.disk[..] == d0 && fs.inodes[..] == x0
      invariant fs.g.size <= BPB ==> SmallOps(ops)
      invariant |trail| == |ops| + 1 && trail[|ops|] == Snap(fs.disk[..], fs.inodes[..], i)
      invariant Trail(fs.g, trail, ops, d0, x0, f.ip, inodeBlock, off, src)
    {
      var n1 := if n - i > MAXCHUNK then MAXCHUNK else n - i;
      ghost var op;
      var r;
      r, op := Transaction(fs, f, src, i, n1, d0, x0, off);
      if fs.g.size <= BPB { SmallOpsMore(ops, op); }
      if r > 0 { done := done + r; }
      ghost var b := Snap(fs.disk[..], fs.inodes[..], done);
      StandsAt(fs, f, d0, x0, off, src, done);
      TrailOn(fs.g, trail, ops, d0, x0, f.ip, inodeBlock, off, src, b, op);
      ops, trail := ops + [op], trail + [b];
      if r != n1 { break; }
      i := i + r;
    }
    ret := if i == n then n else -1;
  }

  lemma StandsAt(fs: FileSys, f: OpenFile, d0: seq<Block>, x0: seq<Inode>, off: nat, src: seq<bv8>, n: nat)
    requires Standing(fs, f, d0, x0, off, src, n)
    ensures n <= |src| && Progress(d0, x0, fs.disk[..], fs.inodes[..], f.ip, off, src[..n])
    ensures Sound(fs.g, fs.disk[..], fs.inodes[..])
  {
    ValidSound(fs);
  }

  lemma ValidSound(fs: FileSys)
    requires fs.Valid()
    ensures Sound(fs.g, fs.disk[..], fs.inodes[..])
  {
    hide Settled;
    assert Settled(fs.g, fs.disk[..], fs.inodes[..], fs.own);
  }

  lemma StartProgress(fs: FileSys, i: nat, off: nat)
    requires fs.Valid() && i < fs.inodes.Length
    ensures GeoOk(fs.g) && fs.disk.Length == fs.g.size
    ensures Progress(fs.disk[..], fs.inodes[..], fs.disk[..], fs.inodes[..], i, off, [])
  {
    ValidSizes(fs, i);
    if off <= fs.inodes[i].size {
      WrittenNothing(fs.disk[..], fs.inodes[..], i, off);
    }
  }

  lemma WrittenReaches(d: seq<Block>, x: seq<Inode>, e: seq<Block>, y: seq<Inode>, i: nat, off: nat, s: seq<bv8>)
    requires i < |x| && x[i].size <= MAXBYTES && Written(d, x, e, y, i, off, s)
    ensures |y| == |x| && off + |s| <= y[i].size <= MAXBYTES
  {
  }
}
