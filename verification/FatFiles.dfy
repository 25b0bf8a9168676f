/**
 The file operations of fat_file.c on the memory-mapped table and the data clusters.
 */
module FatFiles {
  import opened FatChains
  import opened FatVolume
  import opened Basics

  const SIZES: nat := 0x1_0000_0000   // file_size has 32 bits

  function Stored(size: nat): (r: nat)
    ensures r < SIZES && r <= size && (r == size <==> size < SIZES)
  {
    size % SIZES
  }

  class File {
    const id: nat          // names the file in ghost state only
    var start: nat         // start_cluster
    var size: nat          // dentry->file_size

    constructor (id: nat, start: nat)
      ensures this.id == id && this.start == start && this.size == 0
    {
      this.id, this.start, this.size := id, start, 0;
    }
  }

  class Fatfs {
    const fatMap: array<nat>           // the two reserved entries and one for each data cluster
    const data: array<seq<bv8>>
    const bpc: nat                  // bytes per cluster
    ghost var chains: map<nat, seq<nat>>
    ghost var own: seq<Spot>

    ghost predicate Sized()
      reads this, data
    {
      2 <= fatMap.Length == data.Length < EOC && bpc > 0 && forall c :: 0 <= c < data.Length ==> |data[c]| == bpc
    }

    ghost function Table(): Fat
      reads fatMap
      requires 2 <= fatMap.Length < EOC
    {
      fatMap[..]
    }

    ghost predicate Valid()
      reads this, fatMap, data
    {
      Sized() && Volume(Table(), chains, own)
    }

    /** A volume of free clusters. */
    constructor (clusters: nat, bytes: nat)
      requires clusters + 2 < EOC && bytes > 0
      ensures Valid() && chains == map[] && bpc == bytes && fatMap.Length == clusters + 2
      ensures forall c :: 2 <= c < fatMap.Length ==> fatMap[c] == FREE
      ensures fresh(fatMap) && fresh(data)
    {
      fatMap := new nat[clusters + 2](c => if c == 0 then EOC else if c == 1 then EOC2 else FREE);
      data := new seq<bv8>[clusters + 2](_ => seq(bytes, _ => 0));
      bpc, chains, own := bytes, map[], seq(clusters + 2, _ => Unowned);
      new;
      forall c: nat | ValidCluster(Table(), c) ensures OwnAt(Table(), chains, own, c) {
        assert Table()[c] == fatMap[c];
      }
    }

    /** A volume found on the disk, with these chains. */
    constructor Mount(table: Fat, contents: seq<seq<bv8>>, bytes: nat, ghost files: map<nat, seq<nat>>, ghost spots: seq<Spot>)
      requires |contents| == |table| && bytes > 0 && (forall c :: 0 <= c < |contents| ==> |contents[c]| == bytes)
      requires Volume(table, files, spots)
      ensures Valid() && Table() == table && data[..] == contents && bpc == bytes && chains == files && own == spots
      ensures fresh(fatMap) && fresh(data)
    {
      fatMap := new nat[|table|](c requires 0 <= c < |table| => table[c]);
      data := new seq<bv8>[|contents|](c requires 0 <= c < |contents| => contents[c]);
      bpc, chains, own := bytes, files, spots;
      new;
      assert fatMap[..] == table && data[..] == contents;
    }

    /** f is a file of the volume, and its size fits its clusters. */
    ghost predicate Opened(f: File)
      reads this, f
    {
      f.id in chains && chains[f.id] != [] && f.start == chains[f.id][0] && f.size <= Capacity(|chains[f.id]|, bpc)
      && f.size < SIZES
    }

    ghost function Bytes(f: File): (s: seq<bv8>)
      reads this, fatMap, data, f
      requires Valid() && Opened(f)
      ensures |s| == f.size
    {
      ChainFits(f.id);
      Content(data[..], chains[f.id], bpc, f.size)
    }

    lemma ChainFits(id: nat)
      requires Valid() && id in chains
      ensures Fits(data[..], chains[id], bpc)
      ensures Distinct(chains[id])
    {
      var t, q := Table(), chains[id];
      assert ChainAt(t, q, own, id);
      forall i | 0 <= i < |q| ensures q[i] < data.Length && |data[q[i]]| == bpc {
        assert SpotAt(t, q, own, id, i);
      }
      forall i, j | 0 <= i < j < |q| ensures q[i] != q[j] {
        assert SpotAt(t, q, own, id, i) && SpotAt(t, q, own, id, j);
      }
    }

    method GetNext(c: nat) returns (n: nat)
      requires 2 <= fatMap.Length < EOC && c < fatMap.Length
      ensures n == Next(Table(), c)
      ensures n == if 2 <= fatMap[c] < fatMap.Length then fatMap[c] else 0x0FFF_FFF8
    {
      n := fatMap[c];
      if !(2 <= n < fatMap.Length) { n := EOC; }
    }

    method SetNext(c: nat, n: nat)
      requires c < fatMap.Length
      modifies fatMap
      ensures fatMap[..] == old(fatMap[..])[c := n]
    {
      fatMap[c] := n;
    }

    /** The freeing loop of fat_file_unlink and fat_file_truncate. It ends on every table, and
        frees what is reachable. */
    method FreeFrom(c: nat)
      requires 2 <= fatMap.Length < EOC && (c < fatMap.Length || IsEOC(c))
      modifies fatMap
      ensures Table() == Cleared(old(Table()), if IsEOC(c) then {} else Elements(Trail(old(Table()), c)))
    {
      var last: nat := c;
      ghost var t := Table();
      ghost var all := if IsEOC(c) then {} else Elements(Trail(t, c));
      if IsEOC(c) { assert Cleared(t, {}) == t; }
      while !IsEOC(last)
        invariant last < fatMap.Length || IsEOC(last)
        invariant Cleared(Table(), if IsEOC(last) then {} else Elements(Trail(Table(), last))) == Cleared(t, all)
        decreases if IsEOC(last) then 0 else 1 + |Used(Table())|
      {
        ghost var u := Table();
        var next := GetNext(last);
        SetNext(last, FREE);
        FreeOne(u, last);
        last := next;
      }
      assert Cleared(Table(), {}) == Table();
    }

    /** fat_table_get_next_free_cluster. On a full volume, None: the loop reads on behind the table,
        and the test for a valid cluster comes after it. */
    method NextFree() returns (r: Option<nat>)
      requires 2 <= fatMap.Length
      ensures r.None? ==> forall d :: 2 <= d < fatMap.Length ==> fatMap[d] != FREE
      ensures r.Some? ==> 2 <= r.value < fatMap.Length && fatMap[r.value] == FREE && forall d :: 2 <= d < r.value ==> fatMap[d] != FREE
    {
      var c := 2;
      while c == fatMap.Length || fatMap[c] != FREE
        invariant 2 <= c <= fatMap.Length && forall d :: 2 <= d < c ==> fatMap[d] != FREE
        decreases fatMap.Length - c
      {
        if c == fatMap.Length { return None; }
        c := c + 1;
      }
      return Some(c);
    }

    /** fat_table_seek_cluster; ok is false where it sets EOVERFLOW. */
    method Seek(start: nat, offset: nat) returns (ok: bool, c: nat)
      requires 2 <= fatMap.Length < EOC && start < fatMap.Length && bpc > 0
      ensures var n := Place(offset, bpc);
              ok == (n == 0 || After(Table(), start, n - 1) != EOC)
              && c == if ok then After(Table(), start, n) else 0
    {
      hide Capacity, Place, Inside;
      var n := Place(offset, bpc);
      c := start;
      var i := 0;
      while i < n
        invariant i <= n && c == After(Table(), start, i)
        invariant i > 0 ==> After(Table(), start, i - 1) != EOC
      {
        if c == EOC {
          EndStays(Table(), start, i, n - 1);
          return false, 0;
        }
        AfterAfter(Table(), start, i);
        c := GetNext(c);
        i := i + 1;
      }
      ok := true;
    }

    /** fat_file_unlink: exactly the file's clusters become free. */
    method Unlink(f: File)
      requires Valid() && Opened(f)
      modifies fatMap, this`chains, this`own
      ensures Valid() && chains == old(chains) - {f.id}
      ensures Table() == Cleared(old(Table()), Elements(old(chains)[f.id]))
      ensures forall c :: 0 <= c < fatMap.Length ==> fatMap[c] == if c in old(chains)[f.id] then 0 else old(fatMap[c])
    {
      TrailOfFile(Table(), chains, own, f.id, 0);
      UnlinkKeeps(Table(), chains, own, f.id);
      assert chains[f.id][0..] == chains[f.id];
      FreeFrom(f.start);
      own := Shorten(own, f.id, 0);
      chains := chains - {f.id};
    }

    /** fat_file_init: the least free cluster becomes a new chain; null exactly on a full volume. */
    method Init(id: nat) returns (f: File?)
      requires Valid() && id !in chains
      modifies fatMap, this`chains, this`own
      ensures Valid()
      ensures f == null ==> Table() == old(Table()) && chains == old(chains) && forall d :: 2 <= d < fatMap.Length ==> fatMap[d] != FREE
      ensures f != null ==> fresh(f) && f.id == id && Opened(f) && f.size == 0
      ensures f != null ==> 2 <= f.start < fatMap.Length && old(fatMap[..])[f.start] == FREE
      ensures f != null ==> forall d :: 2 <= d < f.start ==> old(fatMap[..])[d] != FREE
      ensures f != null ==> Table() == old(Table())[f.start := EOC] && chains == old(chains)[id := [f.start]]
    {
      var free := NextFree();
      if free.None? { return null; }
      var c := free.value;
      f := new File(id, c);
      TakeKeeps(Table(), chains, own, id, c);
      SetNext(c, EOC);
      own := own[c := In(id, 0)];
      chains := chains[id := [c]];
    }

    /** The end of fat_file_truncate: cluster last, at position k of the chain, becomes its end. */
    method CutAfter(f: File, ghost k: nat, last: nat)
      requires Valid() && f.id in chains && k < |chains[f.id]| && last == chains[f.id][k]
      modifies fatMap, this`chains, this`own
      ensures Valid() && last < fatMap.Length && chains == old(chains)[f.id := old(chains)[f.id][..k + 1]]
      ensures Table() == Cleared(old(Table())[last := EOC], Elements(old(chains)[f.id][k + 1..]))
    {
      ghost var t, q := Table(), chains[f.id];
      CutKeeps(t, chains, own, f.id, k + 1);
      CutTrail(t, chains, own, f.id, k);
      hide Volume;
      var next := GetNext(last);
      SetNext(last, EOC);
      FreeFrom(next);
      own := Shorten(own, f.id, k + 1);
      chains := chains[f.id := q[..k + 1]];
    }

    /** fat_file_truncate. It does nothing unless the number of clusters shrinks; then it keeps
        Place(offset, bpc) + 1 of them. */
    method Truncate(f: File, offset: nat)
      requires Valid() && Opened(f)
      modifies fatMap, this`chains, this`own, f`size
      ensures Valid() && Opened(f) && f.size <= old(f.size) && Bytes(f) == old(Bytes(f))[..f.size]
      ensures var q, kept := old(chains)[f.id], Place(offset, bpc) + 1;
              if Shrinks(old(f.size), offset, bpc) then
                && f.size == offset && kept <= |q| && chains == old(chains)[f.id := q[..kept]]
                && q[kept - 1] < fatMap.Length
                && Table() == Cleared(old(Table())[q[kept - 1] := EOC], Elements(q[kept..]))
              else f.size == old(f.size) && Table() == old(Table()) && chains == old(chains)
      ensures f.size == old(f.size) && fatMap[..] == old(fatMap[..]) <==>
              offset > old(f.size) || ClustersFor(old(f.size), bpc) <= 1 || ClustersFor(old(f.size), bpc) <= ClustersFor(offset, bpc)
    {
      hide Capacity, Place, Inside;
      hide Volume;
      var current := if ClustersFor(f.size, bpc) > 1 then ClustersFor(f.size, bpc) else 1;
      var wanted := if ClustersFor(offset, bpc) > 1 then ClustersFor(offset, bpc) else 1;
      assert Bytes(f) == Bytes(f)[..f.size];
      if offset > f.size || wanted >= current { return; }
      Shrink(f, offset);
    }

    /** fat_file_truncate after its tests. */
    method Shrink(f: File, offset: nat)
      requires Valid() && Opened(f) && Shrinks(f.size, offset, bpc)
      modifies fatMap, this`chains, this`own, f`size
      ensures Valid() && Opened(f) && f.size == offset <= old(f.size) && Bytes(f) == old(Bytes(f))[..offset]
      ensures var q, kept := old(chains)[f.id], Place(offset, bpc) + 1;
              && kept <= |q| && chains == old(chains)[f.id := q[..kept]]
              && q[kept - 1] < fatMap.Length
              && Table() == Cleared(old(Table())[q[kept - 1] := EOC], Elements(q[kept..]))
    {
      hide Capacity, Place, Inside;
      hide Volume, Content;
      ghost var k: nat, q := Place(offset, bpc), chains[f.id];
      ghost var size := f.size;
      ShrinkRoom(f.size, offset, |q|, bpc);
      SeekInChain(Table(), chains, own, f.id, k);
      ChainFits(f.id);
      ContentPrefix(data[..], q, bpc, k + 1, f.size, offset);
      var ok, last := Seek(f.start, offset);
      CutAfter(f, k, last);
      f.size := offset;
      assert chains[f.id] == q[..k + 1];
    }

    /** fat_file_pread: what there is of the n bytes from offset on. */
    method Pread(f: File, n: nat, offset: nat) returns (r: seq<bv8>)
      requires Valid() && Opened(f)
      ensures r == if offset > f.size then [] else Bytes(f)[offset..if offset + n > f.size then f.size else offset + n]
    {
      hide Capacity, Place, Inside;
      if offset > f.size { return []; }
      var size := if n < f.size - offset then n else f.size - offset;
      if size == 0 { return []; }
      ghost var q := chains[f.id];
      ChainFits(f.id);
      PlaceBelow(offset, |q|, bpc);
      SeekInChain(Table(), chains, own, f.id, Place(offset, bpc));
      var ok, cluster := Seek(f.start, offset);
      r := [];
      if !ok { return; }
      var left, off := size, offset;
      ghost var all := Bytes(f);
      assert r == all[offset..off];
      hide Volume, Content;
      while left > 0
        invariant 0 <= left <= size && off == offset + (size - left) && r == all[offset..off]
        invariant left > 0 ==> Place(off, bpc) < |q| && cluster == q[Place(off, bpc)]
      {
        if cluster == EOC { break; }
        var piece;
        piece, cluster := ReadCluster(f, left, off, cluster);
        SlicesJoin(all, offset, off, off + |piece|);
        r := r + piece;
        off := off + |piece|;
        left := left - |piece|;
      }
    }

    /** One turn of the loop of fat_file_pread. */
    method ReadCluster(f: File, left: nat, off: nat, cluster: nat) returns (piece: seq<bv8>, next: nat)
      requires Valid() && Opened(f) && 0 < left && off + left <= f.size
      requires Place(off, bpc) < |chains[f.id]| && cluster == chains[f.id][Place(off, bpc)]
      ensures 0 < |piece| <= left && piece == Bytes(f)[off..off + |piece|]
      ensures |piece| < left ==> Place(off + |piece|, bpc) < |chains[f.id]| && next == chains[f.id][Place(off + |piece|, bpc)]
    {
      hide Capacity, Place, Inside;
      ghost var q := chains[f.id];
      ChainFits(f.id);
      SpotInRange(Table(), chains, own, f.id, Place(off, bpc));
      var o := Inside(off, bpc);
      var m := if bpc - o < left then bpc - o else left;
      SliceInCluster(data[..], q, bpc, f.size, off, m);
      piece := data[cluster][o..o + m];
      if m < left { NextInChain(Table(), chains, own, f.id, off, m, bpc, f.size); }
      next := GetNext(cluster);
    }

    /** How many of n bytes a write at offset can place in the clusters of f. */
    ghost function Room(f: File, offset: nat, n: nat): nat
      reads this, f
      requires Opened(f)
    {
      var end := Capacity(|chains[f.id]|, bpc);
      if offset > f.size then 0 else if offset + n > end then end - offset else n
    }

    /** fat_file_pwrite: it fills the clusters that the file has, and never adds one. Everything is
        written exactly when it fits there. The new size is stored in 32 bits: the file is the old
        one overwritten if and only if the write ends below 2^32, else what the wrapped size leaves
        of that. */
    method Pwrite(f: File, buf: seq<bv8>, offset: nat) returns (written: nat)
      requires Valid() && Opened(f)
      modifies data, f`size
      ensures Valid() && Opened(f) && written == old(Room(f, offset, |buf|)) <= |buf|
      ensures var end := Capacity(|chains[f.id]|, bpc);
              written == if offset > old(f.size) then 0 else if offset + |buf| > end then end - offset else |buf|
      ensures written == |buf| <==>
              |buf| == 0 || (offset <= old(f.size) && offset + |buf| <= Capacity(|chains[f.id]|, bpc))
      ensures offset <= old(f.size) ==>
                var all := Replaced(old(Bytes(f)), offset, buf[..written]);
                && f.size == Stored(|all|) == |all| % 0x1_0000_0000 && Bytes(f) == all[..f.size]
                && (Bytes(f) == all <==> offset + written < SIZES)
      ensures offset > old(f.size) ==> f.size == old(f.size) && data[..] == old(data[..])
      ensures forall c :: 0 <= c < data.Length && c !in chains[f.id] ==> data[c] == old(data[c])
    {
      hide Capacity, Place, Inside, Content;
      if offset > f.size { return 0; }
      ghost var q, d := chains[f.id], data[..];
      ChainFits(f.id);
      written := WriteClusters(f, buf, offset);
      ContentWrote(d, data[..], q, bpc, offset, buf[..written], f.size);
      ghost var end := if offset + written > f.size then offset + written else f.size;
      ContentPrefix(data[..], q, bpc, |q|, end, Stored(end));
      assert q[..|q|] == q;
      if offset + written > f.size { f.size := Stored(offset + written); }
      ChainFits(f.id);
    }

    /** In the loop of fat_file_pwrite: done of buf is written, and cluster holds the next position. */
    ghost predicate Writing(f: File, d: seq<seq<bv8>>, buf: seq<bv8>, offset: nat, done: nat, cluster: nat)
      reads this, fatMap, data, f
    {
      && Valid() && f.id in chains && done <= |buf| && |d| == data.Length
      && var q := chains[f.id];
         && Fits(d, q, bpc) && Fits(data[..], q, bpc) && Wrote(d, data[..], q, bpc, offset, buf[..done])
         && offset + done <= Capacity(|q|, bpc)
         && (done < |buf| ==> cluster == if Place(offset + done, bpc) < |q| then q[Place(offset + done, bpc)] else EOC)
    }

    /** One turn of the loop. */
    method WriteCluster(f: File, ghost d: seq<seq<bv8>>, buf: seq<bv8>, ghost offset: nat, done: nat, off: nat, cluster: nat)
      returns (m: nat, next: nat)
      requires Writing(f, d, buf, offset, done, cluster) && done < |buf| && !IsEOC(cluster) && off == offset + done
      modifies data
      ensures 0 < m <= |buf| - done && Writing(f, d, buf, offset, done + m, next)
    {
      hide Capacity, Place, Inside;
      ghost var q, e := chains[f.id], data[..];
      var left, o := |buf| - done, Inside(off, bpc);
      m := if bpc - o < left then bpc - o else left;
      SpotInRange(Table(), chains, own, f.id, Place(off, bpc));
      ChainFits(f.id);
      OverlayWrites(e, q, bpc, off, buf[done..done + m]);
      StaysInside(off, m, |q|, bpc);
      StepInChain(Table(), chains, own, f.id, Place(off, bpc));
      hide Volume;
      next := cluster;
      if m < left {
        PlaceNext(off, m, bpc);
        next := GetNext(cluster);
      }
      data[cluster] := Overlay(data[cluster], o, buf[done..done + m]);
      assert data[..] == e[cluster := Overlay(e[cluster], o, buf[done..done + m])];
      WroteThen(d, e, data[..], q, bpc, offset, buf[..done], buf[done..done + m]);
      assert buf[..done] + buf[done..done + m] == buf[..done + m];
    }

    /** The loop of fat_file_pwrite. */
    method WriteClusters(f: File, buf: seq<bv8>, offset: nat) returns (done: nat)
      requires Valid() && Opened(f) && offset <= f.size && Fits(data[..], chains[f.id], bpc)
      modifies data
      ensures Valid() && Fits(data[..], chains[f.id], bpc) && done == Room(f, offset, |buf|) <= |buf|
      ensures Wrote(old(data[..]), data[..], chains[f.id], bpc, offset, buf[..done])
    {
      hide Capacity, Place, Inside;
      ghost var q, d := chains[f.id], data[..];
      SeekAnywhere(offset, |q|, bpc);
      SeekInChain(Table(), chains, own, f.id, Place(offset, bpc));
      var ok, cluster := Seek(f.start, offset);
      hide Volume;
      done := 0;
      var off := offset;
      assert buf[..0] == [];
      while done < |buf| && !IsEOC(cluster)
        invariant off == offset + done && Writing(f, d, buf, offset, done, cluster)
        decreases |buf| - done
      {
        var m;
        m, cluster := WriteCluster(f, d, buf, offset, done, off, cluster);
        off := off + m;
        done := done + m;
      }
      AllWritten(Table(), chains, own, f.id, off, bpc);
    }
  }

  /** Positions beyond the last cluster. */
  lemma AllWritten(t: Fat, chains: map<nat, seq<nat>>, own: seq<Spot>, id: nat, off: nat, b: nat)
    requires Volume(t, chains, own) && id in chains && b > 0 && off <= Capacity(|chains[id]|, b)
    ensures Place(off, b) < |chains[id]| ==> !IsEOC(chains[id][Place(off, b)])
    ensures Place(off, b) >= |chains[id]| ==> off == Capacity(|chains[id]|, b)
  {
    hide Capacity, Place, Inside;
    PlaceBelow(off, |chains[id]|, b);
    if Place(off, b) < |chains[id]| { SpotInRange(t, chains, own, id, Place(off, b)); }
  }

  /** A position inside the clusters, or at their end. */
  lemma SeekAnywhere(off: nat, n: nat, b: nat)
    requires b > 0 && off <= Capacity(n, b)
    ensures Place(off, b) <= n
  {
    hide Capacity, Place;
    PlaceBelow(off, n + 1, b);
    CapacityNext(n, b);
  }

  /** A piece of the cluster of position off does not reach beyond the chain. */
  lemma StaysInside(off: nat, m: nat, n: nat, b: nat)
    requires b > 0 && Place(off, b) < n && Inside(off, b) + m <= b
    ensures off + m <= Capacity(n, b)
  {
    hide Capacity, Place, Inside;
    Split(off, b);
    CapacityOrder(Place(off, b), n, b);
  }

  lemma SpotInRange(t: Fat, chains: map<nat, seq<nat>>, own: seq<Spot>, id: nat, k: nat)
    requires Volume(t, chains, own) && id in chains && k < |chains[id]|
    ensures 2 <= chains[id][k] < |t|
  {
    assert SpotAt(t, chains[id], own, id, k);
  }

  lemma StepInChain(t: Fat, chains: map<nat, seq<nat>>, own: seq<Spot>, id: nat, k: nat)
    requires Volume(t, chains, own) && id in chains && k < |chains[id]|
    ensures chains[id][k] < |t| && Next(t, chains[id][k]) == if k + 1 < |chains[id]| then chains[id][k + 1] else EOC
  {
    assert SpotAt(t, chains[id], own, id, k);
  }

  /** Reading on: the rest of the cluster read, the next one holds the next position. */
  lemma NextInChain(t: Fat, chains: map<nat, seq<nat>>, own: seq<Spot>, id: nat, off: nat, m: nat, b: nat, size: nat)
    requires Volume(t, chains, own) && id in chains && b > 0 && Inside(off, b) + m == b && off + m < size <= Capacity(|chains[id]|, b)
    requires Place(off, b) < |chains[id]|
    ensures Place(off + m, b) < |chains[id]| && chains[id][Place(off, b)] < |t|
    ensures Next(t, chains[id][Place(off, b)]) == chains[id][Place(off + m, b)]
  {
    hide Capacity, Place, Inside;
    PlaceNext(off, m, b);
    PlaceBelow(off + m, |chains[id]|, b);
    StepInChain(t, chains, own, id, Place(off, b));
  }

  lemma SliceInCluster(data: seq<seq<bv8>>, q: seq<nat>, b: nat, size: nat, off: nat, m: nat)
    requires Fits(data, q, b) && size <= Capacity(|q|, b) && off + m <= size && Inside(off, b) + m <= b && Place(off, b) < |q|
    ensures data[q[Place(off, b)]][Inside(off, b)..Inside(off, b) + m] == Content(data, q, b, size)[off..off + m]
  {
    hide Capacity, Place, Inside;
    var x, c := data[q[Place(off, b)]][Inside(off, b)..Inside(off, b) + m], Content(data, q, b, size)[off..off + m];
    forall k: nat | k < m ensures x[k] == c[k] {
      PlaceInside(off, k, b);
      assert Content(data, q, b, size)[off + k] == FileByte(data, q, b, off + k);
    }
  }

  /** A write to one file is invisible in the others. */
  lemma OthersUnchanged(t: Fat, chains: map<nat, seq<nat>>, own: seq<Spot>, d: seq<seq<bv8>>, e: seq<seq<bv8>>, b: nat,
                        id: nat, jd: nat, size: nat)
    requires Volume(t, chains, own) && id in chains && jd in chains && id != jd && |d| == |e|
    requires Fits(d, chains[jd], b) && Fits(e, chains[jd], b) && size <= Capacity(|chains[jd]|, b)
    requires forall c :: 0 <= c < |d| && c !in chains[id] ==> e[c] == d[c]
    ensures Content(e, chains[jd], b, size) == Content(d, chains[jd], b, size)
  {
    hide Capacity, Place, Inside;
    var q := chains[jd];
    forall p: nat | p < size ensures Content(e, q, b, size)[p] == Content(d, q, b, size)[p] {
      PlaceBelow(p, |q|, b);
      NotInOther(t, chains, own, id, jd, Place(p, b));
    }
  }

  /** The bytes that truncate keeps. */
  lemma ContentPrefix(data: seq<seq<bv8>>, q: seq<nat>, b: nat, n: nat, size: nat, to: nat)
    requires Fits(data, q, b) && n <= |q| && to <= size <= Capacity(|q|, b) && to <= Capacity(n, b)
    ensures Fits(data, q[..n], b) && Content(data, q[..n], b, to) == Content(data, q, b, size)[..to]
  {
    hide Capacity, Place, Inside;
    forall p: nat | p < to ensures Content(data, q[..n], b, to)[p] == Content(data, q, b, size)[p] {
      PlaceBelow(p, n, b);
      PlaceBelow(p, |q|, b);
    }
  }

  /** Seeking as far as position k of a chain gets there. */
  lemma SeekInChain(t: Fat, chains: map<nat, seq<nat>>, own: seq<Spot>, id: nat, k: nat)
    requires Volume(t, chains, own) && id in chains && k <= |chains[id]|
    ensures chains[id] != [] && chains[id][0] < |t|
    ensures After(t, chains[id][0], k) == if k < |chains[id]| then chains[id][k] else EOC
    ensures k > 0 ==> After(t, chains[id][0], k - 1) != EOC
  {
    var q := chains[id];
    assert ChainAt(t, q, own, id);
    AfterInChain(t, q, own, id, 0, k);
    if k > 0 {
      AfterInChain(t, q, own, id, 0, k - 1);
      assert SpotAt(t, q, own, id, k - 1);
    }
  }

  /** One turn of the freeing loop. */
  lemma FreeOne(t: Fat, c: nat)
    requires c < |t|
    ensures var u, n := t[c := FREE], Next(t, c);
            && Cleared(u, if IsEOC(n) then {} else Elements(Trail(u, n))) == Cleared(t, Elements(Trail(t, c)))
            && (!IsEOC(n) ==> |Used(u)| < |Used(t)|)
  {
    var u, n := t[c := FREE], Next(t, c);
    if !IsEOC(n) {
      assert c in Used(t) && Used(u) == Used(t) - {c};
      assert Trail(t, c) == [c] + Trail(u, n);
    }
  }

  /** After the end of the chain there is nothing. */
  lemma {:induction false} EndStays(t: Fat, c: nat, i: nat, n: nat)
    requires c < |t| && i <= n && After(t, c, i) == EOC
    ensures After(t, c, n) == EOC
  {
    SplitAfter(t, c, i, n - i);
  }

  /** The case in which truncate does something. */
  predicate Shrinks(size: nat, offset: nat, b: nat)
    requires b > 0
  {
    offset <= size && ClustersFor(size, b) > 1 && ClustersFor(offset, b) < ClustersFor(size, b)
  }

  lemma ShrinkRoom(size: nat, offset: nat, n: nat, b: nat)
    requires b > 0 && n > 0 && size <= Capacity(n, b) && Shrinks(size, offset, b)
    ensures Place(offset, b) < n && offset <= Capacity(Place(offset, b) + 1, b)
  {
    hide Capacity, Place, ClustersFor;
    ClustersForLeast(size, b, n);
    ClustersForLeast(offset, b, n - 1);
    PlaceBelow(offset, n, b);
    PlaceBelow(offset, Place(offset, b) + 1, b);
    CapacityNext(n - 1, b);
  }

  /** What is freed behind the new last cluster k of a file. */
  lemma CutTrail(t: Fat, chains: map<nat, seq<nat>>, own: seq<Spot>, id: nat, k: nat)
    requires Volume(t, chains, own) && id in chains && k < |chains[id]|
    ensures chains[id][k] < |t|
    ensures var q, n := chains[id], Next(t, chains[id][k]);
            (if IsEOC(n) then {} else Elements(Trail(t[q[k] := EOC], n))) == Elements(q[k + 1..])
  {
    var q := chains[id];
    assert SpotAt(t, q, own, id, k);
    if k + 1 < |q| {
      var u := t[q[k] := EOC];
      forall i: nat | k + 1 <= i < |q| ensures LinkAt(u, q, i) {
        assert SpotAt(t, q, own, id, i);
      }
      forall i: nat, j: nat | k + 1 <= i < j < |q| ensures q[i] != q[j] {
        assert SpotAt(t, q, own, id, i) && SpotAt(t, q, own, id, j);
      }
      TrailInChain(u, q, k + 1);
    }
  }

  /** truncate leaves as many clusters as the new size needs, at least one, exactly when the new
      size is 0 or not a multiple of the cluster size; otherwise one too many. */
  lemma TruncateKeepsNeededIff(offset: nat, b: nat)
    requires b > 0
    ensures Place(offset, b) + 1 == (if ClustersFor(offset, b) > 1 then ClustersFor(offset, b) else 1)
            <==> offset == 0 || Inside(offset, b) != 0
    ensures offset > 0 && Inside(offset, b) == 0 ==> Place(offset, b) + 1 == ClustersFor(offset, b) + 1
  {
    var k, r := Place(offset, b), Inside(offset, b);
    assert Capacity(0, b) == 0;
    CapacityNext(k, b);
    hide Capacity, Place, Inside;
    Split(offset, b);
    if r == 0 {
      PlaceIs(offset + (b - 1), k, b - 1, b);
      if k > 0 { CapacityOrder(0, k, b); }
    } else {
      PlaceIs(offset + (b - 1), k + 1, r - 1, b);
    }
  }

  // ---- files at which truncate and pwrite fall short ------------------------------------------------

  /** A volume all taken by one file, its clusters in order. */
  function RunTable(n: nat): Fat
    requires 0 < n < EOC - 2
  {
    seq(n + 2, c => if c == 0 || c == n + 1 then EOC else if c == 1 then EOC2 else c + 1)
  }

  function RunChain(n: nat): (q: seq<nat>)
    ensures |q| == n
  {
    seq(n, i => i + 2)
  }

  ghost function RunSpots(id: nat, n: nat): seq<Spot> {
    seq(n + 2, c => if c < 2 then Unowned else In(id, c - 2))
  }

  lemma RunVolume(id: nat, n: nat)
    requires 0 < n < EOC - 2
    ensures Volume(RunTable(n), map[id := RunChain(n)], RunSpots(id, n))
  {
    var t, q, own := RunTable(n), RunChain(n), RunSpots(id, n);
    forall k: nat | k < |q| ensures SpotAt(t, q, own, id, k) {
      assert q[k] == k + 2 && t[k + 2] == if k + 1 < n then k + 3 else EOC;
    }
    forall c: nat | ValidCluster(t, c) ensures OwnAt(t, map[id := q], own, c) {
      assert own[c] == In(id, c - 2) && q[c - 2] == c;
    }
  }

  ghost predicate OnlyFile(fs: Fatfs, f: File, n: nat)
    reads fs, fs.fatMap, fs.data, f
    requires 0 < n < EOC - 2
  {
    fs.Valid() && fs.Opened(f) && fs.chains == map[f.id := RunChain(n)] && fs.Table() == RunTable(n)
  }

  method OneFile(id: nat, n: nat, bytes: nat, size: nat) returns (fs: Fatfs, f: File)
    requires 0 < n < EOC - 2 && 0 < bytes && size < SIZES && size <= Capacity(n, bytes)
    ensures OnlyFile(fs, f, n) && fs.bpc == bytes && f.id == id && f.size == size
    ensures fresh(f) && fresh(fs.fatMap) && fresh(fs.data) && fresh(fs)
  {
    hide Volume, Capacity;
    RunVolume(id, n);
    fs := new Fatfs.Mount(RunTable(n), seq(n + 2, _ => seq(bytes, _ => 0)), bytes, map[id := RunChain(n)], RunSpots(id, n));
    f := new File(id, 2);
    f.size := size;
  }

  /** A chain of three clusters, cut to the size of one: two stay. */
  method ExtraClusterStays(fs: Fatfs, f: File)
    requires OnlyFile(fs, f, 3) && fs.bpc == 512 && f.size == 1536
    modifies fs.fatMap, fs`chains, fs`own, f`size
    ensures fs.Valid() && fs.Opened(f) && f.size == 512 && ClustersFor(512, 512) == 1
    ensures fs.chains == map[f.id := [2, 3]] && fs.Table() == [EOC, EOC2, 3, EOC, FREE]
  {
    ghost var q := RunChain(3);
    assert q[..2] == [2, 3] && q[2..] == [4];
    assert Elements([4]) == {4};
    assert Shrinks(1536, 512, 512);
    fs.Truncate(f, 512);
  }

  /** A file of 2^17 clusters with 2^15 bytes each, all but one of them used: after a write of the
      last byte it is empty. */
  method SizeWraps(fs: Fatfs, f: File, x: bv8) returns (written: nat)
    requires OnlyFile(fs, f, 0x2_0000) && fs.bpc == 0x8000 && f.size == 0xFFFF_FFFF
    modifies fs.data, f`size
    ensures fs.Valid() && fs.Opened(f) && written == 1 && f.size == 0
  {
    hide Volume, Replaced;
    written := fs.Pwrite(f, [x], 0xFFFF_FFFF);
  }

  /** A new file has one cluster, and a write of one byte more is cut. */
  method WriteIsCut() returns (fs: Fatfs, f: File, buf: seq<bv8>, written: nat)
    ensures fs.Valid() && fs.Opened(f) && fs.bpc == 512 && fs.chains == map[7 := [2]] && f.id == 7
    ensures |buf| == 513 && written == 512 && f.size == 512 && fs.Bytes(f) == buf[..512]
  {
    fs := new Fatfs(8, 512);
    ghost var was := fs.fatMap[..];
    assert was[2] == FREE;
    f := fs.Init(7);
    assert f.start == 2;
    buf := seq(513, _ => 1);
    written := fs.Pwrite(f, buf, 0);
  }
}
