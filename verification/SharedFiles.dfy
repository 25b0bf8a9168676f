/**
 Any number of writers on one file system at once. Their operations overlap in the log, and what
 they do to the file system interleaves block by block: claim a block in the bitmap, zero it, link
 it, write data, set a size, write the inode. Two operations never have the same inode, which
 ilock sees to; the rest is up to chance. A crash may come at any moment.
 */
module SharedFiles {
  import opened Basics
  import opened FsLayout
  import opened FsSteps
  import opened FileSystem
  import opened FilesOnLog
  import L = LogProtocol
  import T = LogTheorems

  /** The file system as its operations see it: cached blocks, inodes in memory and inodes as last
      written by iupdate. */
  datatype Fs = Fs(disk: seq<Block>, inodes: seq<Inode>, dinodes: seq<Inode>, own: seq<Owner>)

  /** A block on its way into slot k of a file. */
  datatype Pending = Pending(b: nat, k: nat, zeroed: bool)

  /** An operation between begin_op and end_op: the inode it has locked, the block it is adding. */
  datatype Work = Work(file: Option<nat>, pending: Option<Pending>)

  /** History, by operation: block bn of a file was given these contents, a file this size. */
  datatype Change = Data(op: nat, file: nat, bn: nat, data: Block) | Size(op: nat, file: nat, size: nat)

  datatype State = State(log: L.State, fs: Fs, work: seq<Work>, alive: bool, changes: seq<Change>,
                         saved: Fs, savedChanges: seq<Change>)

  // ---- what one operation does next ---------------------------------------------------------------

  /** What a step passes to log_write. */
  datatype Effect = Nothing | Put(b: nat, data: L.Block)

  /** balloc marks a free block in the bitmap, for an empty slot of the file. */
  ghost predicate Claims(g: Geo, fs: Fs, w: Work, fs': Fs, w': Work, e: Effect, b: nat, k: nat) {
    && GeoOk(g) && |fs.disk| == g.size == |fs.own| && b < g.size && !Bit(g, fs.disk, b)
    && w.file.Some? && w.file.value < |fs.inodes| && w.pending.None? && k <= MAXFILE
    && Slot(fs.disk, fs.inodes[w.file.value], k) == 0
    && fs' == fs.(disk := SetBit(g, fs.disk, b), own := fs.own[b := Held(k)])
    && w' == w.(pending := Some(Pending(b, k, false)))
    && BitmapBlock(g, b) < |fs'.disk| && e == Put(BitmapBlock(g, b), Words(fs'.disk[BitmapBlock(g, b)]))
  }

  /** ... and zeroes it. */
  ghost predicate Zeroes(fs: Fs, w: Work, fs': Fs, w': Work, e: Effect, zeros: Block) {
    && Zeroed(zeros) && w.pending.Some? && !w.pending.value.zeroed && w.pending.value.b < |fs.disk|
    && var p := w.pending.value;
       && fs' == fs.(disk := fs.disk[p.b := zeros]) && w' == w.(pending := Some(p.(zeroed := true)))
       && e == Put(p.b, Words(zeros))
  }

  /** addrs[a] = b, for a direct slot or the indirect block. */
  ghost predicate LinksAddr(fs: Fs, w: Work, fs': Fs, w': Work, e: Effect, a: nat) {
    && w.file.Some? && w.file.value < |fs.inodes| && w.pending.Some? && w.pending.value.zeroed && a <= NDIRECT
    && var i, p := w.file.value, w.pending.value;
       && p.k == SlotOfAddr(a) && p.b < |fs.own|
       && fs' == fs.(inodes := fs.inodes[i := WithAddr(fs.inodes[i], a, p.b)], own := fs.own[p.b := Ref(i, p.k)])
       && w' == w.(pending := None) && e == Nothing
  }

  /** a[k - NDIRECT] = b in the indirect block. */
  ghost predicate LinksEntry(fs: Fs, w: Work, fs': Fs, w': Work, e: Effect) {
    && w.file.Some? && w.file.value < |fs.inodes| && w.pending.Some? && w.pending.value.zeroed
    && var i, p := w.file.value, w.pending.value;
       && NDIRECT <= p.k < MAXFILE && p.b < |fs.own|
       && var a := fs.inodes[i].addrs[NDIRECT];
          && 0 < a < |fs.disk|
          && fs' == fs.(disk := fs.disk[a := PutWord(fs.disk[a], p.k - NDIRECT, p.b)], own := fs.own[p.b := Ref(i, p.k)])
          && w' == w.(pending := None) && e == Put(a, Words(fs'.disk[a]))
  }

  /** writei gives block bn of the file new contents. */
  ghost predicate WritesData(fs: Fs, w: Work, fs': Fs, w': Work, e: Effect, bn: nat, data: Block) {
    && w.file.Some? && w.file.value < |fs.inodes| && bn < MAXFILE
    && var b := Slot(fs.disk, fs.inodes[w.file.value], bn);
       0 < b < |fs.disk| && fs' == fs.(disk := fs.disk[b := data]) && w' == w && e == Put(b, Words(data))
  }

  ghost predicate Resizes(fs: Fs, w: Work, fs': Fs, w': Work, e: Effect, size: nat) {
    && w.file.Some? && w.file.value < |fs.inodes| && w' == w && e == Nothing
    && var i := w.file.value;
       fs' == fs.(inodes := fs.inodes[i := fs.inodes[i].(size := size)])
  }

  /** iupdate. */
  ghost predicate Updates(start: nat, fs: Fs, w: Work, fs': Fs, w': Work, e: Effect) {
    && w.file.Some? && w.file.value < |fs.inodes| == |fs.dinodes| && w' == w
    && var i := w.file.value;
       && fs' == fs.(dinodes := fs.dinodes[i := fs.inodes[i]])
       && e == Put(i / IPB + start, InodeImage(fs'.dinodes, i / IPB))
  }

  /** One step of operation id, and what it adds to the history. */
  ghost predicate Does(g: Geo, start: nat, id: nat, fs: Fs, w: Work, fs': Fs, w': Work, e: Effect, added: seq<Change>) {
    || (added == [] && exists b, k :: Claims(g, fs, w, fs', w', e, b, k))
    || (added == [] && exists zeros :: Zeroes(fs, w, fs', w', e, zeros))
    || (added == [] && exists a :: LinksAddr(fs, w, fs', w', e, a))
    || (added == [] && LinksEntry(fs, w, fs', w', e))
    || (exists bn, data :: WritesData(fs, w, fs', w', e, bn, data) && added == [Data(id, w.file.value, bn, data)])
    || (exists size :: Resizes(fs, w, fs', w', e, size) && added == [Size(id, w.file.value, size)])
    || (added == [] && Updates(start, fs, w, fs', w', e))
  }

  // ---- what the steps keep ------------------------------------------------------------------------

  ghost predicate HoldsAt(fs: Fs, w: Work) {
    && (w.file.Some? ==> w.file.value < |fs.inodes|)
    && (w.pending.Some? ==>
          var p := w.pending.value;
          && w.file.Some? && p.b < |fs.own| == |fs.disk| && p.k <= MAXFILE && fs.own[p.b] == Held(p.k)
          && Slot(fs.disk, fs.inodes[w.file.value], p.k) == 0 && (p.zeroed ==> Zeroed(fs.disk[p.b])))
  }

  /** Two operations share no inode and no block on its way. */
  ghost predicate Disjoint(v: Work, w: Work) {
    && (v.file.Some? ==> v.file != w.file)
    && (v.pending.Some? && w.pending.Some? ==> v.pending.value.b != w.pending.value.b)
  }

  ghost predicate HeldBy(work: seq<Work>, b: nat) {
    exists x {:trigger work[x]} :: 0 <= x < |work| && work[x].pending.Some? && work[x].pending.value.b == b
  }

  ghost predicate LockedBy(work: seq<Work>, i: nat) {
    exists x {:trigger work[x]} :: 0 <= x < |work| && work[x].file == Some(i)
  }

  /** Blocks on their way and inodes not written yet belong to operations under way. */
  ghost predicate Works(g: Geo, start: nat, fs: Fs, work: seq<Work>) {
    && Owned(g, fs.disk, fs.inodes, fs.own) && |fs.dinodes| == |fs.inodes| && Laid(g, start, |fs.inodes|)
    && (forall x: nat {:trigger HoldsAt(fs, work[x])} :: x < |work| ==> HoldsAt(fs, work[x]))
    && (forall x: nat, y: nat {:trigger Disjoint(work[x], work[y])} :: x < y < |work| ==> Disjoint(work[x], work[y]))
    && (forall b: nat {:trigger HeldBy(work, b)} :: b < |fs.own| && fs.own[b].Held? ==> HeldBy(work, b))
    && (forall i: nat {:trigger LockedBy(work, i)} :: i < |fs.inodes| && fs.dinodes[i] != fs.inodes[i] ==> LockedBy(work, i))
  }

  function ImageOf(start: nat, fs: Fs): L.Disk
    requires |fs.disk| == L.FSSIZE
  {
    Image(start, fs.disk, fs.dinodes)
  }

  /** The disk image changes by what is passed to log_write. */
  ghost predicate Tells(start: nat, fs: Fs, fs': Fs, e: Effect)
    requires |fs.disk| == |fs'.disk| == L.FSSIZE
  {
    match e
    case Nothing => ImageOf(start, fs') == ImageOf(start, fs)
    case Put(b, data) => b < L.FSSIZE && L.IsHome(b) && ImageOf(start, fs') == ImageOf(start, fs)[b := data]
  }

  // ---- the bytes and sizes that the history makes ---------------------------------------------------

  function LastData(cs: seq<Change>, i: nat, bn: nat): Option<Block> {
    if cs == [] then None else
    var c := cs[|cs| - 1];
    if c.Data? && c.file == i && c.bn == bn then Some(c.data) else LastData(cs[..|cs| - 1], i, bn)
  }

  function LastSize(cs: seq<Change>, i: nat, size: nat): nat {
    if cs == [] then size else
    var c := cs[|cs| - 1];
    if c.Size? && c.file == i then c.size else LastSize(cs[..|cs| - 1], i, size)
  }

  /** The byte at position p of file i: as last written, else as at the start. */
  function ByteAfter(fs0: Fs, cs: seq<Change>, i: nat, p: nat): bv8
    requires i < |fs0.inodes| && p < MAXBYTES
  {
    match LastData(cs, i, p / BSIZE)
    case Some(d) => d[p % BSIZE]
    case None => Byte(fs0.disk, fs0.inodes[i], p)
  }

  /** Files show their history: nobody else's writes, and no write of metadata. */
  ghost predicate ShowsAt(fs0: Fs, d: seq<Block>, ino: Inode, cs: seq<Change>, i: nat)
    requires i < |fs0.inodes|
  {
    && ino.size == LastSize(cs, i, fs0.inodes[i].size)
    && forall p: nat {:trigger Byte(d, ino, p)} :: p < MAXBYTES ==> Byte(d, ino, p) == ByteAfter(fs0, cs, i, p)
  }

  ghost predicate Shows(fs0: Fs, fs: Fs, cs: seq<Change>) {
    && |fs.inodes| == |fs0.inodes|
    && forall i: nat {:trigger fs.inodes[i]} :: i < |fs.inodes| ==> ShowsAt(fs0, fs.disk, fs.inodes[i], cs, i)
  }

  lemma LastAfter(cs: seq<Change>, c: Change, i: nat, bn: nat, size: nat)
    ensures LastData(cs + [c], i, bn) == if c.Data? && c.file == i && c.bn == bn then Some(c.data) else LastData(cs, i, bn)
    ensures LastSize(cs + [c], i, size) == if c.Size? && c.file == i then c.size else LastSize(cs, i, size)
  {
    assert (cs + [c])[..|cs|] == cs;
  }

  /** A step that shows in no file. */
  lemma ShowsStill(fs0: Fs, fs: Fs, fs': Fs, cs: seq<Change>)
    requires Shows(fs0, fs, cs) && SameFiles(fs.disk, fs.inodes, fs'.disk, fs'.inodes)
    ensures Shows(fs0, fs', cs)
  {
    hide Byte, ByteAfter;
    forall i: nat | i < |fs'.inodes| ensures ShowsAt(fs0, fs'.disk, fs'.inodes[i], cs, i) {
      assert ShowsAt(fs0, fs.disk, fs.inodes[i], cs, i);
      assert SameBytes(fs.disk, fs.inodes[i], fs'.disk, fs'.inodes[i]);
    }
  }

  // ---- one step, whatever it is, keeps all of that ------------------------------------------------

  /** What is on its way in operation v stays so when its slots, its block and its hold do. */
  lemma HoldsStill(fs: Fs, fs': Fs, v: Work)
    requires HoldsAt(fs, v) && |fs'.own| == |fs.own| == |fs'.disk| == |fs.disk| && |fs'.inodes| == |fs.inodes|
    requires v.file.Some? ==> SameSlots(fs.disk, fs.inodes[v.file.value], fs'.disk, fs'.inodes[v.file.value])
    requires v.pending.Some? ==> fs'.own[v.pending.value.b] == fs.own[v.pending.value.b]
    requires v.pending.Some? ==> fs'.disk[v.pending.value.b] == fs.disk[v.pending.value.b]
    ensures HoldsAt(fs', v)
  {
    hide Slot;
  }

  /** Operation x has gone from w to w'. */
  lemma WorksOn(g: Geo, start: nat, fs: Fs, fs': Fs, work: seq<Work>, x: nat, w': Work)
    requires Works(g, start, fs, work) && x < |work| && w'.file == work[x].file && work[x].file.Some?
    requires Owned(g, fs'.disk, fs'.inodes, fs'.own) && |fs'.dinodes| == |fs'.inodes| == |fs.inodes|
    requires HoldsAt(fs', w') && forall y: nat :: y < |work| && y != x ==> HoldsAt(fs', work[y])
    requires w'.pending.Some? ==>
               (work[x].pending.Some? && w'.pending.value.b == work[x].pending.value.b)
               || (w'.pending.value.b < |fs.own| && !fs.own[w'.pending.value.b].Held?)
    requires forall b: nat {:trigger fs'.own[b]} :: b < |fs'.own| && fs'.own[b].Held? ==>
               (w'.pending.Some? && w'.pending.value.b == b)
               || (b < |fs.own| && fs.own[b].Held? && !(work[x].pending.Some? && work[x].pending.value.b == b))
    requires forall i: nat {:trigger fs'.dinodes[i]} :: i < |fs.inodes| && fs'.dinodes[i] != fs'.inodes[i] ==>
               work[x].file == Some(i) || fs.dinodes[i] != fs.inodes[i]
    ensures Works(g, start, fs', work[x := w'])
  {
    hide Owned, Slot;
    var work' := work[x := w'];
    forall y: nat, z: nat | y < z < |work'| ensures Disjoint(work'[y], work'[z]) {
      assert Disjoint(work[y], work[z]) && HoldsAt(fs, work[y]) && HoldsAt(fs, work[z]);
    }
    forall b: nat | b < |fs'.own| && fs'.own[b].Held? ensures HeldBy(work', b) {
      if w'.pending.Some? && w'.pending.value.b == b {
        assert work'[x] == w';
      } else {
        assert HeldBy(work, b);
        var y :| 0 <= y < |work| && work[y].pending.Some? && work[y].pending.value.b == b;
        assert work'[y] == work[y];
      }
    }
    forall i: nat | i < |fs'.inodes| && fs'.dinodes[i] != fs'.inodes[i] ensures LockedBy(work', i) {
      if work[x].file == Some(i) {
        assert work'[x].file == Some(i);
      } else {
        assert LockedBy(work, i);
        var y :| 0 <= y < |work| && work[y].file == Some(i);
        assert work'[y] == work[y];
      }
    }
  }

  /** A held block is not metadata, and no file has it. */
  lemma HeldApart(g: Geo, fs: Fs, b: nat)
    requires Owned(g, fs.disk, fs.inodes, fs.own) && b < |fs.own| && fs.own[b].Held?
    ensures g.nmeta <= b < g.size && Bit(g, fs.disk, b)
  {
    assert DownAt(g, fs.disk, fs.inodes, fs.own, b);
  }

  /** Blocks from the bitmap on hold no inode and are not of the log. */
  lemma DataHome(g: Geo, start: nat, n: nat, b: nat)
    requires Laid(g, start, n) && g.bmapstart <= b < g.size
    ensures L.IsHome(b) && !HoldsInodes(start, n, b) && b < L.FSSIZE
  {
  }

  lemma ImagePut(start: nat, d: seq<Block>, x: seq<Inode>, b: nat, data: Block)
    requires |d| == L.FSSIZE && b < L.FSSIZE && !HoldsInodes(start, |x|, b)
    ensures Image(start, d[b := data], x) == Image(start, d, x)[b := Words(data)]
  {
    hide InodeImage, Words;
  }

  lemma ImageInode(start: nat, d: seq<Block>, x: seq<Inode>, i: nat, ino: Inode)
    requires |d| == L.FSSIZE && i < |x| && i / IPB + start < L.FSSIZE
    ensures var y := x[i := ino];
            Image(start, d, y) == Image(start, d, x)[i / IPB + start := InodeImage(y, i / IPB)]
  {
    hide InodeImage, Words;
    var y := x[i := ino];
    assert i / IPB < InodeBlocks(|x|);
    forall b: nat | b < L.FSSIZE && b != i / IPB + start ensures Image(start, d, y)[b] == Image(start, d, x)[b] {
      if HoldsInodes(start, |x|, b) { SameInodes(x, y, i, b - start); }
    }
  }

  /** What follows from one step of operation x. */
  ghost predicate Kept(g: Geo, start: nat, fs: Fs, fs': Fs, work: seq<Work>, x: nat, w': Work, e: Effect) {
    && x < |work| && Works(g, start, fs', work[x := w'])
    && |fs.disk| == |fs'.disk| == L.FSSIZE && Tells(start, fs, fs', e)
  }

  ghost predicate At(g: Geo, start: nat, fs: Fs, work: seq<Work>, x: nat, w: Work) {
    Works(g, start, fs, work) && x < |work| && work[x] == w && HoldsAt(fs, w)
  }

  lemma ClaimKeeps(g: Geo, start: nat, fs: Fs, fs': Fs, work: seq<Work>, x: nat, w: Work, w': Work, e: Effect, b: nat, k: nat)
    requires At(g, start, fs, work, x, w) && Claims(g, fs, w, fs', w', e, b, k)
    ensures Kept(g, start, fs, fs', work, x, w', e) && SameFiles(fs.disk, fs.inodes, fs'.disk, fs'.inodes)
  {
    hide Slot, Bit, Byte;
    FreeIffClear(g, fs.disk, fs.inodes, fs.own, b);
    TakeKeepsOwned(g, fs.disk, fs.inodes, fs.own, b, k);
    BitmapUnseen(g, fs.disk, fs.inodes, fs.own, b);
    var at := BitmapBlock(g, b);
    BitmapRange(g, b);
    DataHome(g, start, |fs.inodes|, at);
    assert fs'.disk == fs.disk[at := fs'.disk[at]];
    ImagePut(start, fs.disk, fs.dinodes, at, fs'.disk[at]);
    hide SetBit, Owned, Image, BitmapBlock;
    forall y: nat | y < |work| && y != x ensures HoldsAt(fs', work[y]) {
      assert HoldsAt(fs, work[y]);
      if work[y].pending.Some? { HeldApart(g, fs, work[y].pending.value.b); }
      HoldsStill(fs, fs', work[y]);
    }
    assert SameSlots(fs.disk, fs.inodes[w.file.value], fs'.disk, fs'.inodes[w.file.value]);
    assert HoldsAt(fs', w');
    WorksOn(g, start, fs, fs', work, x, w');
  }

  lemma ZeroKeeps(g: Geo, start: nat, fs: Fs, fs': Fs, work: seq<Work>, x: nat, w: Work, w': Work, e: Effect, zeros: Block)
    requires At(g, start, fs, work, x, w) && Zeroes(fs, w, fs', w', e, zeros)
    ensures Kept(g, start, fs, fs', work, x, w', e) && SameFiles(fs.disk, fs.inodes, fs'.disk, fs'.inodes)
  {
    hide Slot, Bit, Byte;
    var b := w.pending.value.b;
    HeldApart(g, fs, b);
    UnseenByAll(g, fs.disk, fs.inodes, fs.own, b, zeros);
    WriteKeepsOwned(g, fs.disk, fs.inodes, fs.own, b, zeros);
    DataHome(g, start, |fs.inodes|, b);
    ImagePut(start, fs.disk, fs.dinodes, b, zeros);
    hide Owned, Image;
    forall y: nat | y < |work| && y != x ensures HoldsAt(fs', work[y]) {
      assert HoldsAt(fs, work[y]);
      DisjointEither(g, start, fs, work, x, y);
      HoldsStill(fs, fs', work[y]);
    }
    assert SameSlots(fs.disk, fs.inodes[w.file.value], fs'.disk, fs'.inodes[w.file.value]);
    assert HoldsAt(fs', w');
    WorksOn(g, start, fs, fs', work, x, w');
  }

  lemma DisjointEither(g: Geo, start: nat, fs: Fs, work: seq<Work>, x: nat, y: nat)
    requires Works(g, start, fs, work) && x < |work| && y < |work| && x != y
    ensures work[x].file.Some? ==> work[x].file != work[y].file
    ensures work[x].pending.Some? && work[y].pending.Some? ==> work[x].pending.value.b != work[y].pending.value.b
  {
    hide Owned;
    if x < y { assert Disjoint(work[x], work[y]); } else { assert Disjoint(work[y], work[x]); }
  }

  lemma LinkAddrKeeps(g: Geo, start: nat, fs: Fs, fs': Fs, work: seq<Work>, x: nat, w: Work, w': Work, e: Effect, a: nat)
    requires At(g, start, fs, work, x, w) && LinksAddr(fs, w, fs', w', e, a)
    ensures Kept(g, start, fs, fs', work, x, w', e) && SameFiles(fs.disk, fs.inodes, fs'.disk, fs'.inodes)
  {
    var i, p := w.file.value, w.pending.value;
    AddrSlot(fs.disk, fs.inodes[i], a);
    hide Slot, Bit, Byte;
    HeldApart(g, fs, p.b);
    LinkAddrOwned(g, fs.disk, fs.inodes, fs.own, i, a, p.b);
    hide Owned, Image;
    forall y: nat | y < |work| && y != x ensures HoldsAt(fs', work[y]) {
      assert HoldsAt(fs, work[y]);
      DisjointEither(g, start, fs, work, x, y);
      HoldsStill(fs, fs', work[y]);
    }
    WorksOn(g, start, fs, fs', work, x, w');
  }

  lemma LinkEntryKeeps(g: Geo, start: nat, fs: Fs, fs': Fs, work: seq<Work>, x: nat, w: Work, w': Work, e: Effect)
    requires At(g, start, fs, work, x, w) && LinksEntry(fs, w, fs', w', e)
    ensures Kept(g, start, fs, fs', work, x, w', e) && SameFiles(fs.disk, fs.inodes, fs'.disk, fs'.inodes)
  {
    var i, p := w.file.value, w.pending.value;
    var a := fs.inodes[i].addrs[NDIRECT];
    AddrSlot(fs.disk, fs.inodes[i], NDIRECT);
    hide Slot, Bit, Byte, PutWord;
    HeldApart(g, fs, p.b);
    SlotOwned(g, fs.disk, fs.inodes, fs.own, i, MAXFILE);
    LinkEntryOwned(g, fs.disk, fs.inodes, fs.own, i, p.k, p.b);
    DataHome(g, start, |fs.inodes|, a);
    ImagePut(start, fs.disk, fs.dinodes, a, fs'.disk[a]);
    hide Owned, Image;
    forall y: nat | y < |work| && y != x ensures HoldsAt(fs', work[y]) {
      assert HoldsAt(fs, work[y]);
      DisjointEither(g, start, fs, work, x, y);
      HoldsStill(fs, fs', work[y]);
    }
    WorksOn(g, start, fs, fs', work, x, w');
  }

  /** The block in a slot is a data block of its own. */
  lemma SlotOwned(g: Geo, d: seq<Block>, x: seq<Inode>, own: seq<Owner>, i: nat, k: nat)
    requires Owned(g, d, x, own) && i < |x| && k <= MAXFILE && Slot(d, x[i], k) != 0
    ensures g.nmeta <= Slot(d, x[i], k) < g.size && own[Slot(d, x[i], k)] == Ref(i, k)
  {
    hide Slot, Bit;
    assert UpAt(d, x[i], own, i, k);
    assert DownAt(g, d, x, own, Slot(d, x[i], k));
  }

  lemma WriteKeeps(g: Geo, start: nat, fs: Fs, fs': Fs, work: seq<Work>, x: nat, w: Work, w': Work, e: Effect, bn: nat, data: Block)
    requires At(g, start, fs, work, x, w) && WritesData(fs, w, fs', w', e, bn, data)
    ensures Kept(g, start, fs, fs', work, x, w', e)
  {
    hide Slot, Bit, Byte;
    var i := w.file.value;
    var b := Slot(fs.disk, fs.inodes[i], bn);
    SlotOwned(g, fs.disk, fs.inodes, fs.own, i, bn);
    WriteData(g, fs.disk, fs.inodes, fs.own, b, data, i, bn);
    DataHome(g, start, |fs.inodes|, b);
    ImagePut(start, fs.disk, fs.dinodes, b, data);
    hide Owned, Image;
    forall y: nat | y < |work| ensures HoldsAt(fs', work[y]) {
      assert HoldsAt(fs, work[y]);
      HoldsStill(fs, fs', work[y]);
    }
    WorksOn(g, start, fs, fs', work, x, w');
  }

  lemma ResizeSlots(d: seq<Block>, ino: Inode, size: nat)
    ensures SameSlots(d, ino, d, ino.(size := size)) && SameBytes(d, ino, d, ino.(size := size))
  {
  }

  lemma ResizeOwned(g: Geo, d: seq<Block>, x: seq<Inode>, own: seq<Owner>, i: nat, size: nat)
    requires Owned(g, d, x, own) && i < |x|
    ensures Owned(g, d, x[i := x[i].(size := size)], own)
  {
    var y := x[i := x[i].(size := size)];
    ResizeSlots(d, x[i], size);
    hide Slot, Bit;
    forall b: nat | b < g.size ensures DownAt(g, d, y, own, b) { assert DownAt(g, d, x, own, b); }
    forall j: nat, k: nat | j < |y| && k <= MAXFILE ensures UpAt(d, y[j], own, j, k) { assert UpAt(d, x[j], own, j, k); }
  }

  lemma ResizeKeeps(g: Geo, start: nat, fs: Fs, fs': Fs, work: seq<Work>, x: nat, w: Work, w': Work, e: Effect, size: nat)
    requires At(g, start, fs, work, x, w) && Resizes(fs, w, fs', w', e, size)
    ensures Kept(g, start, fs, fs', work, x, w', e)
  {
    var i := w.file.value;
    ResizeSlots(fs.disk, fs.inodes[i], size);
    ResizeOwned(g, fs.disk, fs.inodes, fs.own, i, size);
    hide Owned, Image, Slot;
    forall y: nat | y < |work| ensures HoldsAt(fs', work[y]) {
      assert HoldsAt(fs, work[y]);
      HoldsStill(fs, fs', work[y]);
    }
    WorksOn(g, start, fs, fs', work, x, w');
  }

  lemma UpdateKeeps(g: Geo, start: nat, fs: Fs, fs': Fs, work: seq<Work>, x: nat, w: Work, w': Work, e: Effect)
    requires At(g, start, fs, work, x, w) && Updates(start, fs, w, fs', w', e)
    ensures Kept(g, start, fs, fs', work, x, w', e) && SameFiles(fs.disk, fs.inodes, fs'.disk, fs'.inodes)
  {
    hide Slot, Byte;
    var i := w.file.value;
    assert i / IPB < InodeBlocks(|fs.inodes|);
    ImageInode(start, fs.disk, fs.dinodes, i, fs.inodes[i]);
    hide Owned, Image, InodeImage;
    forall y: nat | y < |work| ensures HoldsAt(fs', work[y]) {
      assert HoldsAt(fs, work[y]);
      HoldsStill(fs, fs', work[y]);
    }
    WorksOn(g, start, fs, fs', work, x, w');
  }

  lemma ShowsData(fs0: Fs, fs: Fs, fs': Fs, cs: seq<Change>, w: Work, w': Work, e: Effect, id: nat, bn: nat, data: Block)
    requires Shows(fs0, fs, cs) && WritesData(fs, w, fs', w', e, bn, data)
    requires forall j: nat :: j < |fs.inodes| && j != w.file.value ==> SameBytes(fs.disk, fs.inodes[j], fs'.disk, fs.inodes[j])
    requires forall p: nat :: p < MAXBYTES ==>
               Byte(fs'.disk, fs.inodes[w.file.value], p)
               == if p / BSIZE == bn then data[p % BSIZE] else Byte(fs.disk, fs.inodes[w.file.value], p)
    ensures Shows(fs0, fs', cs + [Data(id, w.file.value, bn, data)])
  {
    hide Byte, Slot, LastData, LastSize;
    var c := Data(id, w.file.value, bn, data);
    forall i: nat | i < |fs'.inodes| ensures ShowsAt(fs0, fs'.disk, fs'.inodes[i], cs + [c], i) {
      assert ShowsAt(fs0, fs.disk, fs.inodes[i], cs, i);
      LastAfter(cs, c, i, 0, fs0.inodes[i].size);
      assert i != w.file.value ==> SameBytes(fs.disk, fs.inodes[i], fs'.disk, fs.inodes[i]);
      forall p: nat | p < MAXBYTES ensures Byte(fs'.disk, fs'.inodes[i], p) == ByteAfter(fs0, cs + [c], i, p) {
        LastAfter(cs, c, i, p / BSIZE, 0);
        assert Byte(fs.disk, fs.inodes[i], p) == ByteAfter(fs0, cs, i, p);
      }
    }
  }

  lemma ShowsSize(fs0: Fs, fs: Fs, fs': Fs, cs: seq<Change>, w: Work, w': Work, e: Effect, id: nat, size: nat)
    requires Shows(fs0, fs, cs) && Resizes(fs, w, fs', w', e, size)
    ensures Shows(fs0, fs', cs + [Size(id, w.file.value, size)])
  {
    ResizeSlots(fs.disk, fs.inodes[w.file.value], size);
    hide Byte, LastData, LastSize;
    var c := Size(id, w.file.value, size);
    forall i: nat | i < |fs'.inodes| ensures ShowsAt(fs0, fs'.disk, fs'.inodes[i], cs + [c], i) {
      assert ShowsAt(fs0, fs.disk, fs.inodes[i], cs, i);
      LastAfter(cs, c, i, 0, fs0.inodes[i].size);
      forall p: nat | p < MAXBYTES ensures Byte(fs'.disk, fs'.inodes[i], p) == ByteAfter(fs0, cs + [c], i, p) {
        LastAfter(cs, c, i, p / BSIZE, 0);
        assert Byte(fs.disk, fs.inodes[i], p) == ByteAfter(fs0, cs, i, p);
      }
    }
  }

  /** Any step of operation id keeps ownership, tells the log what it changes on disk, and shows in
      the files what its history says and nothing else. */
  lemma DoesKeeps(g: Geo, start: nat, fs0: Fs, cs: seq<Change>, id: nat, fs: Fs, fs': Fs, work: seq<Work>, x: nat, w': Work,
                  e: Effect, added: seq<Change>)
    requires Works(g, start, fs, work) && x < |work| && Does(g, start, id, fs, work[x], fs', w', e, added) && Shows(fs0, fs, cs)
    ensures Kept(g, start, fs, fs', work, x, w', e) && Shows(fs0, fs', cs + added)
  {
    var w := work[x];
    assert HoldsAt(fs, w);
    assert added == [] ==> cs + added == cs;
    hide Works, HoldsAt, Shows, Kept, Claims, Zeroes, LinksAddr, LinksEntry, WritesData, Resizes, Updates;
    if bn, data :| WritesData(fs, w, fs', w', e, bn, data) && added == [Data(id, w.file.value, bn, data)] {
      WriteKeeps(g, start, fs, fs', work, x, w, w', e, bn, data);
      WriteShows(g, start, fs0, cs, id, fs, fs', work, x, w, w', e, bn, data);
    } else if size :| Resizes(fs, w, fs', w', e, size) && added == [Size(id, w.file.value, size)] {
      ResizeKeeps(g, start, fs, fs', work, x, w, w', e, size);
      ShowsSize(fs0, fs, fs', cs, w, w', e, id, size);
    } else {
      if b, k :| Claims(g, fs, w, fs', w', e, b, k) { ClaimKeeps(g, start, fs, fs', work, x, w, w', e, b, k); }
      else if zeros :| Zeroes(fs, w, fs', w', e, zeros) { ZeroKeeps(g, start, fs, fs', work, x, w, w', e, zeros); }
      else if a :| LinksAddr(fs, w, fs', w', e, a) { LinkAddrKeeps(g, start, fs, fs', work, x, w, w', e, a); }
      else if LinksEntry(fs, w, fs', w', e) { LinkEntryKeeps(g, start, fs, fs', work, x, w, w', e); }
      else { UpdateKeeps(g, start, fs, fs', work, x, w, w', e); }
      ShowsStill(fs0, fs, fs', cs);
    }
  }

  lemma WriteShows(g: Geo, start: nat, fs0: Fs, cs: seq<Change>, id: nat, fs: Fs, fs': Fs, work: seq<Work>, x: nat,
                   w: Work, w': Work, e: Effect, bn: nat, data: Block)
    requires At(g, start, fs, work, x, w) && WritesData(fs, w, fs', w', e, bn, data) && Shows(fs0, fs, cs)
    ensures Shows(fs0, fs', cs + [Data(id, w.file.value, bn, data)])
  {
    hide Shows, Slot, Byte;
    WriteData(g, fs.disk, fs.inodes, fs.own, Slot(fs.disk, fs.inodes[w.file.value], bn), data, w.file.value, bn);
    ShowsData(fs0, fs, fs', cs, w, w', e, id, bn, data);
  }

  // ---- steps of the whole system --------------------------------------------------------------------

  ghost predicate Begins(s: State, t: State) {
    && s.alive && L.BeginOp(s.log, t.log)
    && t == s.(log := t.log, work := if t.log.ops == s.log.ops then s.work else s.work + [Work(None, None)])
  }

  /** ilock, by the operation at place x. */
  ghost predicate Locks(s: State, t: State, x: nat, i: nat) {
    && s.alive && x < |s.work| && s.work[x] == Work(None, None) && i < |s.fs.inodes| && !LockedBy(s.work, i)
    && t == s.(work := s.work[x := Work(Some(i), None)])
  }

  ghost predicate Acts(g: Geo, start: nat, limit: nat, s: State, t: State, x: nat, fs: Fs, w: Work, e: Effect, added: seq<Change>) {
    && s.alive && x < |s.work| == |s.log.ops| && L.Running(s.log)
    && Does(g, start, s.log.ops[x].id, s.fs, s.work[x], fs, w, e, added)
    && match e
       case Nothing => t == s.(fs := fs, work := s.work[x := w], changes := s.changes + added)
       case Put(b, data) =>
         && L.LogWrite(limit, s.log, t.log, x, b, data)
         && t == if t.log.panicked then s.(log := t.log)
                 else s.(log := t.log, fs := fs, work := s.work[x := w], changes := s.changes + added)
  }

  /** iunlock and end_op: nothing is on its way, and iupdate has come last. */
  ghost predicate Ends(s: State, t: State, x: nat) {
    && s.alive && x < |s.work| == |s.log.ops| && s.work[x].pending.None?
    && (s.work[x].file.Some? ==>
          var i := s.work[x].file.value;
          i < |s.fs.inodes| == |s.fs.dinodes| && s.fs.dinodes[i] == s.fs.inodes[i])
    && L.EndOp(s.log, t.log, x)
    && t == if t.log.panicked then s.(log := t.log) else s.(log := t.log, work := s.work[..x] + s.work[x + 1..])
  }

  ghost predicate Commits(s: State, t: State) {
    && L.Shape(s.log) && !s.log.panicked && s.log.committing && t.log == L.CommitStep(s.log)
    && t == if t.log.committed == s.log.committed then s.(log := t.log)
            else s.(log := t.log, saved := s.fs, savedChanges := s.changes)
  }

  ghost predicate Crashes(s: State, t: State) {
    L.Shape(s.log) && t == s.(log := L.Crash(s.log), alive := false, work := [])
  }

  ghost predicate Recovers(s: State, t: State) {
    L.Shape(s.log) && s.log.pc.Recover? && t == s.(log := L.RecoverStep(s.log))
  }

  ghost predicate Step(g: Geo, start: nat, limit: nat, s: State, t: State) {
    L.Shape(s.log) && (
    || Begins(s, t)
    || (exists x, i :: Locks(s, t, x, i))
    || (exists x, fs, w, e, added :: Acts(g, start, limit, s, t, x, fs, w, e, added))
    || (exists x :: Ends(s, t, x))
    || Commits(s, t) || Crashes(s, t) || Recovers(s, t))
  }

  ghost predicate Init(g: Geo, start: nat, home: L.Disk, s: State) {
    && L.Init(home, s.log) && s.alive && s.work == [] && s.changes == s.savedChanges == [] && s.saved == s.fs
    && Works(g, start, s.fs, []) && L.SameHome(home, ImageOf(start, s.fs))
  }

  // ---- the invariant ----------------------------------------------------------------------------------

  /** What the operations see of the disk, through the cache. */
  function Memory(home: L.Disk, log: L.State): L.Disk {
    L.Replay(L.Replay(home, log.committed), log.cur)
  }

  /** No operation has changes both among the saved ones and elsewhere, or is still running. */
  ghost predicate WholeOps(s: State) {
    && s.savedChanges <= s.changes
    && (forall c :: c in s.changes ==> c.op < s.log.nextOp)
    && (forall c, x :: c in s.savedChanges && 0 <= x < |s.log.ops| ==> c.op != s.log.ops[x].id)
    && (forall a, c :: a in s.savedChanges && c in s.changes[|s.savedChanges|..] ==> a.op != c.op)
  }

  /** The saved file system is whole, and it is what the committed blocks make. */
  ghost predicate SavedWell(g: Geo, start: nat, home: L.Disk, fs0: Fs, s: State) {
    && Works(g, start, s.saved, []) && Shows(fs0, s.saved, s.savedChanges)
    && L.SameHome(L.Replay(home, s.log.committed), ImageOf(start, s.saved))
  }

  ghost predicate RunsWell(g: Geo, start: nat, home: L.Disk, fs0: Fs, s: State) {
    && !s.log.pc.Recover? && |s.work| == |s.log.ops|
    && Works(g, start, s.fs, s.work) && Shows(fs0, s.fs, s.changes)
    && L.SameHome(Memory(home, s.log), ImageOf(start, s.fs))
  }

  ghost predicate Inv(g: Geo, start: nat, home: L.Disk, fs0: Fs, s: State) {
    && L.Inv(home, s.log) && WholeOps(s) && SavedWell(g, start, home, fs0, s)
    && (if s.alive then RunsWell(g, start, home, fs0, s) else s.log.ops == [] && s.log.cur == [] && !s.log.committing)
  }

  lemma InitInv(g: Geo, start: nat, home: L.Disk, s: State)
    requires Init(g, start, home, s)
    ensures Inv(g, start, home, s.fs, s)
  {
    hide Works, Byte;
    L.InitInv(home, s.log);
    L.ReplayNone(home);
    forall i: nat | i < |s.fs.inodes| ensures ShowsAt(s.fs, s.fs.disk, s.fs.inodes[i], [], i) {
      assert forall p: nat :: p < MAXBYTES ==> LastData([], i, p / BSIZE) == None;
    }
  }

  lemma BeginWorks(g: Geo, start: nat, fs: Fs, work: seq<Work>)
    requires Works(g, start, fs, work)
    ensures Works(g, start, fs, work + [Work(None, None)])
  {
    hide Owned, Slot;
    var v := work + [Work(None, None)];
    forall x: nat | x < |v| ensures HoldsAt(fs, v[x]) { if x < |work| { assert HoldsAt(fs, work[x]); } }
    forall x: nat, y: nat | x < y < |v| ensures Disjoint(v[x], v[y]) { if y < |work| { assert Disjoint(work[x], work[y]); } }
    forall b: nat | b < |fs.own| && fs.own[b].Held? ensures HeldBy(v, b) {
      assert HeldBy(work, b);
      var x :| 0 <= x < |work| && work[x].pending.Some? && work[x].pending.value.b == b;
      assert v[x] == work[x];
    }
    forall i: nat | i < |fs.inodes| && fs.dinodes[i] != fs.inodes[i] ensures LockedBy(v, i) {
      assert LockedBy(work, i);
      var x :| 0 <= x < |work| && work[x].file == Some(i);
      assert v[x] == work[x];
    }
  }

  lemma LockWorks(g: Geo, start: nat, fs: Fs, work: seq<Work>, x: nat, i: nat)
    requires Works(g, start, fs, work) && x < |work| && work[x] == Work(None, None) && i < |fs.inodes| && !LockedBy(work, i)
    ensures Works(g, start, fs, work[x := Work(Some(i), None)])
  {
    hide Owned, Slot;
    var v := work[x := Work(Some(i), None)];
    forall y: nat | y < |v| ensures HoldsAt(fs, v[y]) { assert HoldsAt(fs, work[y]); }
    forall y: nat, z: nat | y < z < |v| ensures Disjoint(v[y], v[z]) {
      assert Disjoint(work[y], work[z]);
      assert work[y].file != Some(i) && work[z].file != Some(i);
    }
    forall b: nat | b < |fs.own| && fs.own[b].Held? ensures HeldBy(v, b) {
      assert HeldBy(work, b);
      var y :| 0 <= y < |work| && work[y].pending.Some? && work[y].pending.value.b == b;
      assert v[y] == work[y];
    }
    forall j: nat | j < |fs.inodes| && fs.dinodes[j] != fs.inodes[j] ensures LockedBy(v, j) {
      assert LockedBy(work, j);
      var y :| 0 <= y < |work| && work[y].file == Some(j);
      assert v[y] == work[y];
    }
  }

  lemma EndWorks(g: Geo, start: nat, fs: Fs, work: seq<Work>, x: nat)
    requires Works(g, start, fs, work) && x < |work| && work[x].pending.None?
    requires work[x].file.Some? ==> work[x].file.value < |fs.inodes| && fs.dinodes[work[x].file.value] == fs.inodes[work[x].file.value]
    ensures Works(g, start, fs, work[..x] + work[x + 1..])
  {
    hide Owned, Slot;
    var v := work[..x] + work[x + 1..];
    assert forall y: nat :: y < |v| ==> v[y] == work[if y < x then y else y + 1];
    forall y: nat | y < |v| ensures HoldsAt(fs, v[y]) { assert HoldsAt(fs, work[if y < x then y else y + 1]); }
    forall y: nat, z: nat | y < z < |v| ensures Disjoint(v[y], v[z]) {
      assert Disjoint(work[if y < x then y else y + 1], work[if z < x then z else z + 1]);
    }
    forall b: nat | b < |fs.own| && fs.own[b].Held? ensures HeldBy(v, b) {
      assert HeldBy(work, b);
      var y :| 0 <= y < |work| && work[y].pending.Some? && work[y].pending.value.b == b;
      assert v[if y < x then y else y - 1] == work[y];
    }
    forall i: nat | i < |fs.inodes| && fs.dinodes[i] != fs.inodes[i] ensures LockedBy(v, i) {
      assert LockedBy(work, i);
      var y :| 0 <= y < |work| && work[y].file == Some(i);
      assert v[if y < x then y else y - 1] == work[y];
    }
  }

  // ---- every step keeps it ------------------------------------------------------------------------------

  /** Nothing changes but the log, and there nothing that is committed or current. */
  lemma LogAlone(g: Geo, start: nat, home: L.Disk, fs0: Fs, s: State, t: State)
    requires Inv(g, start, home, fs0, s) && s.alive && L.Inv(home, t.log) && t == s.(log := t.log)
    requires t.log.committed == s.log.committed && t.log.cur == s.log.cur && t.log.nextOp >= s.log.nextOp
    requires !t.log.pc.Recover? && t.log.ops == s.log.ops
    ensures Inv(g, start, home, fs0, t)
  {
    hide L.Inv, Works, Shows, ImageOf, L.SameHome, L.Replay;
  }

  lemma BeginKeeps(g: Geo, start: nat, limit: nat, home: L.Disk, fs0: Fs, s: State, t: State)
    requires Inv(g, start, home, fs0, s) && Begins(s, t) && L.Inv(home, t.log)
    ensures Inv(g, start, home, fs0, t)
  {
    BeginWorks(g, start, s.fs, s.work);
    hide Works, Shows, ImageOf, L.SameHome, L.Replay, L.Shape, L.Durable, L.Fits;
  }

  lemma LockKeeps(g: Geo, start: nat, home: L.Disk, fs0: Fs, s: State, t: State, x: nat, i: nat)
    requires Inv(g, start, home, fs0, s) && Locks(s, t, x, i)
    ensures Inv(g, start, home, fs0, t)
  {
    LockWorks(g, start, s.fs, s.work, x, i);
    hide L.Inv, Works, Shows, ImageOf, L.SameHome, L.Replay;
  }

  /** The history grows by changes of a running operation. */
  lemma GrowsWhole(s: State, t: State, x: nat, added: seq<Change>)
    requires WholeOps(s) && x < |s.log.ops| && s.log.ops[x].id < s.log.nextOp && t.log.nextOp == s.log.nextOp
    requires t.savedChanges == s.savedChanges && t.changes == s.changes + added && forall c :: c in added ==> c.op == s.log.ops[x].id
    requires |t.log.ops| == |s.log.ops| && forall y :: 0 <= y < |s.log.ops| ==> t.log.ops[y].id == s.log.ops[y].id
    ensures WholeOps(t)
  {
    assert t.changes[|s.savedChanges|..] == s.changes[|s.savedChanges|..] + added;
  }

  /** A log_write that goes well puts its block into what the operations see. */
  lemma MemoryPut(limit: nat, home: L.Disk, log: L.State, log': L.State, x: nat, b: nat, data: L.Block)
    requires L.LogWrite(limit, log, log', x, b, data) && !log'.panicked
    ensures Memory(home, log') == Memory(home, log)[b := data] && log'.committed == log.committed
    ensures log'.nextOp == log.nextOp && log'.pc == log.pc && |log'.ops| == |log.ops|
    ensures forall y :: 0 <= y < |log.ops| ==> log'.ops[y].id == log.ops[y].id
  {
    L.ReplayOne(L.Replay(home, log.committed), log.cur, L.Write(log.ops[x].id, b, data));
    hide L.Replay;
  }

  lemma ActRuns(g: Geo, start: nat, limit: nat, home: L.Disk, fs0: Fs, s: State, t: State, x: nat, fs: Fs, w: Work,
                e: Effect, added: seq<Change>)
    requires RunsWell(g, start, home, fs0, s) && Acts(g, start, limit, s, t, x, fs, w, e, added)
    requires !(e.Put? && t.log.panicked)
    ensures RunsWell(g, start, home, fs0, t)
  {
    hide Works, Shows, L.Replay, Does, L.Running, Memory, L.LogWrite, ImageOf;
    DoesKeeps(g, start, fs0, s.changes, s.log.ops[x].id, s.fs, fs, s.work, x, w, e, added);
    if e.Put? {
      MemoryPut(limit, home, s.log, t.log, x, e.b, e.data);
    }
  }

  lemma OpIds(home: L.Disk, log: L.State, x: nat)
    requires L.Inv(home, log) && x < |log.ops|
    ensures log.ops[x].id < log.nextOp
  {
    hide L.Shape, L.Durable;
  }

  lemma DoesById(g: Geo, start: nat, id: nat, fs: Fs, w: Work, fs': Fs, w': Work, e: Effect, added: seq<Change>)
    requires Does(g, start, id, fs, w, fs', w', e, added)
    ensures forall c :: c in added ==> c.op == id
  {
    hide Claims, Zeroes, LinksAddr, LinksEntry, WritesData, Resizes, Updates;
  }

  lemma ActKeeps(g: Geo, start: nat, limit: nat, home: L.Disk, fs0: Fs, s: State, t: State, x: nat, fs: Fs, w: Work,
                 e: Effect, added: seq<Change>)
    requires Inv(g, start, home, fs0, s) && Acts(g, start, limit, s, t, x, fs, w, e, added) && L.Inv(home, t.log)
    ensures Inv(g, start, home, fs0, t)
  {
    var id := s.log.ops[x].id;
    OpIds(home, s.log, x);
    DoesById(g, start, id, s.fs, s.work[x], fs, w, e, added);
    if e.Put? && t.log.panicked {
      hide L.Inv, Works, Shows, L.Replay, Does, L.Running;
      LogAlone(g, start, home, fs0, s, t);
    } else {
      ActRuns(g, start, limit, home, fs0, s, t, x, fs, w, e, added);
      if e.Put? { MemoryPut(limit, home, s.log, t.log, x, e.b, e.data); }
      hide L.Inv, Works, Shows, L.Replay, Does, L.Running, RunsWell, L.LogWrite, L.SameHome, ImageOf;
      GrowsWhole(s, t, x, added);
    }
  }

  lemma EndKeeps(g: Geo, start: nat, home: L.Disk, fs0: Fs, s: State, t: State, x: nat)
    requires Inv(g, start, home, fs0, s) && Ends(s, t, x) && L.Inv(home, t.log)
    ensures Inv(g, start, home, fs0, t)
  {
    hide L.Inv, Works, Shows, ImageOf, L.SameHome, L.Replay;
    if t.log.panicked {
      LogAlone(g, start, home, fs0, s, t);
    } else {
      EndWorks(g, start, s.fs, s.work, x);
    }
  }

  lemma CommitKeeps(g: Geo, start: nat, home: L.Disk, fs0: Fs, s: State, t: State)
    requires Inv(g, start, home, fs0, s) && Commits(s, t) && L.Inv(home, t.log)
    ensures Inv(g, start, home, fs0, t)
  {
    CommitOutcome(home, s.log);
    L.ReplayConcat(home, s.log.committed, s.log.cur);
    L.ReplayNone(L.Replay(home, t.log.committed));
    hide L.Inv, Works, Shows, ImageOf, L.SameHome, L.Replay, L.CommitStep, L.Shape;
    assert s.alive;
    assert t.changes[|t.changes|..] == [];
    assert s.log.ops == [] && s.work == [];
  }

  lemma CommitOutcome(home: L.Disk, log: L.State)
    requires L.Inv(home, log) && log.committing
    ensures var t := L.CommitStep(log);
            && log.ops == t.ops == [] && t.nextOp == log.nextOp && !t.pc.Recover?
            && (if t.committed == log.committed then t.cur == log.cur || (log.cur == [] && t.cur == [])
                else t.committed == log.committed + log.cur && t.cur == [])
  {
    hide L.WithHeader, L.Header, L.LogSlot, L.Durable, L.WholeOps;
  }

  lemma StopKeeps(g: Geo, start: nat, home: L.Disk, fs0: Fs, s: State, t: State)
    requires Inv(g, start, home, fs0, s) && (Crashes(s, t) || Recovers(s, t)) && L.Inv(home, t.log)
    ensures Inv(g, start, home, fs0, t)
  {
    hide L.Inv, Works, Shows, ImageOf, L.SameHome, L.Replay, L.Shape;
  }

  /** Most steps are steps of the log too; the others leave it alone. */
  lemma IsLogStep(g: Geo, start: nat, limit: nat, s: State, t: State)
    requires Step(g, start, limit, s, t)
    ensures t.log == s.log || L.Step(limit, s.log, t.log)
  {
    hide L.Shape, L.BeginOp, L.CommitStep, L.RecoverStep, L.Crash, Does, L.Running;
    if x, fs, w, e, added :| Acts(g, start, limit, s, t, x, fs, w, e, added) {
      if e.Put? { assert L.LogWrite(limit, s.log, t.log, x, e.b, e.data); }
    } else if x :| Ends(s, t, x) {
      assert L.EndOp(s.log, t.log, x);
    }
  }

  lemma StepKeeps(g: Geo, start: nat, limit: nat, home: L.Disk, fs0: Fs, s: State, t: State)
    requires Inv(g, start, home, fs0, s) && Step(g, start, limit, s, t)
    ensures Inv(g, start, home, fs0, t)
  {
    IsLogStep(g, start, limit, s, t);
    assert L.Inv(home, t.log) by {
      hide L.Inv, L.Step;
      if t.log != s.log { L.StepKeeps(limit, home, s.log, t.log); }
    }
    hide Inv, L.Inv, Begins, Locks, Acts, Ends, Commits, Crashes, Recovers;
    if Begins(s, t) { BeginKeeps(g, start, limit, home, fs0, s, t); }
    else if x, i :| Locks(s, t, x, i) { LockKeeps(g, start, home, fs0, s, t, x, i); }
    else if x, fs, w, e, added :| Acts(g, start, limit, s, t, x, fs, w, e, added) {
      ActKeeps(g, start, limit, home, fs0, s, t, x, fs, w, e, added);
    } else if x :| Ends(s, t, x) { EndKeeps(g, start, home, fs0, s, t, x); }
    else if Commits(s, t) { CommitKeeps(g, start, home, fs0, s, t); }
    else { StopKeeps(g, start, home, fs0, s, t); }
  }

  // ---- every run ------------------------------------------------------------------------------------------

  ghost predicate StepAt(g: Geo, start: nat, limit: nat, run: seq<State>, k: nat)
    requires k + 1 < |run|
  {
    Step(g, start, limit, run[k], run[k + 1])
  }

  ghost predicate IsRun(g: Geo, start: nat, limit: nat, home: L.Disk, run: seq<State>) {
    run != [] && Init(g, start, home, run[0]) && forall k :: 0 <= k < |run| - 1 ==> StepAt(g, start, limit, run, k)
  }

  lemma {:induction false} RunKeeps(g: Geo, start: nat, limit: nat, home: L.Disk, run: seq<State>, k: nat)
    requires IsRun(g, start, limit, home, run) && k < |run|
    ensures Inv(g, start, home, run[0].fs, run[k])
  {
    hide Inv, Step, Init;
    if k == 0 {
      InitInv(g, start, home, run[0]);
    } else {
      RunKeeps(g, start, limit, home, run, k - 1);
      assert StepAt(g, start, limit, run, k - 1);
      StepKeeps(g, start, limit, home, run[0].fs, run[k - 1], run[k]);
    }
  }

  /** Operations of fewer than MAXOPBLOCKS blocks never meet a panic of the log, however they overlap. */
  lemma {:induction false} NoPanic(g: Geo, start: nat, limit: nat, home: L.Disk, run: seq<State>, k: nat)
    requires limit < L.MAXOPBLOCKS && IsRun(g, start, limit, home, run) && k < |run|
    ensures !run[k].log.panicked && Roomed(limit, run[k].log)
  {
    hide Step, Inv, L.Step, L.Inv, T.Budgets, T.Roomy, Works;
    if k == 0 {
      StartsRoomed(limit, home, run[0].log);
    } else {
      NoPanic(g, start, limit, home, run, k - 1);
      RunKeeps(g, start, limit, home, run, k - 1);
      assert StepAt(g, start, limit, run, k - 1);
      LogInv(g, start, home, run[0].fs, run[k - 1]);
      IsLogStep(g, start, limit, run[k - 1], run[k]);
      if run[k].log != run[k - 1].log {
        T.StepReserves(limit, home, run[k - 1].log, run[k].log);
        T.StepStaysRoomy(limit, home, run[k - 1].log, run[k].log);
        RoomyRuns(run[k].log);
      }
    }
  }

  ghost predicate Roomed(limit: nat, log: L.State) {
    T.Budgets(limit, log) && T.Reserved(L.MAXOPBLOCKS, L.LOGSIZE, log) && T.Roomy(log)
  }

  lemma StartsRoomed(limit: nat, home: L.Disk, log: L.State)
    requires L.Init(home, log)
    ensures Roomed(limit, log) && !log.panicked
  {
  }

  lemma RoomyRuns(log: L.State)
    requires T.Roomy(log)
    ensures !log.panicked
  {
  }

  lemma LogInv(g: Geo, start: nat, home: L.Disk, fs0: Fs, s: State)
    requires Inv(g, start, home, fs0, s)
    ensures L.Inv(home, s.log)
  {
  }

  /** What a crash leaves when several write at once. The recovery, cut off as often as you like, ends
      in the image of a file system in which every bitmap bit is right, every inode is written and no
      block is on its way; its files have the bytes and sizes that the saved changes give, a first part
      of all changes in which no operation has some of its changes only. */
  lemma SharedSurvives(g: Geo, start: nat, limit: nat, home: L.Disk, run: seq<State>, k: nat, ks: seq<nat>, e: L.Disk)
    requires IsRun(g, start, limit, home, run) && k < |run| && L.CrashedRecoveries(run[k].log.disk, ks, e)
    ensures |run[k].saved.disk| == L.FSSIZE && L.GoodHeader(e)
    ensures L.SameHome(L.Recovered(e), ImageOf(start, run[k].saved))
    ensures Works(g, start, run[k].saved, []) && Shows(run[0].fs, run[k].saved, run[k].savedChanges)
    ensures run[k].savedChanges <= run[k].changes
    ensures forall a, c :: a in run[k].savedChanges && c in run[k].changes[|run[k].savedChanges|..] ==> a.op != c.op
    ensures forall a, x :: a in run[k].savedChanges && 0 <= x < |run[k].log.ops| ==> a.op != run[k].log.ops[x].id
  {
    RunKeeps(g, start, limit, home, run, k);
    var s := run[k];
    LogInv(g, start, home, run[0].fs, s);
    L.RecoveryMayCrashRepeatedly(s.log.disk, ks, e);
    T.RecoversCommitted(home, s.log);
    hide L.Inv, L.Recovered, L.Replay, Shows, ImageOf, L.CrashedRecoveries;
  }

  /** What is saved stays saved. */
  lemma {:induction false} SavedForGood(g: Geo, start: nat, limit: nat, home: L.Disk, run: seq<State>, j: nat, k: nat)
    requires IsRun(g, start, limit, home, run) && j <= k < |run|
    ensures run[j].savedChanges <= run[k].savedChanges
    decreases k
  {
    hide Inv, Step, Init, IsRun;
    if j < k {
      SavedForGood(g, start, limit, home, run, j, k - 1);
      SavedNext(g, start, limit, home, run, k - 1);
    }
  }

  lemma SavedNext(g: Geo, start: nat, limit: nat, home: L.Disk, run: seq<State>, k: nat)
    requires IsRun(g, start, limit, home, run) && k + 1 < |run|
    ensures run[k].savedChanges <= run[k + 1].savedChanges
  {
    RunKeeps(g, start, limit, home, run, k);
    assert StepAt(g, start, limit, run, k);
    assert run[k].savedChanges <= run[k].changes by { hide L.Inv, SavedWell, RunsWell; }
    hide Inv, IsRun, L.Shape, L.BeginOp, L.LogWrite, L.EndOp, L.CommitStep, L.Crash, L.RecoverStep, Does;
  }

  /** When the log is idle and no operation runs, the disk already shows all that was done. */
  lemma IdleMeansSaved(g: Geo, start: nat, limit: nat, home: L.Disk, run: seq<State>, k: nat)
    requires IsRun(g, start, limit, home, run) && k < |run| && run[k].alive && run[k].log.pc.Idle? && run[k].log.ops == []
    ensures |run[k].fs.disk| == L.FSSIZE && L.SameHome(run[k].log.disk, ImageOf(start, run[k].fs))
    ensures Works(g, start, run[k].fs, [])
  {
    RunKeeps(g, start, limit, home, run, k);
    var log := run[k].log;
    LogInv(g, start, home, run[0].fs, run[k]);
    IdleLog(home, log);
    L.ReplayNone(L.Replay(home, log.committed));
    hide L.Inv, Shows, ImageOf, L.Replay;
    assert run[k].work == [];
  }

  lemma IdleLog(home: L.Disk, log: L.State)
    requires L.Inv(home, log) && log.pc.Idle? && log.ops == []
    ensures log.cur == [] && L.SameHome(log.disk, L.Replay(home, log.committed))
  {
    L.EmptyHeader(log.disk);
    hide L.Recovered, L.Header, L.Replay, L.WholeOps;
  }

  /** ... and what can be read of it after the reboot, whatever else is on the disk: the same inodes,
      bits that say exactly which blocks are used, and the bytes of the history. */
  lemma SharedReadBack(g: Geo, start: nat, limit: nat, home: L.Disk, run: seq<State>, k: nat, ks: seq<nat>, r: L.Disk,
                       e: seq<Block>, y: seq<Inode>)
    requires IsRun(g, start, limit, home, run) && k < |run| && L.CrashedRecoveries(run[k].log.disk, ks, r)
    requires |e| == L.FSSIZE && |y| == |run[0].fs.inodes|
    requires L.GoodHeader(r) ==> L.SameHome(L.Recovered(r), Image(start, e, y))
    ensures GeoOk(g) && |e| == g.size
    ensures forall b: nat :: b < g.size ==> (Bit(g, e, b) <==> b < g.nmeta || InSome(e, y, b))
    ensures forall i: nat :: i < |y| ==> ShowsAt(run[0].fs, e, y[i], run[k].savedChanges, i)
  {
    SharedSurvives(g, start, limit, home, run, k, ks, r);
    var fs0, fs, cs := run[0].fs, run[k].saved, run[k].savedChanges;
    NoneChanged(g, start, fs);
    assert |fs.inodes| == |y| && Laid(g, start, |y|) && Owned(g, fs.disk, fs.inodes, fs.own) by { hide Owned, IsRun; }
    assert L.SameHome(Image(start, fs.disk, fs.inodes), Image(start, e, y));
    hide IsRun, L.CrashedRecoveries, L.Recovered, Image;
    ImageTells(g, start, fs.disk, fs.inodes, e, y);
    assert Agree(g, fs.disk, e);
    OwnedAgain(g, fs.disk, e, y, fs.own);
    forall b: nat | b < g.size ensures Bit(g, e, b) <==> b < g.nmeta || InSome(e, y, b) {
      NoneHeld(g, start, fs, b);
      BitSays(g, e, y, fs.own, b);
    }
    hide Byte, ByteAfter, Owned;
    forall i: nat | i < |y| ensures ShowsAt(fs0, e, y[i], cs, i) {
      assert ShowsAt(fs0, fs.disk, fs.inodes[i], cs, i);
      forall p: nat | p < MAXBYTES ensures Byte(e, y[i], p) == ByteAfter(fs0, cs, i, p) {
        SameByte(g, fs.disk, e, y, fs.own, i, p);
        assert Byte(fs.disk, fs.inodes[i], p) == ByteAfter(fs0, cs, i, p);
      }
    }
  }

  /** Some slot of some inode names block b. */
  ghost predicate InSome(d: seq<Block>, x: seq<Inode>, b: nat) {
    exists i: nat, k: nat :: i < |x| && k <= MAXFILE && Slot(d, x[i], k) == b
  }

  lemma NoneChanged(g: Geo, start: nat, fs: Fs)
    requires Works(g, start, fs, [])
    ensures fs.dinodes == fs.inodes
  {
    hide Owned;
    forall i: nat | i < |fs.inodes| ensures fs.dinodes[i] == fs.inodes[i] {
      assert !LockedBy([], i);
    }
  }

  lemma NoneHeld(g: Geo, start: nat, fs: Fs, b: nat)
    requires Works(g, start, fs, []) && b < |fs.own|
    ensures !fs.own[b].Held?
  {
    hide Owned;
    assert !HeldBy([], b);
  }

  lemma BitSays(g: Geo, d: seq<Block>, x: seq<Inode>, own: seq<Owner>, b: nat)
    requires Owned(g, d, x, own) && b < g.size && !own[b].Held?
    ensures Bit(g, d, b) <==> b < g.nmeta || InSome(d, x, b)
  {
    hide Bit, Slot;
    assert DownAt(g, d, x, own, b) && DownAt(g, d, x, own, 0);
    if b >= g.nmeta && InSome(d, x, b) {
      var i: nat, k: nat :| i < |x| && k <= MAXFILE && Slot(d, x[i], k) == b;
      assert UpAt(d, x[i], own, i, k);
    }
  }

  /** Operations do overlap: two are admitted at once and lock two inodes. */
  lemma TwoAtOnce(g: Geo, start: nat, limit: nat, home: L.Disk, s: State, i: nat, j: nat) returns (run: seq<State>)
    requires Init(g, start, home, s) && i < |s.fs.inodes| && j < |s.fs.inodes| && i != j
    ensures IsRun(g, start, limit, home, run)
    ensures run[|run| - 1].work == [Work(Some(i), None), Work(Some(j), None)] && |run[|run| - 1].log.ops| == 2
  {
    hide Works, ImageOf, Byte;
    L.InitInv(home, s.log);
    var l1 := s.log.(ops := [L.Op(0, {})], nextOp := 1);
    var l2 := l1.(ops := [L.Op(0, {}), L.Op(1, {})], nextOp := 2);
    assert L.BeginOp(s.log, l1) && L.BeginOp(l1, l2);
    var s1 := s.(log := l1, work := [Work(None, None)]);
    var s2 := s1.(log := l2, work := [Work(None, None), Work(None, None)]);
    var s3 := s2.(work := [Work(Some(i), None), Work(None, None)]);
    var s4 := s3.(work := [Work(Some(i), None), Work(Some(j), None)]);
    assert Begins(s, s1) && Begins(s1, s2);
    assert Locks(s2, s3, 0, i) && Locks(s3, s4, 1, j);
    hide Begins, Locks, Init;
    run := [s, s1, s2, s3, s4];
    assert forall k :: 0 <= k < 4 ==> StepAt(g, start, limit, run, k);
  }
}
