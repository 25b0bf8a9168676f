/**
 The file system on the log: the disk of LogProtocol as the image of the blocks and inodes of
 FileSystem, and what a crash leaves of a filewrite whose transactions go through the log.
 */
module FilesOnLog {
  import opened FsLayout
  import opened FileSystem
  import opened FileContent
  import Basics
  import L = LogProtocol
  import C = LogClient

  const INODEWORDS: nat := 16   // struct dinode is 64 bytes: four shorts, the size, 13 addresses

  // ---- the image of a file system ---------------------------------------------------------------

  function InodeBlocks(ninodes: nat): nat {
    (ninodes + (IPB - 1)) / IPB
  }

  /** The order in which mkfs lays out the disk: log, inodes, bitmap, data. */
  ghost predicate Laid(g: Geo, start: nat, ninodes: nat) {
    && GeoOk(g) && g.size == L.FSSIZE
    && L.LOGSTART + L.NLOG <= start && start + InodeBlocks(ninodes) <= g.bmapstart
  }

  function Words(b: Block): L.Block {
    seq(L.WORDS, k requires 0 <= k < L.WORDS => Word(b, k))
  }

  /** Word w of the inode on disk; type, device and link count are 0 here. */
  function InodeWord(ino: Inode, w: nat): nat
    requires w < INODEWORDS
  {
    if w < 2 then 0 else if w == 2 then ino.size else ino.addrs[w - 3]
  }

  function InodeImage(x: seq<Inode>, n: nat): L.Block {
    seq(L.WORDS, w requires 0 <= w < L.WORDS =>
      if n * IPB + w / INODEWORDS < |x| then InodeWord(x[n * IPB + w / INODEWORDS], w % INODEWORDS) else 0)
  }

  predicate HoldsInodes(start: nat, ninodes: nat, b: nat) {
    start <= b < start + InodeBlocks(ninodes)
  }

  function Image(start: nat, d: seq<Block>, x: seq<Inode>): L.Disk
    requires |d| == L.FSSIZE
  {
    seq(L.FSSIZE, b requires 0 <= b < L.FSSIZE =>
      if HoldsInodes(start, |x|, b) then InodeImage(x, b - start) else Words(d[b]))
  }

  // ---- the image tells everything -----------------------------------------------------------------

  lemma DigitTells(a: nat, b: nat, c: nat, d: nat)
    requires a < 256 && c < 256 && a + 256 * b == c + 256 * d
    ensures a == c && b == d
  {
  }

  /** Four digits in base 256 are determined by their number. */
  lemma DigitsTell(p: nat, q: nat, r: nat, s: nat, t: nat, u: nat, v: nat, w: nat)
    requires p < 256 && q < 256 && r < 256 && t < 256 && u < 256 && v < 256
    requires p + 0x100 * q + 0x1_0000 * r + 0x100_0000 * s == t + 0x100 * u + 0x1_0000 * v + 0x100_0000 * w
    ensures p == t && q == u && r == v && s == w
  {
    DigitTells(p, q + 256 * (r + 256 * s), t, u + 256 * (v + 256 * w));
    DigitTells(q, r + 256 * s, u, v + 256 * w);
    DigitTells(r, s, v, w);
  }

  lemma ByteTells(x: bv8, y: bv8)
    ensures Val(x) < 256
    ensures Val(x) == Val(y) ==> x == y
  {
  }

  lemma WordTells(a: Block, b: Block, k: nat)
    requires k < NINDIRECT && Word(a, k) == Word(b, k)
    ensures forall j :: 4 * k <= j < 4 * k + 4 ==> a[j] == b[j]
  {
    hide Val;
    forall j | 4 * k <= j < 4 * k + 4
      ensures Val(a[j]) < 256 && Val(b[j]) < 256 && (Val(a[j]) == Val(b[j]) ==> a[j] == b[j])
    {
      ByteTells(a[j], b[j]);
      ByteTells(b[j], a[j]);
    }
    DigitsTell(Val(a[4 * k]), Val(a[4 * k + 1]), Val(a[4 * k + 2]), Val(a[4 * k + 3]),
               Val(b[4 * k]), Val(b[4 * k + 1]), Val(b[4 * k + 2]), Val(b[4 * k + 3]));
  }

  lemma WordsTell(a: Block, b: Block)
    requires Words(a) == Words(b)
    ensures a == b
  {
    hide Word;
    forall j | 0 <= j < BSIZE ensures a[j] == b[j] {
      assert Words(a)[j / 4] == Word(a, j / 4) && Words(b)[j / 4] == Word(b, j / 4);
      WordTells(a, b, j / 4);
    }
  }

  lemma InodeTells(x: seq<Inode>, y: seq<Inode>, n: nat, j: nat)
    requires |x| == |y| && InodeImage(x, n) == InodeImage(y, n) && j < |x| && j / IPB == n
    ensures x[j] == y[j]
  {
    var base: nat := j % IPB * INODEWORDS;
    forall w: nat | w < INODEWORDS ensures InodeWord(x[j], w) == InodeWord(y[j], w) {
      assert (base + w) / INODEWORDS == j % IPB && (base + w) % INODEWORDS == w;
      assert InodeImage(x, n)[base + w] == InodeWord(x[j], w);
      assert InodeImage(y, n)[base + w] == InodeWord(y[j], w);
    }
    assert InodeWord(x[j], 2) == x[j].size && InodeWord(y[j], 2) == y[j].size;
    forall k: nat | k < 13 ensures x[j].addrs[k] == y[j].addrs[k] {
      assert InodeWord(x[j], k + 3) == x[j].addrs[k];
    }
    assert x[j].addrs == y[j].addrs;
  }

  /** Two file systems with the same home blocks have the same inodes and the same data. */
  lemma ImageTells(g: Geo, start: nat, d: seq<Block>, x: seq<Inode>, e: seq<Block>, y: seq<Inode>)
    requires |x| == |y| && |d| == |e| == L.FSSIZE && Laid(g, start, |x|)
    requires L.SameHome(Image(start, d, x), Image(start, e, y))
    ensures x == y
    ensures forall b: nat :: b < L.FSSIZE && L.IsHome(b) && !HoldsInodes(start, |x|, b) ==> d[b] == e[b]
  {
    hide InodeImage, Words;
    var s, t := Image(start, d, x), Image(start, e, y);
    forall j: nat | j < |x| ensures x[j] == y[j] {
      var b := start + j / IPB;
      assert HoldsInodes(start, |x|, b) && L.IsHome(b) && s[b] == t[b];
      InodeTells(x, y, j / IPB, j);
    }
    forall b: nat | b < L.FSSIZE && L.IsHome(b) && !HoldsInodes(start, |x|, b) ensures d[b] == e[b] {
      assert s[b] == t[b];
      WordsTell(d[b], e[b]);
    }
  }

  // ---- transactions as operations of the log ------------------------------------------------------

  /** Between d, x and e, y only the images of logged blocks change. */
  lemma OnlyLogged(g: Geo, start: nat, d: seq<Block>, x: seq<Inode>, e: seq<Block>, y: seq<Inode>, i: nat, op: set<nat>)
    requires |d| == |e| == L.FSSIZE && Laid(g, start, |x|) && Transacted(g, d, x, e, y, i, i / IPB + start, op)
    ensures forall b: nat :: b < L.FSSIZE && b !in op ==> Image(start, e, y)[b] == Image(start, d, x)[b]
  {
    hide InodeImage, Words, Loggable;
    forall b: nat | b < L.FSSIZE && b !in op ensures Image(start, e, y)[b] == Image(start, d, x)[b] {
      if HoldsInodes(start, |x|, b) {
        SameInodes(x, y, i, b - start);
      } else {
        assert e[b] == d[b];
      }
    }
  }

  lemma SameInodes(x: seq<Inode>, y: seq<Inode>, i: nat, n: nat)
    requires i < |x| == |y| && y == x[i := y[i]] && (i / IPB == n ==> x == y)
    ensures InodeImage(x, n) == InodeImage(y, n)
  {
    hide InodeWord;
    forall w: nat | w < L.WORDS ensures InodeImage(x, n)[w] == InodeImage(y, n)[w] {
      var j := n * IPB + w / INODEWORDS;
      assert j / IPB == n;
      if j < |x| && j != i { assert y[j] == x[j]; }
    }
  }

  /** parts are the log_writes of the transactions on the trail: whatever a transaction passes to
      log_write, in whatever order and how often, in the end it has made its change. */
  ghost predicate Issues(parts: seq<seq<L.Write>>, ops: seq<set<nat>>, trail: seq<Snap>, start: nat)
    requires |trail| == |ops| + 1 && forall j :: 0 <= j < |trail| ==> |trail[j].disk| == L.FSSIZE
  {
    && |parts| == |ops|
    && forall j: nat {:trigger parts[j]} :: j < |ops| ==>
         && (forall w :: w in parts[j] ==> w.op == j && w.no in ops[j])
         && L.SameHome(L.Replay(Image(start, trail[j].disk, trail[j].inodes), parts[j]),
                       Image(start, trail[j + 1].disk, trail[j + 1].inodes))
  }

  /** One log_write of each block below n that op has, with its final contents. */
  function OnceEach(op: set<nat>, id: nat, image: L.Disk, n: nat): (ws: seq<L.Write>)
    requires n <= L.FSSIZE
    ensures forall w :: w in ws ==> w.op == id && w.no in op
  {
    if n == 0 then [] else OnceEach(op, id, image, n - 1) + if n - 1 in op then [L.Write(id, n - 1, image[n - 1])] else []
  }

  lemma {:induction false} OnceEachIssues(op: set<nat>, id: nat, from: L.Disk, to: L.Disk, n: nat)
    requires n <= L.FSSIZE
    ensures forall b: nat :: b < L.FSSIZE ==>
              L.Replay(from, OnceEach(op, id, to, n))[b] == if b < n && b in op then to[b] else from[b]
  {
    hide L.Replay;
    if n == 0 {
      L.ReplayNone(from);
    } else {
      OnceEachIssues(op, id, from, to, n - 1);
      var ws := OnceEach(op, id, to, n - 1);
      if n - 1 in op {
        L.ReplayOne(from, ws, L.Write(id, n - 1, to[n - 1]));
      } else {
        assert OnceEach(op, id, to, n) == ws;
      }
    }
  }

  /** What holds of the trail of a Filewrite on a disk laid out by mkfs. */
  ghost predicate OnDisk(g: Geo, start: nat, d0: seq<Block>, x0: seq<Inode>, i: nat, off: nat, src: seq<bv8>,
                         trail: seq<Snap>, ops: seq<set<nat>>) {
    && Laid(g, start, |x0|) && i < |x0| && |d0| == g.size
    && Trail(g, trail, ops, d0, x0, i, i / IPB + start, off, src) && SmallOps(ops)
  }

  lemma {:induction false} TrailSized(g: Geo, start: nat, d0: seq<Block>, x0: seq<Inode>, i: nat, off: nat, src: seq<bv8>,
                                      trail: seq<Snap>, ops: seq<set<nat>>, j: nat)
    requires OnDisk(g, start, d0, x0, i, off, src, trail, ops) && j <= |ops|
    ensures |trail| == |ops| + 1 && |trail[j].disk| == L.FSSIZE && |trail[j].inodes| == |x0|
  {
    hide Progress, Loggable;
    if j > 0 {
      TrailSized(g, start, d0, x0, i, off, src, trail, ops, j - 1);
      assert ops[j - 1] in ops;
    }
  }

  lemma TrailSizes(g: Geo, start: nat, d0: seq<Block>, x0: seq<Inode>, i: nat, off: nat, src: seq<bv8>,
                   trail: seq<Snap>, ops: seq<set<nat>>)
    requires OnDisk(g, start, d0, x0, i, off, src, trail, ops)
    ensures |trail| == |ops| + 1
    ensures forall j :: 0 <= j < |trail| ==> |trail[j].disk| == L.FSSIZE && |trail[j].inodes| == |x0|
  {
    hide OnDisk;
    TrailSized(g, start, d0, x0, i, off, src, trail, ops, 0);
    forall j: nat | j < |trail| ensures |trail[j].disk| == L.FSSIZE && |trail[j].inodes| == |x0| {
      TrailSized(g, start, d0, x0, i, off, src, trail, ops, j);
    }
  }

  lemma TrailStep(g: Geo, start: nat, d0: seq<Block>, x0: seq<Inode>, i: nat, off: nat, src: seq<bv8>,
                  trail: seq<Snap>, ops: seq<set<nat>>, j: nat)
    requires OnDisk(g, start, d0, x0, i, off, src, trail, ops) && j < |ops|
    ensures |trail| == |ops| + 1 && |ops[j]| <= 7
    ensures Transacted(g, trail[j].disk, trail[j].inodes, trail[j + 1].disk, trail[j + 1].inodes, i, i / IPB + start, ops[j])
  {
    hide Progress, Transacted;
    assert ops[j] in ops;
  }

  /** Every filewrite can be issued so: each transaction writes each of its blocks once. */
  lemma CanIssue(g: Geo, start: nat, d0: seq<Block>, x0: seq<Inode>, i: nat, off: nat, src: seq<bv8>,
                 trail: seq<Snap>, ops: seq<set<nat>>) returns (parts: seq<seq<L.Write>>)
    requires OnDisk(g, start, d0, x0, i, off, src, trail, ops)
    ensures |trail| == |ops| + 1 && forall j :: 0 <= j < |trail| ==> |trail[j].disk| == L.FSSIZE
    ensures Issues(parts, ops, trail, start)
  {
    TrailSizes(g, start, d0, x0, i, off, src, trail, ops);
    parts := seq(|ops|, j requires 0 <= j < |ops| =>
      OnceEach(ops[j], j, Image(start, trail[j + 1].disk, trail[j + 1].inodes), L.FSSIZE));
    assert Laid(g, start, |x0|);
    hide OnDisk, Image, Laid, OnceEach, Transacted, L.SameHome;
    forall j: nat | j < |ops|
      ensures forall w :: w in parts[j] ==> w.op == j && w.no in ops[j]
      ensures L.SameHome(L.Replay(Image(start, trail[j].disk, trail[j].inodes), parts[j]),
                         Image(start, trail[j + 1].disk, trail[j + 1].inodes))
    {
      TrailStep(g, start, d0, x0, i, off, src, trail, ops, j);
      CanIssueOne(g, start, trail[j], trail[j + 1], i, ops[j], j);
    }
  }

  lemma CanIssueOne(g: Geo, start: nat, a: Snap, b: Snap, i: nat, op: set<nat>, id: nat)
    requires |a.disk| == |b.disk| == L.FSSIZE && Laid(g, start, |a.inodes|)
    requires Transacted(g, a.disk, a.inodes, b.disk, b.inodes, i, i / IPB + start, op)
    ensures var ws := OnceEach(op, id, Image(start, b.disk, b.inodes), L.FSSIZE);
            && (forall w :: w in ws ==> w.op == id && w.no in op)
            && L.SameHome(L.Replay(Image(start, a.disk, a.inodes), ws), Image(start, b.disk, b.inodes))
  {
    hide Image, Laid, OnceEach, Transacted;
    OnlyLogged(g, start, a.disk, a.inodes, b.disk, b.inodes, i, op);
    OnceEachIssues(op, id, Image(start, a.disk, a.inodes), Image(start, b.disk, b.inodes), L.FSSIZE);
  }

  /** Logged blocks are home blocks, seven at most. */
  lemma IsProgram(g: Geo, start: nat, d0: seq<Block>, x0: seq<Inode>, i: nat, off: nat, src: seq<bv8>,
                  trail: seq<Snap>, ops: seq<set<nat>>, parts: seq<seq<L.Write>>)
    requires OnDisk(g, start, d0, x0, i, off, src, trail, ops)
    requires |trail| == |ops| + 1 && forall j :: 0 <= j < |trail| ==> |trail[j].disk| == L.FSSIZE
    requires Issues(parts, ops, trail, start)
    ensures C.Program(parts, 7)
  {
    assert Laid(g, start, |x0|) && i < |x0|;
    hide OnDisk, Image;
    forall j: nat | j < |parts|
      ensures |C.Blocks(parts[j])| <= 7
      ensures forall w :: w in parts[j] ==> w.op == j && L.IsHome(w.no)
    {
      TrailStep(g, start, d0, x0, i, off, src, trail, ops, j);
      assert Loggable(g, i / IPB + start, ops[j]);
      assert i / IPB < InodeBlocks(|x0|);
      Basics.SubsetSize(C.Blocks(parts[j]), ops[j]);
    }
  }

  lemma {:induction false} ReplaySame(d: L.Disk, e: L.Disk, ws: seq<L.Write>)
    requires L.SameHome(d, e)
    ensures L.SameHome(L.Replay(d, ws), L.Replay(e, ws))
    decreases |ws|
  {
    if ws != [] { ReplaySame(d, e, ws[..|ws| - 1]); }
  }

  /** The first m transactions lead to the m-th state of the trail. */
  lemma {:induction false} PartsReach(home: L.Disk, parts: seq<seq<L.Write>>, ops: seq<set<nat>>, trail: seq<Snap>, start: nat, m: nat)
    requires |trail| == |ops| + 1 && forall j :: 0 <= j < |trail| ==> |trail[j].disk| == L.FSSIZE
    requires Issues(parts, ops, trail, start) && m <= |ops|
    requires L.SameHome(home, Image(start, trail[0].disk, trail[0].inodes))
    ensures L.SameHome(L.Replay(home, C.Flat(parts, m)), Image(start, trail[m].disk, trail[m].inodes))
  {
    hide Image, L.Replay;
    if m > 0 {
      PartsReach(home, parts, ops, trail, start, m - 1);
      var before := L.Replay(home, C.Flat(parts, m - 1));
      L.ReplayConcat(home, C.Flat(parts, m - 1), parts[m - 1]);
      ReplaySame(before, Image(start, trail[m - 1].disk, trail[m - 1].inodes), parts[m - 1]);
    } else {
      assert L.Replay(home, []) == home by { L.ReplayNone(home); }
    }
  }

  /** The end-to-end property. A process runs the transactions of a filewrite on the log; power
      fails at any moment and again at any moments of the recovery. Then the recovered disk is the
      file system after a whole number of transactions, those that were saved: the file is the old
      one overwritten by exactly the bytes of these, every other file is untouched, and the log has
      never panicked. */
  lemma FilewriteSurvives(g: Geo, start: nat, d0: seq<Block>, x0: seq<Inode>, i: nat, off: nat, src: seq<bv8>,
                          trail: seq<Snap>, ops: seq<set<nat>>, parts: seq<seq<L.Write>>,
                          home: L.Disk, run: seq<C.World>, k: nat, ks: seq<nat>, e: L.Disk)
    requires OnDisk(g, start, d0, x0, i, off, src, trail, ops)
    requires |trail| == |ops| + 1 && forall j :: 0 <= j < |trail| ==> |trail[j].disk| == L.FSSIZE
    requires Issues(parts, ops, trail, start)
    requires L.SameHome(home, Image(start, d0, x0)) && C.IsWorldRun(parts, home, run) && k < |run|
    requires L.CrashedRecoveries(run[k].log.disk, ks, e)
    ensures !run[k].log.panicked && L.GoodHeader(e)
    ensures var m := run[k].client.saved;
            && m <= |ops| && trail[m].done <= |src|
            && L.SameHome(L.Recovered(e), Image(start, trail[m].disk, trail[m].inodes))
            && (off <= x0[i].size <= MAXBYTES ==>
                  Written(d0, x0, trail[m].disk, trail[m].inodes, i, off, src[..trail[m].done]))
  {
    hide Image, Issues, C.IsWorldRun, C.Program, L.Recovered, L.CrashedRecoveries, Written;
    IsProgram(g, start, d0, x0, i, off, src, trail, ops, parts);
    C.NoPanic(parts, 7, home, run, k);
    C.WholePartsSurvive(parts, 7, home, run, k, ks, e);
    var m := run[k].client.saved;
    assert |parts| == |ops| by { IssuesSized(parts, ops, trail, start); }
    PartsReach(home, parts, ops, trail, start, m);
    assert trail[m].done <= |src|;
  }

  lemma IssuesSized(parts: seq<seq<L.Write>>, ops: seq<set<nat>>, trail: seq<Snap>, start: nat)
    requires |trail| == |ops| + 1 && forall j :: 0 <= j < |trail| ==> |trail[j].disk| == L.FSSIZE
    requires Issues(parts, ops, trail, start)
    ensures |parts| == |ops|
  {
  }

  // ---- after the reboot -----------------------------------------------------------------------------

  /** Two disks that agree from the bitmap on. */
  ghost predicate Agree(g: Geo, d: seq<Block>, e: seq<Block>) {
    |d| == |e| == g.size && forall b: nat {:trigger e[b]} :: g.bmapstart <= b < g.size ==> e[b] == d[b]
  }

  lemma SameBit(g: Geo, d: seq<Block>, e: seq<Block>, b: nat)
    requires GeoOk(g) && Agree(g, d, e) && b < g.size
    ensures Bit(g, e, b) == Bit(g, d, b)
  {
    BitmapRange(g, b);
    assert e[BitmapBlock(g, b)] == d[BitmapBlock(g, b)];
  }

  lemma SameSlot(g: Geo, d: seq<Block>, e: seq<Block>, x: seq<Inode>, own: seq<Owner>, i: nat, k: nat)
    requires Owned(g, d, x, own) && Agree(g, d, e) && i < |x| && k <= MAXFILE
    ensures Slot(e, x[i], k) == Slot(d, x[i], k)
  {
    hide Word, Bit;
    var at := x[i].addrs[NDIRECT];
    assert UpAt(d, x[i], own, i, MAXFILE);
    if 0 < at < |d| {
      assert DownAt(g, d, x, own, at);
      assert e[at] == d[at];
    }
  }

  lemma OwnedAgain(g: Geo, d: seq<Block>, e: seq<Block>, x: seq<Inode>, own: seq<Owner>)
    requires Owned(g, d, x, own) && Agree(g, d, e)
    ensures Owned(g, e, x, own)
  {
    hide Bit, Slot;
    forall b: nat | b < g.size ensures DownAt(g, e, x, own, b) {
      assert DownAt(g, d, x, own, b);
      SameBit(g, d, e, b);
      if own[b].Ref? { SameSlot(g, d, e, x, own, own[b].i, own[b].k); }
    }
    forall i: nat, k: nat | i < |x| && k <= MAXFILE ensures UpAt(e, x[i], own, i, k) {
      assert UpAt(d, x[i], own, i, k);
      SameSlot(g, d, e, x, own, i, k);
    }
  }

  lemma SameByte(g: Geo, d: seq<Block>, e: seq<Block>, x: seq<Inode>, own: seq<Owner>, i: nat, p: nat)
    requires Owned(g, d, x, own) && Agree(g, d, e) && i < |x| && p < MAXBYTES
    ensures Byte(e, x[i], p) == Byte(d, x[i], p)
  {
    hide Slot, Bit;
    SameSlot(g, d, e, x, own, i, p / BSIZE);
    var b := Slot(d, x[i], p / BSIZE);
    assert UpAt(d, x[i], own, i, p / BSIZE);
    if 0 < b < |d| {
      assert DownAt(g, d, x, own, b);
      assert e[b] == d[b];
    }
  }

  lemma SameOwned(g: Geo, d: seq<Block>, e: seq<Block>, x: seq<Inode>, own: seq<Owner>)
    requires Settled(g, d, x, own) && Agree(g, d, e)
    ensures Settled(g, e, x, own)
  {
    OwnedAgain(g, d, e, x, own);
    hide Slot;
    forall i: nat | i < |x| ensures NoHoles(e, x[i], x[i].size) {
      assert NoHoles(d, x[i], x[i].size);
      forall k: nat | k < MAXFILE ensures HoleAt(e, x[i], x[i].size, k) {
        assert HoleAt(d, x[i], x[i].size, k);
        SameSlot(g, d, e, x, own, i, k);
      }
    }
  }

  lemma SameContent(g: Geo, d: seq<Block>, e: seq<Block>, x: seq<Inode>, own: seq<Owner>, i: nat)
    requires Settled(g, d, x, own) && Agree(g, d, e) && i < |x|
    ensures x[i].size <= MAXBYTES && Content(e, x[i]) == Content(d, x[i])
  {
    assert NoHoles(d, x[i], x[i].size);
    hide Byte, NoHoles, Owned;
    forall p: nat | p < x[i].size ensures Byte(e, x[i], p) == Byte(d, x[i], p) { SameByte(g, d, e, x, own, i, p); }
    assert forall p: nat :: p < x[i].size ==> Content(e, x[i])[p] == Content(d, x[i])[p];
  }

  /** The home blocks alone make the file system: whatever else the disk holds, the inodes, the
      ownership of the blocks and the bytes of every file are the same. */
  lemma AfterReboot(g: Geo, start: nat, d: seq<Block>, x: seq<Inode>, e: seq<Block>, y: seq<Inode>)
    requires |x| == |y| && |d| == |e| == L.FSSIZE && Laid(g, start, |x|) && Sound(g, d, x)
    requires L.SameHome(Image(start, d, x), Image(start, e, y))
    ensures y == x && Sound(g, e, y)
    ensures forall i :: 0 <= i < |x| ==> x[i].size <= MAXBYTES && Content(e, x[i]) == Content(d, x[i])
  {
    hide Image, Settled;
    ImageTells(g, start, d, x, e, y);
    assert Agree(g, d, e);
    var own :| Settled(g, d, x, own);
    SameOwned(g, d, e, x, own);
    forall i: nat | i < |x| ensures x[i].size <= MAXBYTES && Content(e, x[i]) == Content(d, x[i]) {
      SameContent(g, d, e, x, own, i);
    }
  }

  /** What a filewrite cut off by a crash leaves to be read: a consistent file system in which the
      file has the bytes of whole transactions, from the first on, and every other file has its own. */
  lemma FilewriteReadBack(g: Geo, start: nat, d0: seq<Block>, x0: seq<Inode>, i: nat, off: nat, src: seq<bv8>,
                          trail: seq<Snap>, ops: seq<set<nat>>, parts: seq<seq<L.Write>>,
                          home: L.Disk, run: seq<C.World>, k: nat, ks: seq<nat>, r: L.Disk, e: seq<Block>, y: seq<Inode>)
    requires OnDisk(g, start, d0, x0, i, off, src, trail, ops) && off <= x0[i].size
    requires |trail| == |ops| + 1 && forall j :: 0 <= j < |trail| ==> |trail[j].disk| == L.FSSIZE
    requires Issues(parts, ops, trail, start)
    requires L.SameHome(home, Image(start, d0, x0)) && C.IsWorldRun(parts, home, run) && k < |run|
    requires L.CrashedRecoveries(run[k].log.disk, ks, r)
    requires |e| == L.FSSIZE && |y| == |x0|
    requires L.GoodHeader(r) ==> L.SameHome(L.Recovered(r), Image(start, e, y))
    ensures Sound(g, e, y)
    ensures forall j :: 0 <= j < |y| ==> x0[j].size <= MAXBYTES && y[j].size <= MAXBYTES
    ensures var m := run[k].client.saved;
            && m <= |ops| && trail[m].done <= |src|
            && Content(e, y[i]) == Basics.Replaced(Content(d0, x0[i]), off, src[..trail[m].done])
    ensures forall j :: 0 <= j < |y| && j != i ==> Content(e, y[j]) == Content(d0, x0[j])
  {
    var m := run[k].client.saved;
    TrailSizes(g, start, d0, x0, i, off, src, trail, ops);
    assert Sound(g, d0, x0) by { assert trail[0] == Snap(d0, x0, 0); }
    SoundSizes(g, d0, x0);
    FilewriteSurvives(g, start, d0, x0, i, off, src, trail, ops, parts, home, run, k, ks, r);
    assert Sound(g, trail[m].disk, trail[m].inodes);
    hide Image, Issues, C.IsWorldRun, L.Recovered, L.CrashedRecoveries, Sound, Trail, Content, Basics.Replaced, Byte, Slot;
    AfterReboot(g, start, trail[m].disk, trail[m].inodes, e, y);
    forall j: nat | j < |y| && j != i ensures Content(e, y[j]) == Content(d0, x0[j]) {
      OtherContent(d0, x0, trail[m].disk, trail[m].inodes, i, j);
    }
  }

  lemma SoundSizes(g: Geo, d: seq<Block>, x: seq<Inode>)
    requires Sound(g, d, x)
    ensures forall j :: 0 <= j < |x| ==> x[j].size <= MAXBYTES
  {
    hide Owned;
  }

  lemma OtherContent(d: seq<Block>, x: seq<Inode>, e: seq<Block>, y: seq<Inode>, i: nat, j: nat)
    requires Others(d, x, e, y, i) && j < |x| && j != i && x[j].size <= MAXBYTES
    ensures y[j] == x[j] && Content(e, y[j]) == Content(d, x[j])
  {
    hide Byte, Slot;
    assert y[j] == x[j];
    assert forall p: nat :: p < x[j].size ==> Byte(e, y[j], p) == Byte(d, x[j], p);
  }
}
