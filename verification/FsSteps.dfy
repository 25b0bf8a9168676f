/**
 The elementary changes from which balloc, bfree, bmap, itrunc and writei are made, each with what
 it does to ownership, to the block maps and to the bytes of every file.
 */
module FsSteps {
  import opened FsLayout

  ghost predicate SameSlots(d: seq<Block>, a: Inode, e: seq<Block>, b: Inode) {
    forall k: nat {:trigger Slot(e, b, k)} {:trigger Slot(d, a, k)} :: k <= MAXFILE ==> Slot(e, b, k) == Slot(d, a, k)
  }

  ghost predicate SameBytes(d: seq<Block>, a: Inode, e: seq<Block>, b: Inode) {
    forall p: nat {:trigger Byte(e, b, p)} :: p < MAXBYTES ==> Byte(e, b, p) == Byte(d, a, p)
  }

  ghost predicate SameFiles(d: seq<Block>, inodes: seq<Inode>, e: seq<Block>, jnodes: seq<Inode>) {
    |inodes| == |jnodes| && forall i {:trigger jnodes[i]} :: 0 <= i < |inodes| ==>
      SameBytes(d, inodes[i], e, jnodes[i]) && inodes[i].size == jnodes[i].size
  }

  // ---- writing one block ------------------------------------------------------------------------

  /** A block that is nobody's indirect block can change without changing any block map. */
  lemma OtherBlock(g: Geo, disk: seq<Block>, inodes: seq<Inode>, own: seq<Owner>, b: nat, x: Block, i: nat)
    requires Owned(g, disk, inodes, own) && b < g.size && i < |inodes| && own[b] != Ref(i, MAXFILE)
    ensures SameSlots(disk, inodes[i], disk[b := x], inodes[i])
  {
    assert UpAt(disk, inodes[i], own, i, MAXFILE);
  }

  /** Nor does any byte change at a position whose block is another one. */
  lemma Unseen(g: Geo, disk: seq<Block>, inodes: seq<Inode>, own: seq<Owner>, b: nat, x: Block, i: nat, p: nat)
    requires Owned(g, disk, inodes, own) && b < g.size && i < |inodes| && p < MAXBYTES
    requires own[b] != Ref(i, MAXFILE) && own[b] != Ref(i, p / BSIZE)
    ensures Byte(disk[b := x], inodes[i], p) == Byte(disk, inodes[i], p)
  {
    OtherBlock(g, disk, inodes, own, b, x, i);
    assert UpAt(disk, inodes[i], own, i, p / BSIZE);
    assert Slot(disk[b := x], inodes[i], p / BSIZE) == Slot(disk, inodes[i], p / BSIZE);
  }

  lemma UnseenByAll(g: Geo, disk: seq<Block>, inodes: seq<Inode>, own: seq<Owner>, b: nat, x: Block)
    requires Owned(g, disk, inodes, own) && b < g.size && !own[b].Ref?
    ensures SameFiles(disk, inodes, disk[b := x], inodes)
    ensures forall i: nat :: i < |inodes| ==> SameSlots(disk, inodes[i], disk[b := x], inodes[i])
  {
    forall i: nat | i < |inodes|
      ensures SameSlots(disk, inodes[i], disk[b := x], inodes[i]) && SameBytes(disk, inodes[i], disk[b := x], inodes[i])
    {
      OtherBlock(g, disk, inodes, own, b, x, i);
      forall p: nat | p < MAXBYTES ensures Byte(disk[b := x], inodes[i], p) == Byte(disk, inodes[i], p) {
        Unseen(g, disk, inodes, own, b, x, i, p);
      }
    }
  }

  lemma BitsKept(g: Geo, disk: seq<Block>, b: nat, x: Block, c: nat)
    requires GeoOk(g) && |disk| == g.size && g.nmeta <= b < g.size && c < g.size
    ensures Bit(g, disk[b := x], c) == Bit(g, disk, c)
  {
    BitmapRange(g, c);
  }

  /** Writing a data block, or a held one, keeps ownership. */
  lemma WriteKeepsOwned(g: Geo, disk: seq<Block>, inodes: seq<Inode>, own: seq<Owner>, b: nat, x: Block)
    requires Owned(g, disk, inodes, own) && g.nmeta <= b < g.size && (own[b].Ref? ==> own[b].k != MAXFILE)
    ensures Owned(g, disk[b := x], inodes, own)
  {
    var d := disk[b := x];
    hide Slot, Bit;
    forall c: nat | c < g.size ensures DownAt(g, d, inodes, own, c) {
      assert DownAt(g, disk, inodes, own, c);
      BitsKept(g, disk, b, x, c);
      if own[c].Ref? { OtherBlock(g, disk, inodes, own, b, x, own[c].i); }
    }
    forall i: nat, k: nat | i < |inodes| && k <= MAXFILE ensures UpAt(d, inodes[i], own, i, k) {
      assert UpAt(disk, inodes[i], own, i, k);
      OtherBlock(g, disk, inodes, own, b, x, i);
    }
  }

  /** Writing block k of file i changes its bytes there and nothing else. */
  lemma WriteData(g: Geo, disk: seq<Block>, inodes: seq<Inode>, own: seq<Owner>, b: nat, x: Block, i: nat, k: nat)
    requires Owned(g, disk, inodes, own) && i < |inodes| && k < MAXFILE && b == Slot(disk, inodes[i], k) != 0
    ensures b < g.size && Owned(g, disk[b := x], inodes, own)
    ensures forall j: nat :: j < |inodes| ==> SameSlots(disk, inodes[j], disk[b := x], inodes[j])
    ensures forall j: nat :: j < |inodes| && j != i ==> SameBytes(disk, inodes[j], disk[b := x], inodes[j])
    ensures forall p: nat :: p < MAXBYTES ==>
              Byte(disk[b := x], inodes[i], p) == if p / BSIZE == k then x[p % BSIZE] else Byte(disk, inodes[i], p)
  {
    hide Bit, Slot;
    assert UpAt(disk, inodes[i], own, i, k);
    assert DownAt(g, disk, inodes, own, b);
    WriteKeepsOwned(g, disk, inodes, own, b, x);
    forall j: nat | j < |inodes| ensures SameSlots(disk, inodes[j], disk[b := x], inodes[j]) {
      OtherBlock(g, disk, inodes, own, b, x, j);
    }
    forall j: nat, p: nat | j < |inodes| && p < MAXBYTES && (j != i || p / BSIZE != k)
      ensures Byte(disk[b := x], inodes[j], p) == Byte(disk, inodes[j], p)
    {
      Unseen(g, disk, inodes, own, b, x, j, p);
    }
    hide Owned;
    forall p: nat | p < MAXBYTES && p / BSIZE == k ensures Byte(disk[b := x], inodes[i], p) == x[p % BSIZE] {
      assert SameSlots(disk, inodes[i], disk[b := x], inodes[i]);
    }
  }

  // ---- the bitmap -------------------------------------------------------------------------------

  /** Changing a bitmap block shows in no file. */
  lemma BitmapUnseen(g: Geo, disk: seq<Block>, inodes: seq<Inode>, own: seq<Owner>, b: nat)
    requires Owned(g, disk, inodes, own) && b < g.size
    ensures SameFiles(disk, inodes, SetBit(g, disk, b), inodes) && SameFiles(disk, inodes, ClearBit(g, disk, b), inodes)
    ensures forall i: nat :: i < |inodes| ==> SameSlots(disk, inodes[i], SetBit(g, disk, b), inodes[i])
    ensures forall i: nat :: i < |inodes| ==> SameSlots(disk, inodes[i], ClearBit(g, disk, b), inodes[i])
  {
    var at := BitmapBlock(g, b);
    BitmapRange(g, b);
    assert DownAt(g, disk, inodes, own, at);
    UnseenByAll(g, disk, inodes, own, at, SetBit(g, disk, b)[at]);
    UnseenByAll(g, disk, inodes, own, at, ClearBit(g, disk, b)[at]);
    assert SetBit(g, disk, b) == disk[at := SetBit(g, disk, b)[at]];
    assert ClearBit(g, disk, b) == disk[at := ClearBit(g, disk, b)[at]];
  }

  /** Taking a free block, for slot k. */
  lemma TakeKeepsOwned(g: Geo, disk: seq<Block>, inodes: seq<Inode>, own: seq<Owner>, b: nat, k: nat)
    requires Owned(g, disk, inodes, own) && b < g.size && own[b] == Free
    ensures Owned(g, SetBit(g, disk, b), inodes, own[b := Held(k)])
  {
    var d := SetBit(g, disk, b);
    BitmapUnseen(g, disk, inodes, own, b);
    hide Slot, SetBit, Bit;
    var own' := own[b := Held(k)];
    forall c: nat | c < g.size ensures DownAt(g, d, inodes, own', c) {
      assert DownAt(g, disk, inodes, own, c);
      SetBitAt(g, disk, b, c);
    }
    forall i: nat, l: nat | i < |inodes| && l <= MAXFILE ensures UpAt(d, inodes[i], own', i, l) {
      assert UpAt(disk, inodes[i], own, i, l);
    }
  }

  /** Giving a held block back. */
  lemma DropKeepsOwned(g: Geo, disk: seq<Block>, inodes: seq<Inode>, own: seq<Owner>, b: nat)
    requires Owned(g, disk, inodes, own) && b < g.size && own[b].Held?
    ensures Bit(g, disk, b)
    ensures Owned(g, ClearBit(g, disk, b), inodes, own[b := Free])
  {
    var d := ClearBit(g, disk, b);
    BitmapUnseen(g, disk, inodes, own, b);
    hide Slot, ClearBit, Bit;
    assert DownAt(g, disk, inodes, own, b);
    var own' := own[b := Free];
    forall c: nat | c < g.size ensures DownAt(g, d, inodes, own', c) {
      assert DownAt(g, disk, inodes, own, c);
      SetBitAt(g, disk, b, c);
    }
    forall i: nat, l: nat | i < |inodes| && l <= MAXFILE ensures UpAt(d, inodes[i], own', i, l) {
      assert UpAt(disk, inodes[i], own, i, l);
    }
  }

  // ---- linking a held block ---------------------------------------------------------------------

  /** The block map of inode i gains held block b in slot k; all others stay. */
  ghost predicate Linked(d: seq<Block>, a: Inode, e: seq<Block>, c: Inode, k: nat, b: nat) {
    && k <= MAXFILE && Slot(d, a, k) == 0 && Slot(e, c, k) == b
    && forall l: nat {:trigger Slot(e, c, l)} :: l <= MAXFILE && l != k ==> Slot(e, c, l) == Slot(d, a, l)
  }

  lemma LinkKeepsOwned(g: Geo, d: seq<Block>, inodes: seq<Inode>, own: seq<Owner>, e: seq<Block>, jnodes: seq<Inode>,
                       i: nat, k: nat, b: nat)
    requires Owned(g, d, inodes, own) && i < |inodes| == |jnodes| && k <= MAXFILE && b < g.size && own[b].Held?
    requires |e| == |d| && forall c: nat :: c < g.size ==> Bit(g, e, c) == Bit(g, d, c)
    requires Linked(d, inodes[i], e, jnodes[i], k, b)
    requires forall j: nat :: j < |inodes| && j != i ==> SameSlots(d, inodes[j], e, jnodes[j])
    ensures Owned(g, e, jnodes, own[b := Ref(i, k)])
  {
    hide Slot, Bit;
    var own' := own[b := Ref(i, k)];
    forall c: nat | c < g.size ensures DownAt(g, e, jnodes, own', c) {
      assert DownAt(g, d, inodes, own, c);
      assert Bit(g, e, c) == Bit(g, d, c);
    }
    forall j: nat, l: nat | j < |inodes| && l <= MAXFILE ensures UpAt(e, jnodes[j], own', j, l) {
      assert UpAt(d, inodes[j], own, j, l);
      if j != i { assert SameSlots(d, inodes[j], e, jnodes[j]); }
    }
  }

  function WithAddr(ino: Inode, k: nat, b: nat): Inode
    requires k <= NDIRECT
  {
    ino.(addrs := ino.addrs[k := b])
  }

  /** addrs[k] = b for a direct slot. */
  lemma LinkDirect(d: seq<Block>, ino: Inode, k: nat, b: nat)
    requires k < NDIRECT && ino.addrs[k] == 0 && 0 < b < |d| && Zeroed(d[b])
    ensures Linked(d, ino, d, WithAddr(ino, k, b), k, b)
    ensures SameBytes(d, ino, d, WithAddr(ino, k, b))
  {
    var to := WithAddr(ino, k, b);
    forall l: nat | l <= MAXFILE && l != k ensures Slot(d, to, l) == Slot(d, ino, l) {}
    hide Slot;
  }

  /** addrs[NDIRECT] = b: a fresh indirect block has no entries. */
  lemma LinkIndirect(d: seq<Block>, ino: Inode, b: nat)
    requires ino.addrs[NDIRECT] == 0 && 0 < b < |d| && Zeroed(d[b])
    ensures Linked(d, ino, d, WithAddr(ino, NDIRECT, b), MAXFILE, b)
    ensures SameBytes(d, ino, d, WithAddr(ino, NDIRECT, b))
  {
    var to := WithAddr(ino, NDIRECT, b);
    forall l: nat | l < MAXFILE ensures Slot(d, to, l) == Slot(d, ino, l) {
      if NDIRECT <= l { WordZero(d[b], l - NDIRECT); }
    }
    hide Slot;
  }

  lemma EntryAfterPut(d: seq<Block>, ino: Inode, k: nat, b: nat, l: nat)
    requires NDIRECT <= k < MAXFILE && NDIRECT <= l < MAXFILE && 0 < ino.addrs[NDIRECT] < |d| && b < WORD
    ensures Slot(d[ino.addrs[NDIRECT] := PutWord(d[ino.addrs[NDIRECT]], k - NDIRECT, b)], ino, l) ==
            if l == k then b else Slot(d, ino, l)
  {
    hide Word, PutWord;
    WordPut(d[ino.addrs[NDIRECT]], k - NDIRECT, b, l - NDIRECT);
  }

  /** a[k - NDIRECT] = b in the indirect block. */
  lemma LinkEntry(d: seq<Block>, ino: Inode, k: nat, b: nat)
    requires NDIRECT <= k < MAXFILE && 0 < ino.addrs[NDIRECT] < |d| && Slot(d, ino, k) == 0
    requires 0 < b < |d| && b < WORD
    ensures Linked(d, ino, d[ino.addrs[NDIRECT] := PutWord(d[ino.addrs[NDIRECT]], k - NDIRECT, b)], ino, k, b)
  {
    var e := d[ino.addrs[NDIRECT] := PutWord(d[ino.addrs[NDIRECT]], k - NDIRECT, b)];
    EntryAfterPut(d, ino, k, b, k);
    forall l: nat | l <= MAXFILE && l != k ensures Slot(e, ino, l) == Slot(d, ino, l) {
      if NDIRECT <= l < MAXFILE { EntryAfterPut(d, ino, k, b, l); }
    }
    hide Slot, PutWord;
  }

  /** Linking an entry of the indirect block: ownership, and what the files show. */
  lemma LinkEntryOwned(g: Geo, d: seq<Block>, inodes: seq<Inode>, own: seq<Owner>, i: nat, k: nat, b: nat)
    requires Owned(g, d, inodes, own) && i < |inodes| && NDIRECT <= k < MAXFILE && inodes[i].addrs[NDIRECT] != 0
    requires Slot(d, inodes[i], k) == 0 && b < g.size && own[b].Held? && Zeroed(d[b])
    ensures var a := inodes[i].addrs[NDIRECT];
            && 0 < a < g.size && a != b && 0 < b
            && var e := d[a := PutWord(d[a], k - NDIRECT, b)];
               && Linked(d, inodes[i], e, inodes[i], k, b)
               && SameFiles(d, inodes, e, inodes)
               && (forall j: nat :: j < |inodes| && j != i ==> SameSlots(d, inodes[j], e, inodes[j]))
               && Owned(g, e, inodes, own[b := Ref(i, k)])
  {
    var a := inodes[i].addrs[NDIRECT];
    assert UpAt(d, inodes[i], own, i, MAXFILE);
    assert DownAt(g, d, inodes, own, a) && DownAt(g, d, inodes, own, b) && DownAt(g, d, inodes, own, 0);
    var x := PutWord(d[a], k - NDIRECT, b);
    var e := d[a := x];
    hide PutWord, Bit;
    LinkEntry(d, inodes[i], k, b);
    forall c: nat | c < g.size ensures Bit(g, e, c) == Bit(g, d, c) { BitsKept(g, d, a, x, c); }
    forall j: nat | j < |inodes| && j != i ensures SameSlots(d, inodes[j], e, inodes[j]) && SameBytes(d, inodes[j], e, inodes[j]) {
      OtherBlock(g, d, inodes, own, a, x, j);
      forall p: nat | p < MAXBYTES ensures Byte(e, inodes[j], p) == Byte(d, inodes[j], p) {
        Unseen(g, d, inodes, own, a, x, j, p);
      }
    }
    hide Slot;
    forall p: nat | p < MAXBYTES ensures Byte(e, inodes[i], p) == Byte(d, inodes[i], p) {
      assert UpAt(d, inodes[i], own, i, p / BSIZE);
    }
    LinkKeepsOwned(g, d, inodes, own, e, inodes, i, k, b);
  }

  /** Linking a block from the inode itself. */
  lemma LinkAddrOwned(g: Geo, d: seq<Block>, inodes: seq<Inode>, own: seq<Owner>, i: nat, k: nat, b: nat)
    requires Owned(g, d, inodes, own) && i < |inodes| && k <= NDIRECT && inodes[i].addrs[k] == 0
    requires b < g.size && own[b].Held? && Zeroed(d[b])
    ensures var to := WithAddr(inodes[i], k, b);
            var s := SlotOfAddr(k);
            && 0 < b
            && Linked(d, inodes[i], d, to, s, b)
            && SameFiles(d, inodes, d, inodes[i := to])
            && Owned(g, d, inodes[i := to], own[b := Ref(i, s)])
  {
    var to := WithAddr(inodes[i], k, b);
    assert DownAt(g, d, inodes, own, 0);
    if k < NDIRECT { LinkDirect(d, inodes[i], k, b); } else { LinkIndirect(d, inodes[i], b); }
    hide Slot, Bit, Byte;
    LinkKeepsOwned(g, d, inodes, own, d, inodes[i := to], i, SlotOfAddr(k), b);
  }

  /** The slot whose block addrs[k] names. */
  function SlotOfAddr(k: nat): (s: nat)
    requires k <= NDIRECT
    ensures s <= MAXFILE
  {
    if k == NDIRECT then MAXFILE else k
  }

  // ---- letting a file go ------------------------------------------------------------------------

  const EMPTY: Inode := Inode(seq(13, _ => 0), 0)

  /** Every block of file i becomes held for its slot. */
  function Unref(own: seq<Owner>, i: nat): (r: seq<Owner>)
    ensures |r| == |own|
  {
    seq(|own|, b requires 0 <= b < |own| => if own[b].Ref? && own[b].i == i then Held(own[b].k) else own[b])
  }

  lemma EmptySlots(d: seq<Block>, k: nat)
    requires k <= MAXFILE
    ensures Slot(d, EMPTY, k) == 0
  {
  }

  lemma DetachKeepsOwned(g: Geo, disk: seq<Block>, inodes: seq<Inode>, own: seq<Owner>, i: nat)
    requires Owned(g, disk, inodes, own) && i < |inodes|
    ensures Owned(g, disk, inodes[i := EMPTY], Unref(own, i))
  {
    var jnodes, own' := inodes[i := EMPTY], Unref(own, i);
    hide Slot, Bit;
    forall c: nat | c < g.size ensures DownAt(g, disk, jnodes, own', c) {
      assert DownAt(g, disk, inodes, own, c);
    }
    forall j: nat, l: nat | j < |jnodes| && l <= MAXFILE ensures UpAt(disk, jnodes[j], own', j, l) {
      if j == i { EmptySlots(disk, l); } else { assert UpAt(disk, inodes[j], own, j, l); }
    }
  }
}
