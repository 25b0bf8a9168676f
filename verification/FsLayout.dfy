/**
 The on-disk layout behind fs.c on values: bitmap bytes, inode block maps with one indirect block
 of little-endian words, and the ownership invariant that ties them together. A ghost sequence
 own says for each block who holds it; that each block has one owner makes the references of all
 inodes distinct.
 */
module FsLayout {

  const BSIZE: nat := 1024
  const NDIRECT: nat := 12
  const NINDIRECT: nat := 256
  const MAXFILE: nat := 268
  const MAXBYTES: nat := 274432   // MAXFILE * BSIZE
  const BPB: nat := 8192          // bits of one bitmap block
  const WORD: nat := 0x1_0000_0000

  type Block = s: seq<bv8> | |s| == BSIZE witness seq(1024, _ => 0)
  type Addrs = s: seq<nat> | |s| == 13 witness seq(13, _ => 0)

  /** The fields of struct inode that the block map uses. */
  datatype Inode = Inode(addrs: Addrs, size: nat)

  /** What the superblock fixes: blocks from nmeta on hold data. */
  datatype Geo = Geo(size: nat, bmapstart: nat, nmeta: nat)

  /** balloc counts blocks with an int, in steps of BPB. */
  predicate GeoOk(g: Geo) {
    && 0 < g.nmeta <= g.size <= 0x8000_0000 - BPB
    && g.bmapstart + (g.size - 1) / BPB < g.nmeta
  }

  predicate Zeroed(b: Block) {
    forall k :: 0 <= k < BSIZE ==> b[k] == 0
  }

  // ---- bits -------------------------------------------------------------------------------------

  function Mask(i: nat): bv8
    requires i < 8
  {
    (1 as bv8) << i
  }

  predicate BitOf(x: bv8, i: nat)
    requires i < 8
  {
    x & Mask(i) != 0
  }

  lemma MaskTable()
    ensures Mask(0) == 1 && Mask(1) == 2 && Mask(2) == 4 && Mask(3) == 8
    ensures Mask(4) == 16 && Mask(5) == 32 && Mask(6) == 64 && Mask(7) == 128
  {
  }

  function WithBit(x: bv8, i: nat): bv8
    requires i < 8
  {
    x | Mask(i)
  }

  function WithoutBit(x: bv8, i: nat): bv8
    requires i < 8
  {
    x & !Mask(i)
  }

  lemma MasksApart(i: nat, j: nat)
    requires i < 8 && j < 8
    ensures Mask(i) != 0 && (i != j ==> Mask(i) & Mask(j) == 0)
  {
    MaskTable();
    hide Mask;
  }

  lemma OtherBits(x: bv8, m: bv8, n: bv8)
    requires m & n == 0
    ensures (x | m) & n == x & n && (x & !m) & n == x & n
  {
  }

  lemma SameBit(x: bv8, m: bv8)
    requires m != 0
    ensures (x | m) & m != 0 && (x & !m) & m == 0
  {
  }

  /** Setting or clearing a bit of a byte leaves the other bits. */
  lemma MaskBits(x: bv8, i: nat, j: nat)
    requires i < 8 && j < 8
    ensures BitOf(WithBit(x, i), j) <==> i == j || BitOf(x, j)
    ensures BitOf(WithoutBit(x, i), j) <==> i != j && BitOf(x, j)
  {
    hide Mask;
    MasksApart(i, j);
    if i == j { SameBit(x, Mask(i)); } else { OtherBits(x, Mask(i), Mask(j)); }
  }

  /** A bit counts 2^i. */
  lemma BitCounts(x: bv8, i: nat)
    requires i < 8
    ensures BitOf(x, i) <==> (x >> i) & 1 == 1
  {
  }

  function BitmapBlock(g: Geo, b: nat): nat {
    b / BPB + g.bmapstart
  }

  function ByteIndex(b: nat): (i: nat)
    ensures i < BSIZE
  {
    b % BPB / 8
  }

  function BitIndex(b: nat): (i: nat)
    ensures i < 8
  {
    b % 8
  }

  lemma BitmapRange(g: Geo, b: nat)
    requires GeoOk(g) && b < g.size
    ensures BitmapBlock(g, b) < g.nmeta
  {
  }

  predicate Bit(g: Geo, disk: seq<Block>, b: nat)
    requires GeoOk(g) && |disk| == g.size && b < g.size
  {
    BitmapRange(g, b);
    BitOf(disk[BitmapBlock(g, b)][ByteIndex(b)], BitIndex(b))
  }

  /** Where the bit of a block is. */
  lemma BitsLie(g: Geo, disk: seq<Block>, b: nat)
    requires GeoOk(g) && |disk| == g.size && b < g.size
    ensures b / 8192 + g.bmapstart < |disk| && b % 8192 / 8 < 1024
    ensures Bit(g, disk, b) <==> (disk[b / 8192 + g.bmapstart][b % 8192 / 8] >> (b % 8)) & 1 == 1
  {
    BitmapRange(g, b);
    BitCounts(disk[b / 8192 + g.bmapstart][b % 8192 / 8], b % 8);
  }

  function SetBit(g: Geo, disk: seq<Block>, b: nat): seq<Block>
    requires GeoOk(g) && |disk| == g.size && b < g.size
  {
    BitmapRange(g, b);
    var at := BitmapBlock(g, b);
    disk[at := disk[at][ByteIndex(b) := WithBit(disk[at][ByteIndex(b)], BitIndex(b))]]
  }

  function ClearBit(g: Geo, disk: seq<Block>, b: nat): seq<Block>
    requires GeoOk(g) && |disk| == g.size && b < g.size
  {
    BitmapRange(g, b);
    var at := BitmapBlock(g, b);
    disk[at := disk[at][ByteIndex(b) := WithoutBit(disk[at][ByteIndex(b)], BitIndex(b))]]
  }

  /** A block number is determined by its bitmap block, byte and bit. */
  lemma BitsApart(g: Geo, b: nat, c: nat)
    requires BitmapBlock(g, b) == BitmapBlock(g, c) && ByteIndex(b) == ByteIndex(c) && BitIndex(b) == BitIndex(c)
    ensures b == c
  {
    Digits8(b);
    Digits8(c);
  }

  lemma Digits8(b: nat)
    ensures b == b / BPB * BPB + b % BPB / 8 * 8 + b % 8
  {
    assert b == b / BPB * BPB + b % BPB;
    assert b % BPB == b % BPB / 8 * 8 + b % BPB % 8;
    assert b % BPB % 8 == b % 8;
  }

  lemma SetBitAt(g: Geo, disk: seq<Block>, b: nat, c: nat)
    requires GeoOk(g) && |disk| == g.size && b < g.size && c < g.size
    ensures Bit(g, SetBit(g, disk, b), c) <==> b == c || Bit(g, disk, c)
    ensures Bit(g, ClearBit(g, disk, b), c) <==> b != c && Bit(g, disk, c)
  {
    hide WithBit, WithoutBit, BitOf, BitmapBlock, ByteIndex, BitIndex;
    BitmapRange(g, b);
    BitmapRange(g, c);
    MaskBits(disk[BitmapBlock(g, b)][ByteIndex(b)], BitIndex(b), BitIndex(c));
    if BitmapBlock(g, b) == BitmapBlock(g, c) && ByteIndex(b) == ByteIndex(c) && BitIndex(b) == BitIndex(c) {
      BitsApart(g, b, c);
    }
  }

  // ---- words of the indirect block --------------------------------------------------------------

  function Val(x: bv8): (v: nat) {
    x as nat
  }

  function Low(v: nat): bv8 {
    (v % 256) as bv8
  }

  lemma ByteBack(r: nat)
    requires r < 256
    ensures Val(r as bv8) == r
  {
  }

  lemma LowIs(v: nat)
    ensures Val(Low(v)) == v % 256
  {
    hide Val;
    ByteBack(v % 256);
  }

  function Word(b: Block, k: nat): (w: nat)
    requires k < NINDIRECT
  {
    Val(b[4 * k]) + 0x100 * Val(b[4 * k + 1]) + 0x1_0000 * Val(b[4 * k + 2]) + 0x100_0000 * Val(b[4 * k + 3])
  }

  function ByteOf(v: nat, i: nat): bv8
    requires i < 4
  {
    match i case 0 => Low(v) case 1 => Low(v / 0x100) case 2 => Low(v / 0x1_0000) case _ => Low(v / 0x100_0000)
  }

  function PutWord(b: Block, k: nat, v: nat): Block
    requires k < NINDIRECT
  {
    b[4 * k := ByteOf(v, 0)][4 * k + 1 := ByteOf(v, 1)][4 * k + 2 := ByteOf(v, 2)][4 * k + 3 := ByteOf(v, 3)]
  }

  lemma Digits(v: nat)
    requires v < WORD
    ensures v == v % 256 + 0x100 * (v / 0x100 % 256) + 0x1_0000 * (v / 0x1_0000 % 256) + 0x100_0000 * (v / 0x100_0000 % 256)
  {
    var a := v / 0x100;
    var b := v / 0x1_0000;
    assert a == b * 0x100 + a % 256;
    var c := v / 0x100_0000;
    assert b == c * 0x100 + b % 256;
    assert c < 256;
  }

  lemma BytesOfWord(v: nat)
    requires v < WORD
    ensures Val(ByteOf(v, 0)) + 0x100 * Val(ByteOf(v, 1)) + 0x1_0000 * Val(ByteOf(v, 2)) + 0x100_0000 * Val(ByteOf(v, 3)) == v
  {
    hide Low, Val;
    LowIs(v); LowIs(v / 0x100); LowIs(v / 0x1_0000); LowIs(v / 0x100_0000);
    Digits(v);
  }

  lemma WordPut(b: Block, k: nat, v: nat, j: nat)
    requires k < NINDIRECT && j < NINDIRECT && v < WORD
    ensures Word(PutWord(b, k, v), j) == if j == k then v else Word(b, j)
  {
    hide ByteOf, Val;
    BytesOfWord(v);
  }

  lemma WordZero(b: Block, k: nat)
    requires k < NINDIRECT && Zeroed(b)
    ensures Word(b, k) == 0
  {
  }

  // ---- the block map of an inode ----------------------------------------------------------------

  /** The block in slot k: the k-th block of the file for k < MAXFILE, the indirect block for
      k == MAXFILE; 0 if there is none. */
  function Slot(disk: seq<Block>, ino: Inode, k: nat): nat
    requires k <= MAXFILE
  {
    if k < NDIRECT then ino.addrs[k]
    else if k == MAXFILE then ino.addrs[NDIRECT]
    else if 0 < ino.addrs[NDIRECT] < |disk| then Word(disk[ino.addrs[NDIRECT]], k - NDIRECT)
    else 0
  }

  /** The byte at position p of the file, 0 where no block is. */
  function Byte(disk: seq<Block>, ino: Inode, p: nat): bv8
    requires p < MAXBYTES
  {
    var b := Slot(disk, ino, p / BSIZE);
    if 0 < b < |disk| then disk[b][p % BSIZE] else 0
  }

  function Content(disk: seq<Block>, ino: Inode): (c: seq<bv8>)
    requires ino.size <= MAXBYTES
    ensures |c| == ino.size
  {
    seq(ino.size, p requires 0 <= p < ino.size => Byte(disk, ino, p))
  }

  /** Where the bytes of a file are: twelve blocks named in the inode, the others in the little-endian
      words of one block. */
  lemma BytesLie(disk: seq<Block>, ino: Inode, p: nat)
    requires p < MAXBYTES
    ensures p < 12288 && 0 < ino.addrs[p / 1024] < |disk| ==> Byte(disk, ino, p) == disk[ino.addrs[p / 1024]][p % 1024]
    ensures p >= 12288 && 0 < ino.addrs[12] < |disk| ==>
              && 4 * (p / 1024 - 12) + 3 < 1024
              && var w, o := disk[ino.addrs[12]], 4 * (p / 1024 - 12);
                 var b := w[o] as nat + 256 * (w[o + 1] as nat) + 65536 * (w[o + 2] as nat) + 16777216 * (w[o + 3] as nat);
                 0 < b < |disk| ==> Byte(disk, ino, p) == disk[b][p % 1024]
  {
    Thousands(p);
  }

  lemma Thousands(p: nat)
    ensures p < 12288 <==> p / 1024 < 12
    ensures p < MAXBYTES ==> p / 1024 < MAXFILE
  {
  }

  /** Blocks are in a file exactly up to its size. */
  ghost predicate NoHoles(disk: seq<Block>, ino: Inode, size: nat) {
    size <= MAXBYTES && forall k: nat :: k < MAXFILE ==> HoleAt(disk, ino, size, k)
  }

  ghost predicate HoleAt(disk: seq<Block>, ino: Inode, size: nat, k: nat)
    requires k < MAXFILE
  {
    Slot(disk, ino, k) != 0 <==> k * BSIZE < size
  }

  // ---- ownership --------------------------------------------------------------------------------

  /** Who has a block: nobody, the file system itself, an operation under way (for slot k), or
      slot k of inode i. */
  datatype Owner = Free | Meta | Held(k: nat) | Ref(i: nat, k: nat)

  ghost predicate UpAt(disk: seq<Block>, ino: Inode, own: seq<Owner>, i: nat, k: nat)
    requires k <= MAXFILE
  {
    var b := Slot(disk, ino, k);
    b == 0 || (b < |own| && own[b] == Ref(i, k))
  }

  ghost predicate DownAt(g: Geo, disk: seq<Block>, inodes: seq<Inode>, own: seq<Owner>, b: nat)
    requires GeoOk(g) && |disk| == |own| == g.size && b < g.size
  {
    && (Bit(g, disk, b) <==> own[b] != Free)
    && (own[b] == Meta <==> b < g.nmeta)
    && (own[b].Ref? ==>
          && own[b].i < |inodes| && own[b].k <= MAXFILE
          && Slot(disk, inodes[own[b].i], own[b].k) == b)
  }

  /** A bitmap bit is set exactly when its block is metadata, held, or referenced; a referenced
      block is in one slot only. */
  ghost predicate Owned(g: Geo, disk: seq<Block>, inodes: seq<Inode>, own: seq<Owner>) {
    && GeoOk(g) && |disk| == |own| == g.size
    && (forall b: nat {:trigger DownAt(g, disk, inodes, own, b)} :: b < g.size ==> DownAt(g, disk, inodes, own, b))
    && (forall i: nat, k: nat {:trigger UpAt(disk, inodes[i], own, i, k)} ::
          i < |inodes| && k <= MAXFILE ==> UpAt(disk, inodes[i], own, i, k))
  }

  /** The invariant between operations: nothing is held, and no file has holes. */
  ghost predicate Settled(g: Geo, disk: seq<Block>, inodes: seq<Inode>, own: seq<Owner>) {
    && Owned(g, disk, inodes, own)
    && (forall b :: 0 <= b < g.size ==> !own[b].Held?)
    && (forall i :: 0 <= i < |inodes| ==> NoHoles(disk, inodes[i], inodes[i].size))
  }

  /** Block ownership as an if-and-only-if, without the ghost map. */
  lemma BitIffReferenced(g: Geo, disk: seq<Block>, inodes: seq<Inode>, own: seq<Owner>, b: nat)
    requires Settled(g, disk, inodes, own) && b < g.size
    ensures Bit(g, disk, b) <==>
            b < g.nmeta || exists i, k :: 0 <= i < |inodes| && 0 <= k <= MAXFILE && Slot(disk, inodes[i], k) == b
  {
    hide Bit, NoHoles;
    assert DownAt(g, disk, inodes, own, b);
    if i, k :| 0 <= i < |inodes| && 0 <= k <= MAXFILE && Slot(disk, inodes[i], k) == b {
      assert UpAt(disk, inodes[i], own, i, k);
    }
  }

  /** No block is referenced twice. */
  lemma ReferencedOnce(g: Geo, disk: seq<Block>, inodes: seq<Inode>, own: seq<Owner>, i: nat, k: nat, j: nat, l: nat)
    requires Owned(g, disk, inodes, own) && i < |inodes| && j < |inodes| && k <= MAXFILE && l <= MAXFILE
    requires Slot(disk, inodes[i], k) == Slot(disk, inodes[j], l) != 0
    ensures i == j && k == l
  {
    assert UpAt(disk, inodes[i], own, i, k);
    assert UpAt(disk, inodes[j], own, j, l);
  }
}
