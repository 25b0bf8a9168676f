/**
 umalloc.c: the storage allocator of section 8.7 of The C Programming Language, 2nd ed.

 Memory is counted in units of one Header (16 bytes); an address is a unit number. The free
 list runs through the headers in memory. Two ghost records explain it: list is the cycle,
 starting at base, and owner says for each unit which block's header it belongs to (0: memory
 that was never obtained). owner is single-valued, so blocks cannot overlap.
 */
module Malloc {

  datatype Header = Header(ptr: nat, size: nat)

  const BASE: nat := 1                       // the static header base
  const UINT_MAX: nat := 0xFFFF_FFFF
  const MINUNITS: nat := 4096
  const HEADER_BYTES: nat := 16
  const PAGE_UNITS: nat := 256               // units of one page

  /** Steps forward around a cycle of n positions. */
  function Dist(a: nat, b: nat, n: nat): nat
    requires a < n && b < n
  {
    if a <= b then b - a else n - a + b
  }

  /** The position after i. */
  function Succ(i: nat, n: nat): nat
    requires i < n
    ensures Succ(i, n) < n
  {
    if i + 1 < n then i + 1 else 0
  }

  /** Block h has a header and exactly the units that owner gives it. */
  ghost predicate Block(mem: seq<Header>, owner: seq<nat>, h: nat) {
    && BASE < h < |mem| == |owner| && 0 < mem[h].size && h + mem[h].size <= |mem|
    && forall u :: 0 <= u < |owner| ==> (owner[u] == h <==> h <= u < h + mem[h].size)
  }

  /** Memory, the cycle, who owns each unit, and the headers of the allocated blocks. */
  datatype Heap = Heap(mem: seq<Header>, list: seq<nat>, owner: seq<nat>, alloc: set<nat>)

  /** The header at position i of the list points to the next one. */
  ghost predicate Linked(s: Heap, i: nat)
    requires i < |s.list|
  {
    s.list[i] < |s.mem| && s.mem[s.list[i]].ptr == s.list[Succ(i, |s.list|)]
  }

  /** The list is one address-ordered cycle through base ... */
  ghost predicate Cycle(s: Heap) {
    && s.list != [] && s.list[0] == BASE
    && (forall i :: 0 <= i < |s.list| ==> s.list[i] < |s.mem|)
    && (forall i :: 0 <= i < |s.list| ==> Linked(s, i))
    && (forall i, j :: 0 <= i < j < |s.list| ==> s.list[i] < s.list[j])
    && s.mem[BASE].size == 0
  }

  ghost predicate InMemory(s: Heap) {
    forall i :: 0 <= i < |s.list| ==> s.list[i] < |s.mem|
  }

  /** There is a gap behind the block at position i. */
  ghost predicate Gap(s: Heap, i: nat)
    requires i + 1 < |s.list|
  {
    s.list[i] < |s.mem| && s.list[i] + s.mem[s.list[i]].size < s.list[i + 1]
  }

  /** ... in which no two heap blocks touch. */
  ghost predicate Coalesced(s: Heap) {
    forall i :: 0 < i < |s.list| - 1 ==> Gap(s, i)
  }

  /** Blocks are free (in the list) or allocated, never both, and own every unit obtained. */
  ghost predicate Partition(s: Heap)
    requires Cycle(s)
  {
    && |s.owner| == |s.mem|
    && (forall i :: 0 < i < |s.list| ==> Block(s.mem, s.owner, s.list[i]))
    && (forall i :: 0 <= i < |s.list| ==> s.list[i] !in s.alloc)
    && (forall h :: h in s.alloc ==> Block(s.mem, s.owner, h))
    && (forall u :: 0 <= u < |s.owner| && s.owner[u] != 0 ==>
          s.owner[u] in s.alloc || (s.owner[u] in s.list && s.owner[u] != BASE))
  }

  ghost predicate Inv(s: Heap) {
    Cycle(s) && Coalesced(s) && Partition(s)
  }

  /** The units of all free blocks, of all memory obtained, and of one block. */
  ghost function FreeUnits(s: Heap): set<nat> {
    set u | 0 <= u < |s.owner| && s.owner[u] != 0 && s.owner[u] !in s.alloc
  }

  ghost function AllUnits(s: Heap): set<nat> {
    set u | 0 <= u < |s.owner| && s.owner[u] != 0
  }

  ghost function UnitsOf(s: Heap, h: nat): set<nat> {
    set u | 0 <= u < |s.owner| && s.owner[u] == h
  }

  /** What the program keeps in the allocated blocks other than h. */
  ghost predicate DataKept(s: Heap, t: Heap, h: nat) {
    && |s.owner| == |s.mem| <= |t.mem| && |t.owner| == |t.mem|
    && forall u :: 0 <= u < |s.mem| && s.owner[u] in s.alloc && s.owner[u] != h ==>
         t.mem[u] == s.mem[u] && t.owner[u] == s.owner[u] && t.owner[u] in t.alloc
  }

  /** The list is determined by the set of free units: address order and full coalescing leave
      one way only to cut them into blocks. */
  lemma {:induction false} CanonicalPrefix(s: Heap, t: Heap, i: nat)
    requires Inv(s) && Inv(t) && FreeUnits(s) == FreeUnits(t)
    requires i < |s.list| && i < |t.list|
    ensures s.list[i] == t.list[i] && s.mem[s.list[i]].size == t.mem[t.list[i]].size
  {
    if i > 0 {
      CanonicalPrefix(s, t, i - 1);
      NotBefore(s, t, i);
      NotBefore(t, s, i);
      NotLonger(s, t, i);
      NotLonger(t, s, i);
    }
  }

  /** A unit of a free block lies in exactly one block of the list. */
  lemma InBlock(s: Heap, u: nat) returns (k: nat)
    requires Inv(s) && u in FreeUnits(s)
    ensures 0 < k < |s.list| && s.list[k] <= u < s.list[k] + s.mem[s.list[k]].size
  {
    k :| 0 <= k < |s.list| && s.list[k] == s.owner[u];
    assert Block(s.mem, s.owner, s.list[k]);
  }

  lemma BlockIsFree(s: Heap, k: nat, u: nat)
    requires Inv(s) && 0 < k < |s.list| && s.list[k] <= u < s.list[k] + s.mem[s.list[k]].size
    ensures u in FreeUnits(s)
  {
    assert Block(s.mem, s.owner, s.list[k]);
  }

  lemma {:induction false} BlocksApart(s: Heap, i: nat, j: nat)
    requires Inv(s) && 0 < i < j < |s.list|
    ensures s.list[i] + s.mem[s.list[i]].size < s.list[j]
  {
    assert Gap(s, i);
    if i + 1 < j {
      BlocksApart(s, i, j - 1);
    }
  }

  lemma NotBefore(s: Heap, t: Heap, i: nat)
    requires Inv(s) && Inv(t) && FreeUnits(s) == FreeUnits(t)
    requires 0 < i < |s.list| && i < |t.list|
    requires s.list[i - 1] == t.list[i - 1] && s.mem[s.list[i - 1]].size == t.mem[t.list[i - 1]].size
    ensures t.list[i] <= s.list[i]
  {
    assert Block(s.mem, s.owner, s.list[i]);
    BlockIsFree(s, i, s.list[i]);
    forall k | 0 < k < i
      ensures t.list[k] + t.mem[t.list[k]].size <= s.list[i]
    {
      if k < i - 1 {
        BlocksApart(t, k, i - 1);
      }
      BlocksApart(s, i - 1, i);
    }
    var k := InBlock(t, s.list[i]);
  }

  lemma NotLonger(s: Heap, t: Heap, i: nat)
    requires Inv(s) && Inv(t) && FreeUnits(s) == FreeUnits(t)
    requires 0 < i < |s.list| && i < |t.list| && s.list[i] == t.list[i]
    ensures s.mem[s.list[i]].size <= t.mem[t.list[i]].size
  {
    var u := t.list[i] + t.mem[t.list[i]].size;
    forall k | 0 < k < |t.list|
      ensures !(t.list[k] <= u < t.list[k] + t.mem[t.list[k]].size)
    {
      if i < k {
        BlocksApart(t, i, k);
      } else if k < i {
        BlocksApart(t, k, i);
      }
    }
    if u < s.list[i] + s.mem[s.list[i]].size {
      BlockIsFree(s, i, u);
      var k := InBlock(t, u);
    }
  }

  lemma Canonical(s: Heap, t: Heap)
    requires Inv(s) && Inv(t) && FreeUnits(s) == FreeUnits(t)
    ensures s.list == t.list
    ensures forall i :: 0 <= i < |s.list| ==> s.mem[s.list[i]].size == t.mem[t.list[i]].size
  {
    forall i | 0 <= i < |s.list| && i < |t.list|
      ensures s.list[i] == t.list[i] && s.mem[s.list[i]].size == t.mem[t.list[i]].size
    {
      CanonicalPrefix(s, t, i);
    }
    NoneLeft(s, t);
    NoneLeft(t, s);
  }

  lemma NoneLeft(s: Heap, t: Heap)
    requires Inv(s) && Inv(t) && FreeUnits(s) == FreeUnits(t)
    requires forall i :: 0 <= i < |s.list| && i < |t.list| ==>
               s.list[i] == t.list[i] && s.mem[s.list[i]].size == t.mem[t.list[i]].size
    ensures |s.list| <= |t.list|
  {
    var n := |t.list|;
    if n < |s.list| {
      assert Block(s.mem, s.owner, s.list[n]);
      BlockIsFree(s, n, s.list[n]);
      var k := InBlock(t, s.list[n]);
      BlocksApart(s, k, n);
    }
  }

  // ---- the four moves that malloc and free are made of ---------------------------------

  /** Take the j-th block out of the list. */
  ghost function Unlink(s: Heap, j: nat): Heap
    requires 0 < j < |s.list| && forall i :: 0 <= i < |s.list| ==> s.list[i] < |s.mem|
  {
    Heap(s.mem[s.list[j - 1] := s.mem[s.list[j - 1]].(ptr := s.mem[s.list[j]].ptr)],
         s.list[..j] + s.list[j + 1..], s.owner, s.alloc + {s.list[j]})
  }

  /** Where position i of the shorter list was. */
  function Before(i: nat, j: nat): nat {
    if i < j then i else i + 1
  }

  lemma UnlinkAt(s: Heap, j: nat, i: nat)
    requires 0 < j < |s.list| && i < |s.list| - 1 && forall k :: 0 <= k < |s.list| ==> s.list[k] < |s.mem|
    requires Linked(s, Before(i, j)) && Linked(s, j)
    requires i != j - 1 ==> s.list[Before(i, j)] != s.list[j - 1]
    ensures var t := Unlink(s, j);
            t.list[i] == s.list[Before(i, j)] && Linked(t, i) && t.mem[t.list[i]].size == s.mem[t.list[i]].size
  {
    var t := Unlink(s, j);
    if i < j - 1 {
      assert t.list[i + 1] == s.list[i + 1];
    } else {
      assert i + 2 < |s.list| ==> t.list[i + 1] == s.list[i + 2];
    }
  }

  lemma UnlinkPlaces(s: Heap, j: nat)
    requires 0 < j < |s.list| && InMemory(s)
    ensures var t := Unlink(s, j);
            |t.list| == |s.list| - 1 && forall i :: 0 <= i < |t.list| ==> t.list[i] == s.list[Before(i, j)]
  {
  }

  /** A list without what was at position j. */
  lemma Without(list: seq<nat>, t: seq<nat>, j: nat, h: nat)
    requires j < |list| && |t| == |list| - 1 && forall i :: 0 <= i < |t| ==> t[i] == list[Before(i, j)]
    requires forall i, k :: 0 <= i < k < |list| ==> list[i] < list[k]
    ensures h in t <==> h in list && h != list[j]
  {
    if h in list && h != list[j] {
      var i :| 0 <= i < |list| && list[i] == h;
      assert t[if i < j then i else i - 1] == h;
    }
    if h in t {
      var i :| 0 <= i < |t| && t[i] == h;
      assert h == list[Before(i, j)];
    }
  }

  lemma UnlinkMembers(s: Heap, j: nat)
    requires Cycle(s) && 0 < j < |s.list|
    ensures forall h :: h in Unlink(s, j).list <==> h in s.list && h != s.list[j]
  {
    assert InMemory(s);
    UnlinkPlaces(s, j);
    hide Unlink, Linked;
    forall h ensures h in Unlink(s, j).list <==> h in s.list && h != s.list[j] {
      Without(s.list, Unlink(s, j).list, j, h);
    }
  }

  lemma UnlinkCycle(s: Heap, j: nat)
    requires Inv(s) && 0 < j < |s.list|
    ensures Cycle(Unlink(s, j)) && Coalesced(Unlink(s, j))
  {
    hide Partition, Linked, Block, Gap, Coalesced;
    var t := Unlink(s, j);
    forall i | 0 <= i < |t.list|
      ensures t.list[i] == s.list[Before(i, j)] && Linked(t, i) && t.mem[t.list[i]].size == s.mem[t.list[i]].size
    {
      assert Linked(s, Before(i, j)) && Linked(s, j);
      UnlinkAt(s, j, i);
    }
    UnlinkGaps(s, j);
  }

  lemma UnlinkGaps(s: Heap, j: nat)
    requires Inv(s) && 0 < j < |s.list|
    requires var t := Unlink(s, j);
             forall i :: 0 <= i < |t.list| ==>
               t.list[i] == s.list[Before(i, j)] && t.mem[t.list[i]].size == s.mem[t.list[i]].size
    ensures Coalesced(Unlink(s, j))
  {
    hide Partition, Linked, Block;
    var t := Unlink(s, j);
    forall i | 0 < i < |t.list| - 1
      ensures Gap(t, i)
    {
      BlocksApart(s, Before(i, j), Before(i + 1, j));
    }
  }

  /** Sizes and owners as before: the same addresses are blocks. */
  lemma SameBlocks(s: Heap, t: Heap)
    requires |t.mem| == |s.mem| && t.owner == s.owner
    requires forall u :: 0 <= u < |s.mem| ==> t.mem[u].size == s.mem[u].size
    ensures forall h :: Block(s.mem, s.owner, h) <==> Block(t.mem, t.owner, h)
  {
  }

  lemma UnlinkPartition(s: Heap, j: nat)
    requires Inv(s) && 0 < j < |s.list| && Cycle(Unlink(s, j))
    ensures Partition(Unlink(s, j))
  {
    UnlinkMembers(s, j);
    SameBlocks(s, Unlink(s, j));
    hide Block, Linked, Coalesced;
  }

  lemma UnlinkUnits(s: Heap, j: nat)
    requires Inv(s) && 0 < j < |s.list|
    ensures var t := Unlink(s, j);
            FreeUnits(t) == FreeUnits(s) - UnitsOf(s, s.list[j]) && DataKept(s, t, 0)
  {
    OutsideData(s, s.list[j - 1]);
    hide Block, Linked, Coalesced;
  }

  lemma UnlinkKeeps(s: Heap, j: nat)
    requires Inv(s) && 0 < j < |s.list|
    ensures var t := Unlink(s, j);
            && Inv(t) && FreeUnits(t) == FreeUnits(s) - UnitsOf(s, s.list[j]) && DataKept(s, t, 0)
  {
    InvFacts(s);
    UnlinkCycle(s, j);
    UnlinkPartition(s, j);
    hide Cycle, Coalesced, Partition, DataKept, FreeUnits, UnitsOf;
    UnlinkUnits(s, j);
  }

  /** No unit of an allocated block is the header of a free one. */
  lemma OutsideData(s: Heap, f: nat)
    requires Inv(s) && f in s.list && f < |s.owner|
    ensures s.owner[f] !in s.alloc
  {
    var k :| 0 <= k < |s.list| && s.list[k] == f;
    if k > 0 {
      assert Block(s.mem, s.owner, f);
    }
  }

  function Reown(owner: seq<nat>, a: nat, b: nat): (r: seq<nat>)
    ensures |r| == |owner|
  {
    seq(|owner|, u requires 0 <= u < |owner| => if owner[u] == b then a else owner[u])
  }

  /** Two allocated blocks that touch become one. */
  ghost function Join(s: Heap, a: nat, b: nat): Heap
    requires a < |s.mem| && b < |s.mem|
  {
    Heap(s.mem[a := s.mem[a].(size := s.mem[a].size + s.mem[b].size)], s.list, Reown(s.owner, a, b), s.alloc - {b})
  }

  lemma JoinKeeps(s: Heap, a: nat, b: nat)
    requires Inv(s) && a in s.alloc && b in s.alloc && a < |s.mem| && b < |s.mem|
    requires a + s.mem[a].size == b
    ensures var t := Join(s, a, b);
            && Inv(t) && FreeUnits(t) == FreeUnits(s) && UnitsOf(t, a) == UnitsOf(s, a) + UnitsOf(s, b)
            && AllUnits(t) == AllUnits(s)
  {
    hide Cycle, Coalesced;
    var t := Join(s, a, b);
    JoinBlocks(s, a, b);
    JoinCycle(s, a, b);
    assert UnitsOf(s, a) + UnitsOf(s, b) == UnitsOf(t, a);
  }

  lemma JoinBlocks(s: Heap, a: nat, b: nat)
    requires a < |s.mem| && b < |s.mem| && Block(s.mem, s.owner, a) && Block(s.mem, s.owner, b)
    requires a + s.mem[a].size == b
    ensures var t := Join(s, a, b);
            && Block(t.mem, t.owner, a)
            && forall h :: Block(s.mem, s.owner, h) && h != a && h != b ==> Block(t.mem, t.owner, h)
  {
  }

  lemma JoinData(s: Heap, a: nat, b: nat)
    requires |s.owner| == |s.mem| && a in s.alloc && a < |s.mem| && b < |s.mem| && s.owner[a] == a
    ensures forall u :: 0 <= u < |s.mem| && s.owner[u] in s.alloc && s.owner[u] != a && s.owner[u] != b ==>
              var t := Join(s, a, b); t.mem[u] == s.mem[u] && t.owner[u] == s.owner[u] && t.owner[u] in t.alloc
  {
  }

  lemma JoinCycle(s: Heap, a: nat, b: nat)
    requires Inv(s) && a in s.alloc && b in s.alloc && a < |s.mem| && b < |s.mem|
    ensures Cycle(Join(s, a, b)) && Coalesced(Join(s, a, b))
  {
    var t := Join(s, a, b);
    forall i | 0 <= i < |s.list|
      ensures Linked(t, i) && (0 < i < |s.list| - 1 ==> Gap(t, i))
    {
      assert Linked(s, i) && s.list[i] != a;
      assert 0 < i < |s.list| - 1 ==> Gap(s, i);
    }
    assert a != BASE by {
      assert Block(s.mem, s.owner, a);
    }
  }

  /** An allocated block that touches no free one enters the list after position i. */
  ghost function Insert(s: Heap, h: nat, i: nat): Heap
    requires i < |s.list| && s.list[i] < |s.mem| && h < |s.mem|
  {
    Heap(s.mem[h := s.mem[h].(ptr := s.mem[s.list[i]].ptr)][s.list[i] := s.mem[s.list[i]].(ptr := h)],
         s.list[..i + 1] + [h] + s.list[i + 1..], s.owner, s.alloc - {h})
  }

  ghost predicate Fits(s: Heap, h: nat, i: nat) {
    && h in s.alloc && i < |s.list| && s.list[i] < |s.mem| && h < |s.mem|
    && s.list[i] < h && (0 < i ==> s.list[i] + s.mem[s.list[i]].size < h)
    && (i + 1 < |s.list| ==> h + s.mem[h].size < s.list[i + 1])
  }

  lemma InsertAt(s: Heap, h: nat, i: nat, k: nat)
    requires Fits(s, h, i) && h !in s.list && k <= |s.list| && Linked(s, i)
    requires k != i + 1 ==> Linked(s, if k <= i then k else k - 1)
    requires k != i && k != i + 1 ==> s.list[if k <= i then k else k - 1] != s.list[i]
    ensures var t := Insert(s, h, i);
            && t.list[k] == (if k <= i then s.list[k] else if k == i + 1 then h else s.list[k - 1])
            && Linked(t, k) && t.mem[t.list[k]].size == s.mem[t.list[k]].size
  {
    var t := Insert(s, h, i);
    if k < i {
      assert t.list[k + 1] == s.list[k + 1];
    } else if k == i {
      assert t.list[k + 1] == h;
    } else if k == i + 1 {
      assert k < |s.list| ==> t.list[k + 1] == s.list[i + 1];
    } else {
      assert k < |s.list| ==> t.list[k + 1] == s.list[k];
    }
  }

  lemma InsertMembers(s: Heap, h: nat, i: nat)
    requires Fits(s, h, i)
    ensures forall b :: b in Insert(s, h, i).list <==> b in s.list || b == h
  {
    var t := Insert(s, h, i);
    forall x | x in s.list
      ensures x in t.list
    {
      var k :| 0 <= k < |s.list| && s.list[k] == x;
      assert t.list[if k <= i then k else k + 1] == x;
    }
    assert t.list[i + 1] == h;
  }

  lemma InsertOne(s: Heap, h: nat, i: nat, k: nat)
    requires Cycle(s) && Fits(s, h, i) && h !in s.list && k <= |s.list|
    ensures var t := Insert(s, h, i);
            && |t.list| == |s.list| + 1 && |t.mem| == |s.mem|
            && t.list[k] == (if k <= i then s.list[k] else if k == i + 1 then h else s.list[k - 1])
            && t.list[k] < |s.mem| && Linked(t, k) && t.mem[t.list[k]].size == s.mem[t.list[k]].size
  {
    hide Linked;
    assert Linked(s, i) && (k != i + 1 ==> Linked(s, if k <= i then k else k - 1));
    InsertAt(s, h, i, k);
  }

  lemma InsertAll(s: Heap, h: nat, i: nat)
    requires Cycle(s) && Fits(s, h, i) && h !in s.list
    ensures var t := Insert(s, h, i);
            && |t.mem| == |s.mem| && |t.list| == |s.list| + 1
            && forall k :: 0 <= k < |t.list| ==>
                 && t.list[k] == (if k <= i then s.list[k] else if k == i + 1 then h else s.list[k - 1])
                 && t.list[k] < |s.mem| && Linked(t, k) && t.mem[t.list[k]].size == s.mem[t.list[k]].size
  {
    InsertOne(s, h, i, 0);
    assert i < |s.list| && s.list[i] < |s.mem| && h < |s.mem|;
    hide Cycle, Fits, Linked, Insert;
    var t := Insert(s, h, i);
    forall k | 0 <= k < |t.list|
      ensures && t.list[k] == (if k <= i then s.list[k] else if k == i + 1 then h else s.list[k - 1])
              && t.list[k] < |s.mem| && Linked(t, k) && t.mem[t.list[k]].size == s.mem[t.list[k]].size
    {
      InsertOne(s, h, i, k);
    }
  }

  lemma InsertLinks(s: Heap, h: nat, i: nat)
    requires Inv(s) && Fits(s, h, i) && h !in s.list
    ensures var t := Insert(s, h, i);
            InMemory(t) && (forall k :: 0 <= k < |t.list| ==> Linked(t, k)) && Coalesced(t)
  {
    hide Linked, Partition, Gap, Coalesced, Insert;
    assert Cycle(s) && InMemory(s) && Coalesced(s);
    hide Inv, Fits, Cycle;
    InsertAll(s, h, i);
    InsertGaps(s, h, i);
    LinkedInMemory(Insert(s, h, i));
  }

  lemma LinkedInMemory(s: Heap)
    requires forall k :: 0 <= k < |s.list| ==> Linked(s, k)
    ensures InMemory(s)
  {
    forall k | 0 <= k < |s.list| ensures s.list[k] < |s.mem| {
      assert Linked(s, k);
    }
  }

  lemma InsertBase(s: Heap, h: nat, i: nat)
    requires Inv(s) && Fits(s, h, i) && h !in s.list
    ensures var t := Insert(s, h, i);
            t.list != [] && t.list[0] == BASE && BASE < |t.mem| && t.mem[BASE].size == 0
  {
    hide Linked, Partition, Coalesced;
  }

  lemma InsertCycle(s: Heap, h: nat, i: nat)
    requires Inv(s) && Fits(s, h, i) && h !in s.list
    ensures Cycle(Insert(s, h, i)) && Coalesced(Insert(s, h, i))
  {
    InsertSorted(s, h, i);
    assert Insert(s, h, i).list == s.list[..i + 1] + [h] + s.list[i + 1..];
    hide Inv, Fits, Linked, Coalesced, Insert;
    InsertLinks(s, h, i);
    InsertBase(s, h, i);
  }

  lemma InsertGaps(s: Heap, h: nat, i: nat)
    requires Coalesced(s) && InMemory(s) && Fits(s, h, i)
    requires var t := Insert(s, h, i);
             forall k :: 0 <= k < |t.list| ==>
               && t.list[k] == (if k <= i then s.list[k] else if k == i + 1 then h else s.list[k - 1])
               && t.mem[t.list[k]].size == s.mem[t.list[k]].size
    ensures Coalesced(Insert(s, h, i))
  {
    var t := Insert(s, h, i);
    forall k | 0 < k < |t.list| - 1
      ensures Gap(t, k)
    {
      if k < i {
        assert Gap(s, k);
      } else if k > i + 1 {
        assert Gap(s, k - 1);
      }
    }
  }

  lemma InsertSorted(s: Heap, h: nat, i: nat)
    requires Cycle(s) && Fits(s, h, i)
    ensures var l := s.list[..i + 1] + [h] + s.list[i + 1..]; forall j, k :: 0 <= j < k < |l| ==> l[j] < l[k]
  {
  }

  lemma InsertPartition(s: Heap, h: nat, i: nat)
    requires Inv(s) && Fits(s, h, i) && Cycle(Insert(s, h, i))
    ensures Partition(Insert(s, h, i))
  {
    InsertMembers(s, h, i);
    SameBlocks(s, Insert(s, h, i));
    hide Block, Linked, Coalesced;
  }

  lemma InsertUnits(s: Heap, h: nat, i: nat)
    requires Inv(s) && Fits(s, h, i)
    ensures var t := Insert(s, h, i);
            FreeUnits(t) == FreeUnits(s) + UnitsOf(s, h) && DataKept(s, t, h) && AllUnits(t) == AllUnits(s)
  {
    OutsideData(s, s.list[i]);
    AllocatedOwn(s, h);
    hide Block, Linked, Coalesced;
  }

  lemma InsertKeeps(s: Heap, h: nat, i: nat)
    requires Inv(s) && Fits(s, h, i)
    ensures var t := Insert(s, h, i);
            && Inv(t) && FreeUnits(t) == FreeUnits(s) + UnitsOf(s, h) && DataKept(s, t, h)
            && AllUnits(t) == AllUnits(s)
  {
    hide Cycle, Coalesced, DataKept, FreeUnits, UnitsOf, AllUnits, Block;
    InvFacts(s);
    InsertCycle(s, h, i);
    InsertPartition(s, h, i);
    hide Partition;
    InsertUnits(s, h, i);
  }

  lemma AllocatedOwn(s: Heap, h: nat)
    requires Inv(s) && h in s.alloc
    ensures h < |s.owner| && s.owner[h] == h && h != 0
  {
    assert Block(s.mem, s.owner, h);
  }

  /** Pointers in headers that are not in the list mean nothing. */
  lemma StalePointer(s: Heap, c: nat, x: nat)
    requires Inv(s) && c !in s.list && c < |s.mem|
    ensures var t := s.(mem := s.mem[c := s.mem[c].(ptr := x)]);
            Inv(t) && FreeUnits(t) == FreeUnits(s) && AllUnits(t) == AllUnits(s)
  {
    hide Block;
    var t := s.(mem := s.mem[c := s.mem[c].(ptr := x)]);
    SameBlocks(s, t);
    forall i | 0 <= i < |s.list|
      ensures Linked(t, i) && (0 < i < |s.list| - 1 ==> Gap(t, i))
    {
      assert Linked(s, i);
      assert 0 < i < |s.list| - 1 ==> Gap(s, i);
    }
  }

  /** The tail of the j-th block, n units, becomes an allocated block. */
  ghost function Carve(s: Heap, j: nat, n: nat): Heap
    requires j < |s.list| && s.list[j] < |s.mem| && n <= s.mem[s.list[j]].size
    requires s.list[j] + s.mem[s.list[j]].size <= |s.mem| && 0 < n
  {
    var p := s.list[j];
    var tail := p + s.mem[p].size - n;
    Heap(s.mem[p := s.mem[p].(size := s.mem[p].size - n)][tail := s.mem[tail].(size := n)], s.list,
         seq(|s.owner|, u requires 0 <= u < |s.owner| => if tail <= u < tail + n then tail else s.owner[u]),
         s.alloc + {tail})
  }

  /** Every owner is a block, so an address inside a block owns nothing. */
  lemma OwnersAreBlocks(s: Heap, u: nat)
    requires Inv(s) && u < |s.owner| && s.owner[u] != 0
    ensures Block(s.mem, s.owner, s.owner[u])
  {
    if s.owner[u] !in s.alloc {
      var k :| 0 <= k < |s.list| && s.list[k] == s.owner[u];
    }
  }

  lemma CarveBlocks(s: Heap, j: nat, n: nat)
    requires Inv(s) && 0 < j < |s.list| && Block(s.mem, s.owner, s.list[j]) && 0 < n < s.mem[s.list[j]].size
    ensures var t := Carve(s, j, n); var p := s.list[j]; var tail := p + s.mem[p].size - n;
            && Block(t.mem, t.owner, p) && Block(t.mem, t.owner, tail)
            && forall h :: Block(s.mem, s.owner, h) && h != p ==> Block(t.mem, t.owner, h) && h != tail
  {
    hide Inv;
    var p := s.list[j];
    var t, tail := Carve(s, j, n), p + s.mem[p].size - n;
    assert s.owner[tail] == p;
    forall u | 0 <= u < |s.owner|
      ensures s.owner[u] != tail
    {
      if s.owner[u] != 0 {
        OwnersAreBlocks(s, u);
      }
    }
    assert Block(t.mem, t.owner, p);
    assert Block(t.mem, t.owner, tail);
    forall h: nat | Block(s.mem, s.owner, h) && h != p ensures Block(t.mem, t.owner, h) && h != tail {
      assert s.owner[h] == h;
    }
  }

  lemma CarveKeeps(s: Heap, j: nat, n: nat)
    requires Inv(s) && 0 < j < |s.list| && 0 < n < s.mem[s.list[j]].size
    ensures Block(s.mem, s.owner, s.list[j])
    ensures var t := Carve(s, j, n); var tail := s.list[j] + s.mem[s.list[j]].size - n;
            && Inv(t) && FreeUnits(t) == FreeUnits(s) - UnitsOf(t, tail) && UnitsOf(t, tail) <= FreeUnits(s)
            && AllUnits(t) == AllUnits(s) && tail !in s.alloc
  {
    assert Block(s.mem, s.owner, s.list[j]);
    var t := Carve(s, j, n);
    var tail := s.list[j] + s.mem[s.list[j]].size - n;
    CarveBlocks(s, j, n);
    assert s.owner[tail] == s.list[j];
    CarveLinks(s, j, n);
    hide Block, Linked, Gap;
    assert Cycle(t);
    assert Partition(t);
  }

  lemma CarveLinks(s: Heap, j: nat, n: nat)
    requires Inv(s) && 0 < j < |s.list| && 0 < n < s.mem[s.list[j]].size && Block(s.mem, s.owner, s.list[j])
    ensures var t := Carve(s, j, n);
            && (forall i :: 0 <= i < |s.list| ==> Linked(t, i))
            && (forall i :: 0 < i < |s.list| - 1 ==> Gap(t, i))
            && t.mem[BASE].size == 0
            && s.list[j] + s.mem[s.list[j]].size - n !in s.list
  {
    var t := Carve(s, j, n);
    var tail := s.list[j] + s.mem[s.list[j]].size - n;
    forall i | 0 <= i < |s.list|
      ensures Linked(t, i) && s.list[i] != tail && (0 < i < |s.list| - 1 ==> Gap(t, i))
    {
      assert Linked(s, i);
      assert s.owner[tail] == s.list[j];
      assert 0 < i ==> Block(s.mem, s.owner, s.list[i]);
      assert 0 < i < |s.list| - 1 ==> Gap(s, i);
    }
  }

  lemma CarveData(s: Heap, j: nat, n: nat)
    requires Inv(s) && 0 < j < |s.list| && 0 < n < s.mem[s.list[j]].size && Block(s.mem, s.owner, s.list[j])
    ensures DataKept(s, Carve(s, j, n), 0)
  {
    var tail := s.list[j] + s.mem[s.list[j]].size - n;
    assert forall u :: tail <= u < tail + n ==> s.owner[u] == s.list[j];
    assert s.owner[s.list[j]] == s.list[j];
  }

  /** sbrk: nu units at the new end of memory, as one allocated block; a gap may lie before. */
  ghost function Obtain(s: Heap, gap: seq<Header>, block: seq<Header>): Heap {
    var hp := |s.mem| + |gap|;
    Heap(s.mem + gap + block, s.list,
         s.owner + seq(|gap|, _ => 0) + seq(|block|, _ => hp), s.alloc + {hp})
  }

  lemma ObtainKeeps(s: Heap, gap: seq<Header>, block: seq<Header>)
    requires Inv(s) && block != [] && block[0].size == |block|
    ensures var t := Obtain(s, gap, block); var hp := |s.mem| + |gap|;
            && Inv(t) && FreeUnits(t) == FreeUnits(s) && DataKept(s, t, 0)
            && (forall u :: 0 <= u < |t.owner| ==> (t.owner[u] == hp <==> hp <= u))
            && AllUnits(t) == AllUnits(s) + UnitsOf(t, hp) && hp !in s.alloc
  {
    ObtainCycle(s, gap, block);
    ObtainBlocks(s, gap, block);
    ObtainPartition(s, gap, block);
    hide Block, Cycle, Coalesced, Partition, DataKept;
    ObtainUnits(s, gap, block);
  }

  lemma ObtainPartition(s: Heap, gap: seq<Header>, block: seq<Header>)
    requires Inv(s) && block != [] && block[0].size == |block| && Cycle(Obtain(s, gap, block))
    ensures Partition(Obtain(s, gap, block))
  {
    ObtainCycle(s, gap, block);
    ObtainBlocks(s, gap, block);
    hide Block, Linked, Coalesced;
    var t, hp := Obtain(s, gap, block), |s.mem| + |gap|;
    assert forall u :: 0 <= u < |s.owner| ==> t.owner[u] == s.owner[u];
    assert forall u :: |s.owner| <= u < hp ==> t.owner[u] == 0;
  }

  lemma ObtainUnits(s: Heap, gap: seq<Header>, block: seq<Header>)
    requires Inv(s) && block != [] && block[0].size == |block|
    ensures var t := Obtain(s, gap, block); var hp := |s.mem| + |gap|;
            && FreeUnits(t) == FreeUnits(s) && DataKept(s, t, 0)
            && (forall u :: 0 <= u < |t.owner| ==> (t.owner[u] == hp <==> hp <= u))
            && AllUnits(t) == AllUnits(s) + UnitsOf(t, hp) && hp !in s.alloc
  {
    ObtainCycle(s, gap, block);
    ObtainBlocks(s, gap, block);
    hide Block, Cycle, Coalesced;
    var t, hp := Obtain(s, gap, block), |s.mem| + |gap|;
    assert forall u :: 0 <= u < |s.owner| ==> t.owner[u] == s.owner[u];
    assert forall u :: |s.owner| <= u < hp ==> t.owner[u] == 0;
  }

  lemma ObtainBlocks(s: Heap, gap: seq<Header>, block: seq<Header>)
    requires Inv(s) && block != [] && block[0].size == |block|
    ensures var t := Obtain(s, gap, block); var hp := |s.mem| + |gap|;
            && Block(t.mem, t.owner, hp) && (forall u :: 0 <= u < |s.owner| ==> s.owner[u] < |s.mem|)
            && forall h :: Block(s.mem, s.owner, h) ==> Block(t.mem, t.owner, h) && h != hp
  {
    assert BASE < |s.mem|;
    forall u | 0 <= u < |s.owner|
      ensures s.owner[u] < |s.mem|
    {
      if s.owner[u] != 0 {
        OwnersAreBlocks(s, u);
      }
    }
    hide Inv;
  }

  lemma ObtainCycle(s: Heap, gap: seq<Header>, block: seq<Header>)
    requires Inv(s)
    ensures Cycle(Obtain(s, gap, block)) && Coalesced(Obtain(s, gap, block)) && |s.mem| + |gap| !in s.list
    ensures |s.mem| + |gap| !in s.alloc
  {
    var t := Obtain(s, gap, block);
    forall i | 0 <= i < |s.list|
      ensures Linked(t, i) && (0 < i < |s.list| - 1 ==> Gap(t, i)) && t.mem[s.list[i]] == s.mem[s.list[i]]
    {
      assert Linked(s, i);
      assert 0 < i < |s.list| - 1 ==> Gap(s, i);
    }
  }

  // ---- free -------------------------------------------------------------------------------

  /** What free writes once it has found p, the list member before bp. */
  function FreeLinks(mem: seq<Header>, p: nat, bp: nat): (m: seq<Header>)
    requires p < |mem| && bp < |mem| && mem[p].ptr < |mem|
  {
    var next := mem[p].ptr;
    var m := if bp + mem[bp].size == next
             then mem[bp := Header(mem[next].ptr, mem[bp].size + mem[next].size)]
             else mem[bp := mem[bp].(ptr := next)];
    if p + m[p].size == bp
    then m[p := Header(m[bp].ptr, m[p].size + m[bp].size)]
    else m[p := m[p].(ptr := bp)]
  }

  /** bp belongs right behind position t. */
  ghost predicate Between(s: Heap, bp: nat, t: nat) {
    t < |s.list| && s.list[t] < bp && (t + 1 < |s.list| ==> bp < s.list[t + 1])
  }

  lemma NoZero(s: Heap)
    requires Inv(s)
    ensures 0 !in s.alloc
  {
    assert !Block(s.mem, s.owner, 0);
  }

  lemma FreeBlockUnits(s: Heap, j: nat)
    requires Inv(s) && 0 < j < |s.list|
    ensures UnitsOf(s, s.list[j]) <= FreeUnits(s)
  {
    assert Block(s.mem, s.owner, s.list[j]);
  }

  /** First half: a free block right behind bp is merged into it. */
  ghost function MergeNext(s: Heap, bp: nat, t: nat): (r: Heap)
    requires InMemory(s) && bp < |s.mem| && t < |s.list|
    ensures |r.mem| == |s.mem| && InMemory(r) && t < |r.list| && r.list[..t + 1] == s.list[..t + 1]
  {
    if t + 1 < |s.list| && bp + s.mem[bp].size == s.list[t + 1]
    then Join(Unlink(s, t + 1), bp, s.list[t + 1]) else s
  }

  /** Second half: the block joins its free predecessor, or enters the list. */
  ghost function Settle(r: Heap, bp: nat, t: nat): (e: Heap)
    requires InMemory(r) && bp < |r.mem| && t < |r.list|
    requires r.list[t] + r.mem[r.list[t]].size == bp ==> 0 < t
    ensures |e.mem| == |r.mem|
  {
    if r.list[t] + r.mem[r.list[t]].size == bp
    then Insert(Join(Unlink(r, t), r.list[t], bp), r.list[t], t - 1)
    else Insert(r, bp, t)
  }

  /** Disjoint blocks: the one that starts first ends first. */
  lemma EndsBefore(s: Heap, a: nat, b: nat)
    requires Block(s.mem, s.owner, a) && Block(s.mem, s.owner, b) && a < b
    ensures a + s.mem[a].size <= b
  {
    assert s.owner[b] == b;
  }

  ghost predicate Merged(s: Heap, bp: nat, t: nat, r: Heap) {
    && Inv(r) && bp in r.alloc && Between(r, bp, t) && bp < |r.mem| && r.alloc == s.alloc
    && (t + 1 < |r.list| ==> bp + r.mem[bp].size < r.list[t + 1])
    && FreeUnits(r) + UnitsOf(r, bp) == FreeUnits(s) + UnitsOf(s, bp)
    && AllUnits(r) == AllUnits(s) && DataKept(s, r, bp)
  }

  lemma MergeNextKeeps(s: Heap, bp: nat, t: nat)
    requires Inv(s) && bp in s.alloc && Between(s, bp, t) && bp < |s.mem|
    ensures Merged(s, bp, t, MergeNext(s, bp, t))
  {
    hide Linked, Gap;
    assert Block(s.mem, s.owner, bp);
    if t + 1 < |s.list| {
      assert Block(s.mem, s.owner, s.list[t + 1]);
      EndsBefore(s, bp, s.list[t + 1]);
      if bp + s.mem[bp].size == s.list[t + 1] {
        MergeNextJoins(s, bp, t);
      }
    }
  }

  lemma MergeNextJoins(s: Heap, bp: nat, t: nat)
    requires Inv(s) && bp in s.alloc && Between(s, bp, t) && bp < |s.mem|
    requires t + 1 < |s.list| && bp + s.mem[bp].size == s.list[t + 1]
    ensures Merged(s, bp, t, MergeNext(s, bp, t))
  {
    hide Linked, Gap, Block;
    var next := s.list[t + 1];
    var u := Unlink(s, t + 1);
    UnlinkKeeps(s, t + 1);
    AllocatedOwn(s, bp);
    JoinKeeps(u, bp, next);
    JoinData(u, bp, next);
    NoZero(s);
    assert UnitsOf(u, bp) == UnitsOf(s, bp) && UnitsOf(u, next) == UnitsOf(s, next);
    FreeBlockUnits(s, t + 1);
    assert u.mem[bp].size == s.mem[bp].size && u.mem[next].size == s.mem[next].size;
    if t + 2 < |s.list| {
      BlocksApart(s, t + 1, t + 2);
      assert u.list[t + 1] == s.list[t + 2];
    }
  }

  ghost predicate Settled(r: Heap, bp: nat, t: nat, e: Heap)
    requires t < |r.list|
  {
    && Inv(e) && r.list[t] in e.list && e.alloc == r.alloc - {bp}
    && FreeUnits(e) == FreeUnits(r) + UnitsOf(r, bp) && AllUnits(e) == AllUnits(r)
    && DataKept(r, e, bp)
  }

  /** Block bp and the free block p in front of it have become one allocated block. */
  ghost predicate Absorbed(r: Heap, bp: nat, p: nat, v: Heap) {
    && Inv(v) && p in v.alloc && p < |v.mem| && v.alloc - {p} == r.alloc - {bp}
    && FreeUnits(v) + UnitsOf(v, p) == FreeUnits(r) + UnitsOf(r, bp) && AllUnits(v) == AllUnits(r)
    && |r.owner| == |r.mem| <= |v.mem| && |v.owner| == |v.mem|
    && forall u :: 0 <= u < |r.mem| && r.owner[u] in r.alloc && r.owner[u] != bp ==>
         v.mem[u] == r.mem[u] && v.owner[u] == r.owner[u] && v.owner[u] in v.alloc && v.owner[u] != p
  }

  lemma Absorbs(r: Heap, bp: nat, t: nat)
    requires Inv(r) && bp in r.alloc && bp < |r.mem| && 0 < t < |r.list| && InMemory(r)
    requires r.list[t] + r.mem[r.list[t]].size == bp
    ensures Absorbed(r, bp, r.list[t], Join(Unlink(r, t), r.list[t], bp))
  {
    hide Linked, Gap, Block, Coalesced;
    var p := r.list[t];
    var u := Unlink(r, t);
    InvFacts(r);
    assert u.mem[p].size == r.mem[p].size && u.mem[bp].size == r.mem[bp].size && u.owner == r.owner;
    assert u.alloc == r.alloc + {p} && p !in r.alloc && p < |r.mem|;
    FreeBlockUnits(r, t);
    UnlinkKeeps(r, t);
    assert UnitsOf(u, bp) == UnitsOf(r, bp) && UnitsOf(u, p) == UnitsOf(r, p);
    hide Inv, Unlink;
    AllocatedOwn(u, p);
    JoinKeeps(u, p, bp);
    JoinData(u, p, bp);
  }

  lemma SettleJoins(r: Heap, bp: nat, t: nat)
    requires Inv(r) && bp in r.alloc && Between(r, bp, t) && bp < |r.mem|
    requires t + 1 < |r.list| ==> bp + r.mem[bp].size < r.list[t + 1]
    requires 0 < t && r.list[t] + r.mem[r.list[t]].size == bp
    ensures Settled(r, bp, t, Settle(r, bp, t))
  {
    InvFacts(r);
    Absorbs(r, bp, t);
    JoinFits(r, bp, t);
    hide Inv, Fits, Join, Unlink, Between;
    var p, v := r.list[t], Join(Unlink(r, t), r.list[t], bp);
    InsertKeeps(v, p, t - 1);
    InsertMembers(v, p, t - 1);
    InsertAlloc(v, p, t - 1);
    hide Insert;
  }

  lemma InsertAlloc(s: Heap, h: nat, i: nat)
    requires Fits(s, h, i)
    ensures Insert(s, h, i).alloc == s.alloc - {h}
  {
  }

  lemma JoinFits(r: Heap, bp: nat, t: nat)
    requires Inv(r) && bp in r.alloc && Between(r, bp, t) && bp < |r.mem|
    requires t + 1 < |r.list| ==> bp + r.mem[bp].size < r.list[t + 1]
    requires 0 < t && r.list[t] + r.mem[r.list[t]].size == bp
    ensures Fits(Join(Unlink(r, t), r.list[t], bp), r.list[t], t - 1)
  {
    hide Linked, Gap, Block, Partition;
    var v := Join(Unlink(r, t), r.list[t], bp);
    assert v.list[t - 1] == r.list[t - 1] && (t < |v.list| ==> v.list[t] == r.list[t + 1]);
    if 0 < t - 1 {
      BlocksApart(r, t - 1, t);
      assert v.mem[v.list[t - 1]].size == r.mem[r.list[t - 1]].size;
    }
  }

  lemma SettleKeeps(r: Heap, bp: nat, t: nat)
    requires Inv(r) && bp in r.alloc && Between(r, bp, t) && bp < |r.mem|
    requires t + 1 < |r.list| ==> bp + r.mem[bp].size < r.list[t + 1]
    ensures r.list[t] + r.mem[r.list[t]].size == bp ==> 0 < t
    ensures Settled(r, bp, t, Settle(r, bp, t))
  {
    hide Linked, Gap;
    assert Block(r.mem, r.owner, bp);
    if 0 < t {
      assert Block(r.mem, r.owner, r.list[t]);
      EndsBefore(r, r.list[t], bp);
    }
    if r.list[t] + r.mem[r.list[t]].size == bp {
      SettleJoins(r, bp, t);
    } else {
      assert Fits(r, bp, t);
      InsertKeeps(r, bp, t);
      InsertMembers(r, bp, t);
    }
  }

  /** The two halves write what free writes, up to the pointer of a merged header. */
  lemma FreeWrites(s: Heap, bp: nat, t: nat)
    requires InMemory(s) && bp < |s.mem| && t < |s.list| && s.list[t] < bp && bp !in s.list
    requires Linked(s, t) && (t + 1 < |s.list| ==> Linked(s, t + 1) && s.list[t] < s.list[t + 1])
    requires 0 < t ==> Linked(s, t - 1) && s.list[t - 1] < s.list[t]
    requires t + 1 == |s.list| ==> s.list[0] < bp
    requires s.list[t] + s.mem[s.list[t]].size == bp ==> 0 < t
    ensures s.mem[s.list[t]].ptr < |s.mem|
    ensures var r := MergeNext(s, bp, t); var p := s.list[t];
            && r.list[t] == p && r.mem[p].size == s.mem[p].size
            && var e := Settle(r, bp, t); var m := FreeLinks(s.mem, p, bp);
            m == if p + s.mem[p].size == bp then e.mem[bp := e.mem[bp].(ptr := m[bp].ptr)] else e.mem
  {
    var r := MergeNext(s, bp, t);
    MergeWrites(s, bp, t);
    MergePlaces(s, bp, t);
    NextApart(s, bp, t);
    hide MergeNext, Settle, FreeLinks, Linked;
    SettleWrites(r, bp, t);
    SameWrites(s.mem, r.mem, Settle(r, bp, t).mem, s.list[t], bp);
  }

  /** Merging with the next block leaves the list and the links up to bp. */
  lemma MergePlaces(s: Heap, bp: nat, t: nat)
    requires InMemory(s) && bp < |s.mem| && t < |s.list| && s.list[t] < bp && bp !in s.list
    requires Linked(s, t) && (t + 1 < |s.list| ==> Linked(s, t + 1) && s.list[t] < s.list[t + 1])
    requires 0 < t ==> Linked(s, t - 1) && s.list[t - 1] < s.list[t]
    requires t + 1 == |s.list| ==> s.list[0] < bp
    ensures var r := MergeNext(s, bp, t);
            && InMemory(r) && t < |r.list| && r.list[t] == s.list[t] && r.mem[r.list[t]].size == s.mem[s.list[t]].size
            && (0 < t ==> r.list[t - 1] == s.list[t - 1] && r.mem[r.list[t - 1]].ptr == r.list[t])
  {
    var r := MergeNext(s, bp, t);
    MergeWrites(s, bp, t);
    assert r.list[t] == r.list[..t + 1][t] == s.list[t];
    if 0 < t {
      assert r.list[t - 1] == r.list[..t + 1][t - 1] == s.list[t - 1];
    }
    hide MergeNext;
  }

  /** The successor of position t is neither bp nor in front of it. */
  lemma NextApart(s: Heap, bp: nat, t: nat)
    requires InMemory(s) && bp < |s.mem| && t < |s.list| && s.list[t] < bp && bp !in s.list && Linked(s, t)
    requires t + 1 < |s.list| ==> s.list[t] < s.list[t + 1]
    requires t + 1 == |s.list| ==> s.list[0] < bp
    ensures var next := s.mem[s.list[t]].ptr;
            next < |s.mem| && next != bp && (s.list[t] != next || bp + s.mem[bp].size != next)
  {
  }

  lemma SettleWrites(r: Heap, bp: nat, t: nat)
    requires InMemory(r) && bp < |r.mem| && t < |r.list| && r.list[t] != bp
    requires r.list[t] + r.mem[r.list[t]].size == bp ==> 0 < t
    requires 0 < t ==> r.list[t - 1] != r.list[t] && r.mem[r.list[t - 1]].ptr == r.list[t] && r.list[t - 1] != bp
    ensures var e := Settle(r, bp, t); var p := r.list[t];
            e.mem == if p + r.mem[p].size == bp
                     then r.mem[p := Header(r.mem[p].ptr, r.mem[p].size + r.mem[bp].size)]
                     else r.mem[bp := Header(r.mem[p].ptr, r.mem[bp].size)][p := Header(bp, r.mem[p].size)]
  {
    if r.list[t] + r.mem[r.list[t]].size == bp {
      assert Unlink(r, t).list[t - 1] == r.list[t - 1];
    }
  }

  lemma SameWrites(m: seq<Header>, r: seq<Header>, e: seq<Header>, p: nat, bp: nat)
    requires |m| == |r| == |e| && p < |m| && bp < |m| && p != bp && m[p].ptr < |m| && m[p].ptr != bp
    requires p != m[p].ptr || bp + m[bp].size != m[p].ptr
    requires r == if bp + m[bp].size == m[p].ptr
                  then m[p := Header(m[m[p].ptr].ptr, m[p].size)][bp := Header(m[bp].ptr, m[bp].size + m[m[p].ptr].size)]
                  else m
    requires e == if p + r[p].size == bp
                  then r[p := Header(r[p].ptr, r[p].size + r[bp].size)]
                  else r[bp := Header(r[p].ptr, r[bp].size)][p := Header(bp, r[p].size)]
    ensures var f := FreeLinks(m, p, bp);
            f == if p + m[p].size == bp then e[bp := e[bp].(ptr := f[bp].ptr)] else e
  {
  }

  lemma MergeWrites(s: Heap, bp: nat, t: nat)
    requires InMemory(s) && bp < |s.mem| && t < |s.list| && s.list[t] < bp && bp !in s.list
    requires Linked(s, t) && (t + 1 < |s.list| ==> Linked(s, t + 1) && s.list[t] < s.list[t + 1])
    requires t + 1 == |s.list| ==> s.list[0] < bp
    ensures var r := MergeNext(s, bp, t); var p := s.list[t]; var next := s.mem[p].ptr;
            && next < |s.mem|
            && r.mem == if bp + s.mem[bp].size == next
                        then s.mem[p := Header(s.mem[next].ptr, s.mem[p].size)]
                                  [bp := Header(s.mem[bp].ptr, s.mem[bp].size + s.mem[next].size)]
                        else s.mem
  {
  }

  /** free returns exactly the block's units and keeps every invariant of the list. */
  lemma FreeKeeps(s: Heap, bp: nat, t: nat) returns (e: Heap)
    requires Inv(s) && bp in s.alloc && Between(s, bp, t) && bp < |s.mem|
    ensures s.list[t] < |s.mem| && s.mem[s.list[t]].ptr < |s.mem|
    ensures e.mem == FreeLinks(s.mem, s.list[t], bp) && Inv(e) && s.list[t] in e.list && e.alloc == s.alloc - {bp}
    ensures FreeUnits(e) == FreeUnits(s) + UnitsOf(s, bp) && AllUnits(e) == AllUnits(s) && DataKept(s, e, bp)
  {
    hide Inv, Linked, Block, MergeNext, Settle, FreeLinks, DataKept;
    InvFacts(s);
    var r := MergeNext(s, bp, t);
    MergeNextKeeps(s, bp, t);
    assert r.list[..t + 1][t] == s.list[..t + 1][t];
    SettleKeeps(r, bp, t);
    LinkFacts(s, t);
    if t + 1 < |s.list| {
      LinkFacts(s, t + 1);
    }
    if 0 < t {
      LinkFacts(s, t - 1);
    }
    FreeWrites(s, bp, t);
    DataTwice(s, r, Settle(r, bp, t), bp);
    var d := Settle(r, bp, t);
    var m := FreeLinks(s.mem, s.list[t], bp);
    AllocatedOwn(s, bp);
    if s.list[t] + s.mem[s.list[t]].size == bp {
      NotListed(s, r, d, bp, t);
      StalePointer(d, bp, m[bp].ptr);
      e := d.(mem := m);
      DataButOne(s, d, e, bp);
    } else {
      e := d;
    }
  }

  lemma DataTwice(s: Heap, r: Heap, e: Heap, bp: nat)
    requires DataKept(s, r, bp) && DataKept(r, e, bp)
    ensures DataKept(s, e, bp)
  {
  }

  lemma DataButOne(s: Heap, d: Heap, e: Heap, bp: nat)
    requires DataKept(s, d, bp) && bp < |s.owner| && s.owner[bp] == bp
    requires |e.mem| == |d.mem| && e.owner == d.owner && e.alloc == d.alloc
    requires forall u :: 0 <= u < |d.mem| && u != bp ==> e.mem[u] == d.mem[u]
    ensures DataKept(s, e, bp)
  {
  }

  /** A header merged into its predecessor is in no list. */
  lemma NotListed(s: Heap, r: Heap, d: Heap, bp: nat, t: nat)
    requires Inv(r) && bp in r.alloc && Between(r, bp, t) && bp < |r.mem|
    requires t + 1 < |r.list| ==> bp + r.mem[bp].size < r.list[t + 1]
    requires r.list[t] + r.mem[r.list[t]].size == bp && 0 < t && d == Settle(r, bp, t)
    ensures bp !in d.list
  {
    var p := r.list[t];
    var v := Join(Unlink(r, t), p, bp);
    UnlinkMembers(r, t);
    JoinFits(r, bp, t);
    InsertMembers(v, p, t - 1);
  }

  lemma StoreKeeps(s: Heap, a: nat, x: Header)
    requires Inv(s) && a < |s.mem| && s.owner[a] in s.alloc && a !in s.alloc
    ensures Inv(s.(mem := s.mem[a := x]))
  {
    var t := s.(mem := s.mem[a := x]);
    assert a !in s.list by {
      if a in s.list {
        OutsideData(s, a);
      }
    }
    forall h | Block(s.mem, s.owner, h) && h != a
      ensures Block(t.mem, t.owner, h)
    {
    }
    forall i | 0 <= i < |s.list|
      ensures Linked(t, i) && (0 < i < |s.list| - 1 ==> Gap(t, i))
    {
      assert Linked(s, i);
      assert 0 < i < |s.list| - 1 ==> Gap(s, i);
    }
    assert a != BASE;
  }

  /** Free units in a row lie in one block. */
  lemma RunInOneBlock(s: Heap, a: nat, n: nat) returns (k: nat)
    requires Inv(s) && 0 < n && forall u :: a <= u < a + n ==> u in FreeUnits(s)
    ensures 0 < k < |s.list| && s.list[k] <= a && a + n <= s.list[k] + s.mem[s.list[k]].size
  {
    k := InBlock(s, a);
    var end := s.list[k] + s.mem[s.list[k]].size;
    forall i | 0 < i < |s.list|
      ensures !(s.list[i] <= end < s.list[i] + s.mem[s.list[i]].size)
    {
      if k < i {
        BlocksApart(s, k, i);
      } else if i < k {
        BlocksApart(s, i, k);
      }
    }
    if end < a + n {
      var i := InBlock(s, end);
    }
  }

  // ---- sbrk ---------------------------------------------------------------------------------

  /** What the int parameter of sbrk makes of a number of bytes. */
  function AsInt(bytes: nat): int {
    var w := bytes % 0x1_0000_0000;
    if w < 0x8000_0000 then w else w - 0x1_0000_0000
  }

  /** How many units sbrk is really asked for when n are wanted. */
  function Asked(n: nat): int {
    AsInt(n * HEADER_BYTES) / HEADER_BYTES
  }

  /** The units of a request for nbytes, its header included, and what morecore makes of them. */
  function Units(nbytes: nat): (n: nat)
    ensures n * HEADER_BYTES >= nbytes + HEADER_BYTES > (n - 1) * HEADER_BYTES
  {
    (nbytes + HEADER_BYTES - 1) / HEADER_BYTES + 1
  }

  function More(n: nat): nat {
    if n < MINUNITS then MINUNITS else n
  }

  /** growproc: a sum below 0 wraps to far above the old size, and uvmdealloc then does nothing. */
  function Moved(brk: nat, k: int): nat {
    if brk + k < 0 then brk else brk + k
  }

  /** Unit u is on a page of a process whose memory ends at brk. */
  predicate Mapped(u: nat, brk: nat) {
    u < (brk + (PAGE_UNITS - 1)) / PAGE_UNITS * PAGE_UNITS
  }

  /** A request reaches sbrk unchanged exactly while its bytes are a positive int. */
  lemma AskedIff(n: nat)
    ensures Asked(n) <= n && (Asked(n) == n <==> n * HEADER_BYTES <= 0x7FFF_FFFF)
  {
    var b := n * HEADER_BYTES;
    assert b == 0x1_0000_0000 * (b / 0x1_0000_0000) + b % 0x1_0000_0000;
  }

  /** In bytes: exactly the requests up to 0x7FFFFFE0 do. */
  lemma ReachesIff(nbytes: nat)
    ensures Asked(More(Units(nbytes))) == More(Units(nbytes)) <==> nbytes <= 0x7FFF_FFE0
  {
    AskedIff(More(Units(nbytes)));
  }

  /** The store to the header of the new memory is safe whenever sbrk has given anything. */
  lemma GivenIsMapped(hp: nat, k: int)
    requires 0 < k
    ensures Mapped(hp, Moved(hp, k))
  {
  }

  ghost function Run(a: nat, n: nat): (r: set<nat>)
    ensures forall u: nat :: u in r <==> a <= u < a + n
  {
    if n == 0 then {} else Run(a, n - 1) + {a + n - 1}
  }

  // ---- malloc's search ----------------------------------------------------------------------

  function Pred(j: nat, n: nat): (i: nat)
    requires j < n
    ensures i < n && Succ(i, n) == j
  {
    if j == 0 then n - 1 else j - 1
  }

  /** No block of the list has n units. */
  ghost predicate NoFit(s: Heap, n: nat) {
    forall i :: 0 <= i < |s.list| && s.list[i] < |s.mem| ==> s.mem[s.list[i]].size < n
  }

  /** The blocks met from behind position f up to j do not fit. */
  ghost predicate SearchedTo(s: Heap, f: nat, j: nat, n: nat)
    requires f < |s.list| && j < |s.list|
  {
    forall k :: 0 <= k < |s.list| && s.list[k] < |s.mem| ==>
      Dist(Succ(f, |s.list|), k, |s.list|) < Dist(Succ(f, |s.list|), j, |s.list|) ==> s.mem[s.list[k]].size < n
  }

  /** From j on, a block that fits comes no later than position f. */
  ghost predicate FitAhead(s: Heap, f: nat, j: nat, n: nat)
    requires f < |s.list| && j < |s.list|
  {
    exists b :: 0 <= b < |s.list| && s.list[b] < |s.mem| && s.mem[s.list[b]].size >= n
                && Dist(j, b, |s.list|) <= Dist(j, f, |s.list|)
  }

  lemma SearchStep(s: Heap, f: nat, j: nat, n: nat)
    requires f < |s.list| && j < |s.list| && s.list[j] < |s.mem| && s.mem[s.list[j]].size < n
    requires SearchedTo(s, f, j, n)
    ensures if j == f then NoFit(s, n) else SearchedTo(s, f, Succ(j, |s.list|), n)
  {
  }

  lemma SearchStart(s: Heap, f: nat, n: nat)
    requires f < |s.list|
    ensures SearchedTo(s, f, Succ(f, |s.list|), n)
  {
  }

  lemma AheadStep(s: Heap, f: nat, j: nat, n: nat)
    requires f < |s.list| && j < |s.list| && s.list[j] < |s.mem| && s.mem[s.list[j]].size < n
    requires FitAhead(s, f, j, n)
    ensures j != f && FitAhead(s, f, Succ(j, |s.list|), n)
  {
    var b :| 0 <= b < |s.list| && s.list[b] < |s.mem| && s.mem[s.list[b]].size >= n
             && Dist(j, b, |s.list|) <= Dist(j, f, |s.list|);
    assert Dist(Succ(j, |s.list|), b, |s.list|) <= Dist(Succ(j, |s.list|), f, |s.list|);
  }

  lemma AheadStart(s: Heap, f: nat, n: nat)
    requires f < |s.list|
    requires exists k :: 0 <= k < |s.list| && s.list[k] < |s.mem| && s.mem[s.list[k]].size >= n
    ensures FitAhead(s, f, Succ(f, |s.list|), n)
  {
    var k :| 0 <= k < |s.list| && s.list[k] < |s.mem| && s.mem[s.list[k]].size >= n;
    assert Dist(Succ(f, |s.list|), k, |s.list|) <= Dist(Succ(f, |s.list|), f, |s.list|);
  }

  /** The block whose last n units begin at h is at position j of the list, with to before it, and is
      the first behind the one at position f, in the order of the cycle, that has n units. */
  ghost predicate FitAt(s: Heap, f: nat, j: nat, n: nat, h: nat, to: nat) {
    && f < |s.list| && 0 < j < |s.list| && s.list[j - 1] == to
    && s.list[j] < |s.mem| && n <= s.mem[s.list[j]].size && h + n == s.list[j] + s.mem[s.list[j]].size
    && forall k :: 0 <= k < |s.list| && (if f < j then f < k < j else f < k || k < j) && s.list[k] < |s.mem| ==>
         s.mem[s.list[k]].size < n
  }

  /** The first fit behind the block at from. */
  ghost predicate NextFit(s: Heap, from: nat, n: nat, h: nat, to: nat) {
    exists f: nat, j: nat :: FitAt(s, f, j, n, h, to) && s.list[f] == from
  }

  lemma NextFits(s: Heap, f: nat, j: nat, n: nat)
    requires f < |s.list| && 0 < j < |s.list| && SearchedTo(s, f, j, n)
    requires s.list[j] < |s.mem| && n <= s.mem[s.list[j]].size
    ensures NextFit(s, s.list[f], n, s.list[j] + s.mem[s.list[j]].size - n, s.list[j - 1])
  {
    forall k | 0 <= k < |s.list| && (if f < j then f < k < j else f < k || k < j)
      ensures Dist(Succ(f, |s.list|), k, |s.list|) < Dist(Succ(f, |s.list|), j, |s.list|)
    {
    }
    hide Dist;
    assert FitAt(s, f, j, n, s.list[j] + s.mem[s.list[j]].size - n, s.list[j - 1]);
  }

  /** Nothing free lies between the block at position t and bp. */
  lemma LastBelow(s: Heap, bp: nat, t: nat)
    requires Inv(s) && Between(s, bp, t)
    ensures forall b :: b in s.list && b < bp ==> b <= s.list[t]
  {
  }

  lemma IsLast(list: seq<nat>, p: nat)
    requires p in list && (forall i, j :: 0 <= i < j < |list| ==> list[i] < list[j]) && forall b :: b in list ==> b <= p
    ensures p == list[|list| - 1]
  {
    assert list[|list| - 1] in list;
  }

  /** What the one call of sbrk came to, if there was one: it found the break at hp and left it at brk. */
  ghost predicate AskedFor(hp: nat, brk: nat, n: nat, sbrkOk: bool, r: nat, killed: bool, grown: bool) {
    var k := Asked(More(n));
    && (r == 0 && !killed ==> k > 0 && !sbrkOk && brk == hp)
    && (killed ==> r == 0 && k <= 0 && !Mapped(hp, Moved(hp, k)))
    && (grown ==> (k > 0 ==> sbrkOk) && (k <= 0 ==> Mapped(hp, Moved(hp, k))) && brk == Moved(hp, k))
  }

  /** The memory of s goes up to hp, and then as far as morecore thinks it has got. */
  ghost predicate Enlarged(s: Heap, c: Heap, hp: nat, n: nat) {
    |c.mem| == hp + More(n) && AllUnits(c) == AllUnits(s) + Run(hp, More(n))
  }

  lemma BreakMoved(s: Heap, c: Heap, hp: nat, brk: nat, n: nat, sbrkOk: bool, p: nat, killed: bool)
    requires var k := Asked(More(n));
             && (killed <==> k <= 0 && !Mapped(hp, Moved(hp, k)))
             && (p == 0 <==> killed || (k > 0 && !sbrkOk))
             && brk == if p == 0 && !killed then hp else Moved(hp, k)
    requires p != 0 ==> |c.mem| == hp + More(n) && AllUnits(c) == AllUnits(s) + Run(hp, More(n))
    ensures if p == 0 then AskedFor(hp, brk, n, sbrkOk, 0, killed, false)
            else !killed && AskedFor(hp, brk, n, sbrkOk, 1, false, true) && Enlarged(s, c, hp, n)
  {
    hide Asked, Mapped, Moved, Run, AllUnits;
  }

  lemma NotAsked(hp: nat, brk: nat, n: nat, sbrkOk: bool, r: nat, grown: bool)
    requires r != 0 && (grown ==> AskedFor(hp, brk, n, sbrkOk, 1, false, true))
    ensures AskedFor(hp, brk, n, sbrkOk, r, false, grown)
  {
    hide Asked, Mapped, Moved;
  }

  /** The search is at position j of the list, where p is, with prevp before it. */
  ghost predicate Searching(s: Heap, j: nat, prevp: nat, p: nat) {
    && j < |s.list| && p == s.list[j] < |s.mem|
    && prevp < |s.mem| && prevp == s.list[Pred(j, |s.list|)]
  }

  /** One step along the list, from position i. */
  lemma Onward(s: Heap, i: nat, q: nat)
    requires Inv(s) && i < |s.list| && q == s.list[i]
    ensures q < |s.mem| && Searching(s, Succ(i, |s.list|), q, s.mem[q].ptr)
  {
    hide Inv, Linked;
    LinkFacts(s, i);
    LinkFacts(s, Succ(i, |s.list|));
  }

  /** Closer to where the search ends. */
  lemma StepCloser(f: nat, j: nat, n: nat)
    requires f < n && j < n && j != f
    ensures Dist(Succ(j, n), f, n) < Dist(j, f, n)
  {
  }

  /** The first call of all sets base up; it held size 0 before as well. */
  lemma FirstUse(s0: Heap, s: Heap, n: nat)
    requires |s0.mem| == |s0.owner| && BASE < |s0.mem| && s0.mem[BASE] == Header(0, 0)
    requires s0.list == [BASE] && s0.alloc == {} && forall u :: 0 <= u < |s0.owner| ==> s0.owner[u] == 0
    requires s == s0.(mem := s0.mem[BASE := Header(BASE, 0)])
    ensures Inv(s) && SameStart(s0, s, n)
  {
    assert Linked(s, 0);
  }

  lemma BaseIsEmpty(s: Heap, j: nat)
    requires Inv(s) && j < |s.list|
    ensures s.list[j] < |s.mem| && (s.mem[s.list[j]].size > 0 ==> 0 < j)
  {
  }

  lemma Apart(s: Heap, f: nat, j: nat)
    requires Inv(s) && f < |s.list| && j < |s.list|
    ensures s.list[f] == s.list[j] <==> f == j
  {
  }

  lemma CutAlloc(c: Heap, e: Heap, h: nat)
    requires Cut(c, e, h)
    ensures AllUnits(e) == AllUnits(c)
  {
  }

  /** Nothing but the header of base may differ. */
  ghost predicate SameStart(s0: Heap, s: Heap, n: nat) {
    && FreeUnits(s) == FreeUnits(s0) && AllUnits(s) == AllUnits(s0) && s.alloc == s0.alloc
    && DataKept(s0, s, 0) && (NoFit(s, n) ==> NoFit(s0, n))
  }

  lemma KeepsItself(s: Heap, n: nat)
    requires Inv(s)
    ensures DataKept(s, s, 0) && SameStart(s, s, n)
  {
  }

  /** New memory, once freed, is all that was added, and none of it is lost. */
  lemma NewUnits(s: Heap, t: Heap, e: Heap, hp: nat, n: nat)
    requires Inv(s) && |s.mem| <= hp && |t.owner| == hp + n && hp !in s.alloc && t.alloc == s.alloc + {hp}
    requires FreeUnits(t) == FreeUnits(s) && AllUnits(t) == AllUnits(s) + UnitsOf(t, hp) && DataKept(s, t, 0)
    requires forall u :: 0 <= u < |t.owner| ==> (t.owner[u] == hp <==> hp <= u)
    requires e.alloc == t.alloc - {hp} && AllUnits(e) == AllUnits(t) && DataKept(t, e, hp)
    requires FreeUnits(e) == FreeUnits(t) + UnitsOf(t, hp)
    ensures e.alloc == s.alloc && DataKept(s, e, 0) && AllUnits(s) <= AllUnits(e)
    ensures AllUnits(e) == AllUnits(s) + Run(hp, n)
    ensures FreeUnits(e) == FreeUnits(s) + (AllUnits(e) - AllUnits(s))
    ensures forall u :: hp <= u < hp + n ==> u in FreeUnits(e)
  {
    hide Run;
    assert UnitsOf(t, hp) !! AllUnits(s);
    assert UnitsOf(t, hp) == Run(hp, n);
  }

  /** h was cut from the free blocks of c. */
  ghost predicate Cut(c: Heap, e: Heap, h: nat) {
    && Inv(e) && h !in c.alloc && e.alloc == c.alloc + {h} && DataKept(c, e, 0) && AllUnits(e) == AllUnits(c)
    && FreeUnits(e) == FreeUnits(c) - UnitsOf(e, h) && UnitsOf(e, h) <= FreeUnits(c)
  }

  lemma UnlinkCuts(c: Heap, j: nat)
    requires Inv(c) && 0 < j < |c.list|
    ensures Cut(c, Unlink(c, j), c.list[j]) && c.list[j - 1] in Unlink(c, j).list
    ensures c.list[j] < |c.mem| && Unlink(c, j).mem[c.list[j]].size == c.mem[c.list[j]].size
  {
    hide Linked, Block, Coalesced;
    UnlinkKeeps(c, j);
    UnlinkMembers(c, j);
    FreeBlockUnits(c, j);
    assert UnitsOf(Unlink(c, j), c.list[j]) == UnitsOf(c, c.list[j]);
  }

  lemma CarveCuts(c: Heap, j: nat, n: nat)
    requires Inv(c) && 0 < j < |c.list| && 0 < n < c.mem[c.list[j]].size
    ensures c.list[j] < |c.mem| && c.list[j] + c.mem[c.list[j]].size <= |c.mem|
    ensures Cut(c, Carve(c, j, n), c.list[j] + c.mem[c.list[j]].size - n)
  {
    CarveKeeps(c, j, n);
    CarveData(c, j, n);
  }

  /** Memory was added to the free blocks, nothing else happened. */
  ghost predicate Grown(s: Heap, c: Heap) {
    && c.alloc == s.alloc && DataKept(s, c, 0) && AllUnits(s) <= AllUnits(c)
    && FreeUnits(c) == FreeUnits(s) + (AllUnits(c) - AllUnits(s))
  }

  lemma GrownItself(s: Heap)
    requires Inv(s)
    ensures Grown(s, s)
  {
  }

  lemma Taken(s0: Heap, s: Heap, c: Heap, e: Heap, h: nat, n: nat)
    requires SameStart(s0, s, n) && Grown(s, c) && Cut(c, e, h)
    ensures h !in s0.alloc && e.alloc == s0.alloc + {h} && AllUnits(s0) <= AllUnits(e) && DataKept(s0, e, 0)
    ensures FreeUnits(e) + UnitsOf(e, h) == FreeUnits(s0) + (AllUnits(e) - AllUnits(s0)) && FreeUnits(e) !! UnitsOf(e, h)
  {
    DataTwice(s0, s, c, 0);
    DataTwice(s0, c, e, 0);
    hide DataKept, Inv;
  }

  class Allocator {
    var mem: seq<Header>
    var freep: nat
    var brk: nat    // where the memory of the process ends
    ghost var list: seq<nat>
    ghost var owner: seq<nat>
    ghost var alloc: set<nat>

    ghost function View(): Heap
      reads this
    {
      Heap(mem, list, owner, alloc)
    }

    ghost predicate Valid()
      reads this
    {
      if freep == 0 then
        && |mem| == |owner| && BASE < |mem| && mem[BASE] == Header(0, 0) && list == [BASE] && alloc == {}
        && forall u :: 0 <= u < |owner| ==> owner[u] == 0
      else Inv(View()) && freep in list
    }

    /** All memory that the blocks take up was really obtained. */
    ghost predicate Backed()
      reads this
    {
      |mem| <= brk
    }

    constructor (memory: seq<Header>)
      requires BASE < |memory| && memory[BASE] == Header(0, 0)
      ensures Valid() && Backed() && alloc == {} && AllUnits(View()) == {} && brk == |memory| && NoFit(View(), 1)
    {
      mem := memory;
      brk := |memory|;
      freep := 0;
      list := [BASE];
      owner := seq(|memory|, _ => 0);
      alloc := {};
    }

    method Free(ap: nat)
      requires Valid() && freep != 0 && 0 < ap && ap - 1 in alloc
      modifies `mem, `freep, `list, `owner, `alloc
      ensures |mem| == |old(mem)|
      ensures Valid() && freep != 0 && alloc == old(alloc) - {ap - 1}
      ensures FreeUnits(View()) == FreeUnits(old(View())) + UnitsOf(old(View()), ap - 1)
      ensures AllUnits(View()) == AllUnits(old(View())) && DataKept(old(View()), View(), ap - 1)
      ensures freep in old(list) && freep < ap - 1 && forall b :: b in old(list) && b < ap - 1 ==> b <= freep
    {
      hide Inv, Linked, DataKept, Dist;
      ghost var s := View();
      var bp: nat := ap - 1;
      AllocatedOwn(s, bp);
      InvFacts(s);
      var p, t := Locate(bp);
      LinkFacts(s, t);
      ghost var e := FreeKeeps(s, bp, t);
      if bp + mem[bp].size == mem[p].ptr {
        mem := mem[bp := Header(mem[mem[p].ptr].ptr, mem[bp].size + mem[mem[p].ptr].size)];
      } else {
        mem := mem[bp := mem[bp].(ptr := mem[p].ptr)];
      }
      if p + mem[p].size == bp {
        mem := mem[p := Header(mem[bp].ptr, mem[p].size + mem[bp].size)];
      } else {
        mem := mem[p := mem[p].(ptr := bp)];
      }
      freep := p;
      LastBelow(s, bp, t);
      list, owner, alloc := e.list, e.owner, e.alloc;
      assert View() == e;
    }

    /** The scan of free: the member p after which bp belongs. It stops within one turn of the
        cycle, wherever freep is. */
    method Locate(bp: nat) returns (p: nat, ghost t: nat)
      requires Valid() && freep != 0 && bp in alloc
      ensures Between(View(), bp, t) && p == list[t] && bp < |mem|
    {
      hide Inv, Linked;
      ghost var s := View();
      AllocatedOwn(s, bp);
      InvFacts(s);
      ghost var goal: nat := Place(list, bp);
      p, t := freep, Position(list, freep);
      while !(bp > p && bp < mem[p].ptr)
        invariant t < |list| && p == list[t] && p < |mem| && bp < |mem|
        decreases Dist(t, goal, |list|)
      {
        LinkFacts(s, t);
        if p >= mem[p].ptr && (bp > p || bp < mem[p].ptr) {
          break;
        }
        p := mem[p].ptr;
        t := Succ(t, |list|);
      }
      LinkFacts(s, t);
    }

    /** The program may store what it likes in the units of its blocks behind their headers. */
    method Store(a: nat, x: Header)
      requires Valid() && freep != 0 && a < |mem| && a < |owner| && owner[a] in alloc && a !in alloc
      modifies `mem
      ensures Valid() && mem == old(mem)[a := x]
    {
      StoreKeeps(View(), a, x);
      mem := mem[a := x];
    }

    /** morecore: at least MINUNITS units from sbrk, handed to free; gap units below the new memory
        may belong to others. sbrk gets the bytes as an int and cannot fail on 0 or less; the store
        to the header is fatal when its page is not there. */
    method MoreCore(nu: nat, sbrkOk: bool, gap: nat) returns (p: nat, killed: bool)
      requires Valid() && Backed() && freep != 0 && 0 < nu
      modifies this
      ensures Valid() && freep != 0
      ensures var k, hp := Asked(More(nu)), old(brk) + gap;
              && (killed <==> k <= 0 && !Mapped(hp, Moved(hp, k)))
              && (p == 0 <==> killed || (k > 0 && !sbrkOk))
              && brk == if p == 0 && !killed then hp else Moved(hp, k)
      ensures old(list) != []
      ensures p == 0 ==> View() == old(View()) && freep == old(freep)
      ensures p != 0 ==>
                && p == freep == old(list)[|old(list)| - 1] && Grown(old(View()), View())
                && |mem| == old(brk) + gap + More(nu) && AllUnits(View()) == AllUnits(old(View())) + Run(old(brk) + gap, More(nu))
                && (exists k :: 0 <= k < |list| && list[k] < |mem| && mem[list[k]].size >= nu)
    {
      hide Inv, Linked, DataKept, AllUnits, FreeUnits, UnitsOf, Asked, Mapped, Moved, Run;
      var n := More(nu);
      var hp, k := brk + gap, Asked(n);
      brk := hp;
      if k > 0 && !sbrkOk {
        return 0, false;
      }
      brk := Moved(hp, k);
      if !Mapped(hp, brk) {
        if k > 0 { GivenIsMapped(hp, k); }
        return 0, true;
      }
      killed := false;
      p := Append(hp, n);
      assert exists k :: 0 <= k < |list| && list[k] < |mem| && mem[list[k]].size >= nu;
    }

    /** The second half of morecore: n units from hp on become a block, which is freed. */
    method Append(hp: nat, n: nat) returns (p: nat)
      requires Valid() && freep != 0 && 0 < n && |mem| <= hp
      modifies `mem, `freep, `list, `owner, `alloc
      ensures old(list) != [] && p == freep == old(list)[|old(list)| - 1]
      ensures Valid() && freep != 0 && Grown(old(View()), View())
      ensures |mem| == hp + n && AllUnits(View()) == AllUnits(old(View())) + Run(hp, n)
      ensures exists k :: 0 <= k < |list| && list[k] < |mem| && mem[list[k]].size >= n
    {
      hide Inv, Linked, DataKept, AllUnits, FreeUnits, UnitsOf, Run;
      ghost var s := View();
      InvFacts(s);
      var gap: nat := hp - |mem|;
      ghost var g, b := seq(gap, _ => Header(0, 0)), seq(n, i => if i == 0 then Header(0, n) else Header(0, 0));
      mem := mem + seq(gap, _ => Header(0, 0)) + seq(n, i => if i == 0 then Header(0, n) else Header(0, 0));
      ghost var t := Obtain(s, g, b);
      list, owner, alloc := t.list, t.owner, t.alloc;
      ObtainKeeps(s, g, b);
      assert View() == t && |t.owner| == hp + n;
      Free(hp + 1);
      InvFacts(View());
      NewUnits(s, t, View(), hp, n);
      ghost var k := RunInOneBlock(View(), hp, n);
      assert mem[list[k]].size >= n;
      p := freep;
      IsLast(s.list, p);
    }

    /** Cut n units from block p, whose predecessor in the list is prevp: all of it, or its tail. */
    method Take(prevp: nat, p: nat, n: nat, ghost j: nat) returns (h: nat)
      requires Valid() && freep != 0 && 0 < j < |list| && p == list[j] && prevp == list[j - 1]
      requires p < |mem| && prevp < |mem| && 0 < n <= mem[p].size
      modifies `mem, `freep, `list, `owner, `alloc
      ensures |mem| == |old(mem)|
      ensures Valid() && freep == prevp && freep != 0 && Cut(old(View()), View(), h)
      ensures h < |mem| && mem[h].size == n && h + n == p + old(mem)[p].size
    {
      hide Inv, Linked, DataKept, AllUnits, FreeUnits, UnitsOf;
      ghost var c := View();
      ghost var e;
      InvFacts(c);
      h := p;
      if mem[p].size == n {
        mem := mem[prevp := mem[prevp].(ptr := mem[p].ptr)];
        UnlinkCuts(c, j);
        e := Unlink(c, j);
      } else {
        CarveCuts(c, j, n);
        mem := mem[p := mem[p].(size := mem[p].size - n)];
        h := p + mem[p].size;
        mem := mem[h := mem[h].(size := n)];
        e := Carve(c, j, n);
        assert prevp == e.list[j - 1];
      }
      freep := prevp;
      list, owner, alloc := e.list, e.owner, e.alloc;
      assert View() == e;
    }

    /** The very first call links base to itself. */
    method Start(ghost n: nat)
      requires Valid()
      modifies `mem, `freep
      ensures Valid() && freep != 0 && SameStart(old(View()), View(), n) && |mem| == |old(mem)|
      ensures old(freep) != 0 ==> View() == old(View()) && freep == old(freep)
    {
      hide Inv, DataKept, AllUnits, FreeUnits, NoFit;
      ghost var s := View();
      if freep == 0 {
        mem := mem[BASE := Header(BASE, 0)];
        freep := BASE;
        FirstUse(s, View(), n);
      } else {
        KeepsItself(s, n);
      }
    }

    /** The search loop, from behind freep once around, and again after memory was added; c is
        the heap from which the block was cut in the end. Each time round it is the first that fits. */
    method Search(n: nat, sbrkOk: bool, gap: nat) returns (r: nat, killed: bool, ghost grown: bool, ghost c: Heap)
      requires Valid() && Backed() && freep != 0 && 0 < n
      modifies this
      ensures Valid() && freep != 0 && (grown ==> r != 0)
      ensures AskedFor(old(brk) + gap, brk, n, sbrkOk, r, killed, grown)
      ensures r == 0 || grown ==> NoFit(old(View()), n)
      ensures r == 0 ==> View() == old(View())
      ensures r != 0 ==> Grown(old(View()), c) && Cut(c, View(), r - 1) && r <= |mem| && mem[r - 1].size == n
      ensures r != 0 && !grown ==> c == old(View()) && brk == old(brk) && |mem| == |old(mem)|
      ensures r != 0 && !grown ==> NextFit(old(View()), old(freep), n, r - 1, freep)
      ensures r == 0 ==> freep == old(freep)
      ensures grown ==>
                && old(list) != [] && NextFit(c, old(list)[|old(list)| - 1], n, r - 1, freep) && Inv(c)
                && Enlarged(old(View()), c, old(brk) + gap, n) && |mem| == |c.mem|
    {
      hide AskedFor, Enlarged, Inv, Cut, Linked, InMemory, NoFit, NextFit, SearchedTo, FitAhead, Grown, Dist, Run, Asked, Moved, Mapped, AllUnits;
      ghost var s := View();
      ghost var hp := brk + gap;
      killed, grown, c := false, false, s;
      GrownItself(s);
      ghost var f: nat := Position(list, freep);
      Onward(s, f, freep);
      var prevp: nat := freep;
      var p: nat := mem[prevp].ptr;
      ghost var j: nat := Succ(f, |list|);
      SearchStart(s, f, n);
      while true
        invariant Valid() && freep != 0 && f < |list| && freep == list[f] && s.list != []
        invariant c == View() && Searching(c, j, prevp, p) && j < |c.list| && SearchedTo(c, f, j, n) && Grown(s, c)
        invariant !grown ==> c == s && freep == old(freep) && brk == old(brk)
        invariant grown ==>
                    && NoFit(s, n) && FitAhead(c, f, j, n) && freep == s.list[|s.list| - 1]
                    && AskedFor(hp, brk, n, sbrkOk, 1, false, true) && Enlarged(s, c, hp, n)
        decreases if grown then 0 else 1, Dist(j, f, |list|)
      {
        if mem[p].size >= n {
          BaseIsEmpty(c, j);
          NextFits(c, f, j, n);
          p := Take(prevp, p, n, j);
          NotAsked(hp, brk, n, sbrkOk, p + 1, grown);
          return p + 1, false, grown, c;
        }
        if grown {
          AheadStep(c, f, j, n);
        }
        SearchStep(c, f, j, n);
        Apart(c, f, j);
        if p == freep {
          p, killed := MoreCore(n, sbrkOk, gap);
          BreakMoved(s, View(), hp, brk, n, sbrkOk, p, killed);
          if p == 0 {
            return 0, killed, false, c;
          }
          grown, c := true, View();
          f := Position(list, freep);
          j := f;
          AheadStart(c, f, n);
          SearchStart(c, f, n);
        } else {
          StepCloser(f, j, |list|);
        }
        Onward(c, j, p);
        prevp := p;
        p := mem[p].ptr;
        j := Succ(j, |list|);
      }
    }

    /** First fit from where the last search ended. n is the number of units wanted, the header
        included; sbrkOk and gap stand for the answer of sbrk, should it be asked. The lists stay in
        order whatever sbrk did; but the blocks are all of memory obtained if and only if a block
        did fit or the request is at most 0x7FFFFFE0 bytes. */
    method Malloc(nbytes: nat, sbrkOk: bool, gap: nat) returns (r: nat, killed: bool, ghost n: nat, ghost grown: bool)
      requires Valid() && Backed() && nbytes <= UINT_MAX
      modifies this
      ensures Valid() && freep != 0 && n == Units(nbytes)
      ensures !killed ==> (Backed() <==> !grown || nbytes <= 0x7FFF_FFE0)
      ensures AskedFor(old(brk) + gap, brk, n, sbrkOk, r, killed, grown) && (killed ==> nbytes > 0x7FFF_FFE0)
      ensures AllUnits(View()) == AllUnits(old(View())) + if grown then Run(old(brk) + gap, More(n)) else {}
      ensures r == 0 || grown ==> NoFit(old(View()), n)
      ensures r != 0 && !grown && old(freep) != 0 ==> NextFit(old(View()), old(freep), n, r - 1, freep)
      ensures if grown then r - 1 + n == |mem| else r != 0 ==> brk == old(brk)
      ensures r == 0 ==> alloc == old(alloc) && FreeUnits(View()) == FreeUnits(old(View()))
      ensures r != 0 ==>
                && r - 1 !in old(alloc) && alloc == old(alloc) + {r - 1} && r <= |mem| && mem[r - 1].size == n
                && FreeUnits(View()) + UnitsOf(View(), r - 1)
                     == FreeUnits(old(View())) + (AllUnits(View()) - AllUnits(old(View())))
                && FreeUnits(View()) !! UnitsOf(View(), r - 1)
      ensures DataKept(old(View()), View(), 0)
    {
      hide Inv, DataKept, AllUnits, FreeUnits, UnitsOf, NoFit, NextFit, Grown, Cut, Run, Asked, Mapped;
      var nunits: nat := Units(nbytes);
      n := nunits;
      ReachesIff(nbytes);
      AskedIff(More(n));
      ghost var s0 := View();
      Start(n);
      ghost var s, c, brk0 := View(), View(), brk;
      r, killed, grown, c := Search(nunits, sbrkOk, gap);
      if r == 0 {
        assert AllUnits(View()) + {} == AllUnits(s0);
      } else {
        Taken(s0, s, c, View(), r - 1, n);
        CutAlloc(c, View(), r - 1);
        if grown { GrownCut(s, c, s.list[|s.list| - 1], brk0 + gap, n, r - 1, freep); }
      }
    }
  }

  /** A block below the new memory was there before. */
  lemma OldFit(s: Heap, c: Heap, hp: nat, n: nat, j: nat)
    requires Inv(s) && Inv(c) && Grown(s, c) && Enlarged(s, c, hp, n) && 0 < n && NoFit(s, n)
    requires 0 < j < |c.list| && c.list[j] < |c.mem| && n <= c.mem[c.list[j]].size
    ensures hp < c.list[j] + c.mem[c.list[j]].size
  {
    var a, z := c.list[j], c.mem[c.list[j]].size;
    if a + z <= hp {
      forall u | a <= u < a + z ensures u in FreeUnits(s) {
        BlockIsFree(c, j, u);
        assert u !in Run(hp, More(n));
      }
      hide FreeUnits, AllUnits, DataKept, Run;
      var k := RunInOneBlock(s, a, z);
      InvFacts(s);
    }
  }

  lemma FitIsNew(s: Heap, c: Heap, hp: nat, n: nat, j: nat)
    requires Inv(s) && Inv(c) && Grown(s, c) && Enlarged(s, c, hp, n) && |s.mem| <= hp && 0 < n && NoFit(s, n)
    requires 0 < j < |c.list| && c.list[j] < |c.mem| && n <= c.mem[c.list[j]].size
    ensures c.list[j] + c.mem[c.list[j]].size == |c.mem|
  {
    hide Linked, Block, Coalesced, DataKept, NoFit;
    OldFit(s, c, hp, n, j);
    forall u | hp <= u < hp + More(n) ensures u in FreeUnits(c) {
      assert u in Run(hp, More(n)) && u !in AllUnits(s);
    }
    hide FreeUnits, AllUnits, Grown, Run;
    var k := RunInOneBlock(c, hp, More(n));
    EndsInside(c, j);
    EndsInside(c, k);
    if j < k { BlocksApart(c, j, k); } else if k < j { BlocksApart(c, k, j); }
  }

  lemma EndsInside(s: Heap, k: nat)
    requires Inv(s) && 0 < k < |s.list|
    ensures s.list[k] < |s.mem| && 0 < s.mem[s.list[k]].size && s.list[k] + s.mem[s.list[k]].size <= |s.mem|
  {
    assert Block(s.mem, s.owner, s.list[k]);
  }

  /** Nothing did fit before, so what is found afterwards is the end of the new memory. */
  lemma GrownCut(s: Heap, c: Heap, from: nat, hp: nat, n: nat, h: nat, to: nat)
    requires Inv(s) && Inv(c) && Grown(s, c) && Enlarged(s, c, hp, n) && |s.mem| <= hp && 0 < n && NoFit(s, n)
    requires NextFit(c, from, n, h, to)
    ensures h + n == |c.mem|
  {
    hide Linked, Block, Coalesced, Partition, Grown, DataKept;
    var f: nat, j: nat :| FitAt(c, f, j, n, h, to);
    FitIsNew(s, c, hp, n, j);
  }

  // ---- a request too large, and a program ------------------------------------------------------

  /** The block of r units from h takes all of a run as long as itself. */
  lemma FillsRun(s: Heap, h: nat, a: nat, n: nat)
    requires Inv(s) && h in s.alloc && s.mem[h].size == n && UnitsOf(s, h) <= Run(a, n)
    ensures h == a
  {
    hide Run;
    assert Block(s.mem, s.owner, h);
    assert h in UnitsOf(s, h) && h + n - 1 in UnitsOf(s, h);
  }

  /** malloc of 0xFFFFFFFF bytes on a fresh heap: sbrk gives 16 bytes, and the block handed out goes
      2^28 units beyond the break, where the next sbrk puts other memory. */
  method TooLarge() returns (before: nat, r: nat, size: nat, after: nat)
    ensures r == before + 1 && size == 0x1000_0001 && after == before + 1
  {
    var a := new Allocator([Header(0, 0), Header(0, 0)]);
    before := a.brk;
    ghost var was := a.View();
    assert Units(0xFFFF_FFFF) == More(0x1000_0001) == 0x1000_0001 && Asked(0x1000_0001) == 1;
    hide Inv, Run, UnitsOf, AllUnits, FreeUnits, DataKept, Asked, NoFit, Mapped, Units, More;
    var killed; ghost var n, grown;
    r, killed, n, grown := a.Malloc(0xFFFF_FFFF, true, 0);
    size, after := a.mem[r - 1].size, a.brk;
    AllNew(was, a.View(), r - 1, before, n, grown);
  }

  /** On a heap that had nothing, a block is made of new memory alone. */
  lemma AllNew(s: Heap, e: Heap, h: nat, a: nat, n: nat, grown: bool)
    requires AllUnits(s) == {} && Inv(e) && h in e.alloc && h < |e.mem| && e.mem[h].size == n
    requires AllUnits(e) == AllUnits(s) + if grown then Run(a, n) else {}
    requires FreeUnits(e) + UnitsOf(e, h) == FreeUnits(s) + (AllUnits(e) - AllUnits(s))
    ensures grown && h == a
  {
    hide Run, Inv;
    assert FreeUnits(s) <= AllUnits(s);
    OwnUnits(e, h);
    FillsRun(e, h, a, n);
  }

  lemma OwnUnits(s: Heap, h: nat)
    requires Inv(s) && h in s.alloc
    ensures UnitsOf(s, h) != {}
  {
    assert Block(s.mem, s.owner, h);
    assert h in UnitsOf(s, h);
  }

  /** A program stores x in unit u of its block h, gives another block back and asks for a new one:
      whatever becomes of that, x is still there and the unit still belongs to h alone. */
  method StoredStays(a: Allocator, h: nat, u: nat, x: Header, other: nat, nbytes: nat, sbrkOk: bool, gap: nat)
    returns (r: nat, killed: bool)
    requires a.Valid() && a.Backed() && a.freep != 0 && nbytes <= UINT_MAX
    requires {h, other} <= a.alloc && h != other && other != 0 && u != h && u < |a.mem| && u < |a.owner| && a.owner[u] == h
    modifies a
    ensures a.Valid() && u < |a.mem| && u < |a.owner| && a.mem[u] == x && a.owner[u] == h && h in a.alloc
    ensures r != 0 ==> r - 1 != h
  {
    UnitsApart(a.View(), h, u);
    a.Store(u, x);
    ghost var s := a.View();
    a.Free(other + 1);
    ghost var t := a.View();
    hide Inv;
    ghost var n, grown;
    r, killed, n, grown := a.Malloc(nbytes, sbrkOk, gap);
  }

  lemma UnitsApart(s: Heap, h: nat, u: nat)
    requires Inv(s) && h in s.alloc && u < |s.owner| && s.owner[u] == h && u != h
    ensures u !in s.alloc
  {
    assert u in s.alloc ==> Block(s.mem, s.owner, u);
  }

  /** No free block touches block h. */
  ghost predicate Alone(s: Heap, h: nat)
    requires h < |s.mem|
  {
    h - 1 !in FreeUnits(s) && h + s.mem[h].size !in FreeUnits(s)
  }

  /** What free has made of s when it put back the block at bp and left freep at q. */
  ghost predicate GivenBack(s: Heap, e: Heap, bp: nat, q: nat) {
    && Inv(s) && Inv(e) && bp in s.alloc && bp < |s.mem| && FreeUnits(e) == FreeUnits(s) + UnitsOf(s, bp)
    && q in e.list && q in s.list && q < bp && (forall b :: b in s.list && b < bp ==> b <= q)
    && e.alloc == s.alloc - {bp}
  }

  lemma GivenBackSound(s: Heap, e: Heap, bp: nat, q: nat)
    requires GivenBack(s, e, bp, q)
    ensures Inv(e) && e.alloc + {bp} == s.alloc && bp < |s.mem|
  {
    hide Inv;
  }

  /** In the list e, the block that was given back at bp stands right behind q. */
  lemma NextIsFreed(s: Heap, e: Heap, bp: nat, q: nat) returns (k: nat)
    requires GivenBack(s, e, bp, q) && Alone(s, bp)
    ensures 0 < k < |e.list| && e.list[k] == bp < |e.mem| && e.mem[bp].size == s.mem[bp].size && e.list[k - 1] == q
  {
    k := FreedBlock(s, e, bp);
    InvFacts(e);
    var f := Position(e.list, q);
    if f < k - 1 {
      NothingBetween(s, e, bp, q, k - 1);
    }
  }

  /** The block as it stands in the list afterwards. */
  lemma FreedBlock(s: Heap, e: Heap, bp: nat) returns (k: nat)
    requires Inv(s) && Inv(e) && bp in s.alloc && bp < |s.mem| && FreeUnits(e) == FreeUnits(s) + UnitsOf(s, bp)
    requires Alone(s, bp)
    ensures 0 < k < |e.list| && e.list[k] == bp < |e.mem| && e.mem[bp].size == s.mem[bp].size
  {
    hide Cycle, Coalesced, Linked, FreeUnits;
    assert Block(s.mem, s.owner, bp);
    var z := s.mem[bp].size;
    assert bp - 1 !in UnitsOf(s, bp) && bp + z !in UnitsOf(s, bp);
    assert forall u :: bp <= u < bp + z ==> u in UnitsOf(s, bp);
    hide Inv, Block, UnitsOf;
    k := RunInOneBlock(e, bp, z);
    if e.list[k] < bp { BlockIsFree(e, k, bp - 1); }
    if bp + z < e.list[k] + e.mem[e.list[k]].size { BlockIsFree(e, k, bp + z); }
  }

  /** No free block begins between q and bp. */
  lemma NothingBetween(s: Heap, e: Heap, bp: nat, q: nat, i: nat)
    requires Inv(s) && Inv(e) && bp in s.alloc && bp < |s.mem| && FreeUnits(e) == FreeUnits(s) + UnitsOf(s, bp)
    requires forall b :: b in s.list && b < bp ==> b <= q
    requires 0 < i < |e.list| && e.list[i] < bp
    ensures e.list[i] <= q
  {
    var x := e.list[i];
    if q < x {
      hide Cycle, Coalesced, Linked, FreeUnits;
      assert x !in UnitsOf(s, bp) && x - 1 !in UnitsOf(s, bp) by { assert Block(s.mem, s.owner, bp); }
      hide Inv, Block, UnitsOf;
      EndsInside(e, i);
      BlockIsFree(e, i, x);
      var k := InBlock(s, x);
      BlockIsFree(s, k, x - 1);
      var m := RunInOneBlock(e, x - 1, 2);
      if m < i { BlocksApart(e, m, i); } else if i < m { BlocksApart(e, i, m); }
    }
  }

  /** A fit right behind position k - 1 is the next fit. */
  lemma FitBehind(e: Heap, k: nat, n: nat, h: nat, to: nat)
    requires Inv(e) && 0 < k < |e.list| && e.list[k] < |e.mem| && n == e.mem[e.list[k]].size
    requires NextFit(e, e.list[k - 1], n, h, to)
    ensures h == e.list[k] && to == e.list[k - 1]
  {
    var f: nat, j: nat :| FitAt(e, f, j, n, h, to) && e.list[f] == e.list[k - 1];
    InvFacts(e);
    hide Inv;
    assert f == k - 1 && j == k;
  }

  lemma SomeFit(e: Heap, k: nat, n: nat)
    requires k < |e.list| && e.list[k] < |e.mem| && n <= e.mem[e.list[k]].size
    ensures !NoFit(e, n)
  {
  }

  /** A block given back between blocks in use is the next one handed out for its size, wherever
      else there is room: the search goes on from where free left it. */
  method FreedIsNext(a: Allocator, p: nat, nbytes: nat, sbrkOk: bool, gap: nat) returns (r: nat, killed: bool)
    requires a.Valid() && a.Backed() && a.freep != 0 && 0 < p && p - 1 in a.alloc && p - 1 < |a.mem| && nbytes <= UINT_MAX
    requires Alone(a.View(), p - 1) && Units(nbytes) == a.mem[p - 1].size
    modifies a
    ensures r == p && a.Valid() && a.alloc == old(a.alloc) && a.brk == old(a.brk)
  {
    hide Inv, NextFit, NoFit, Units, Alone, GivenBack, Allocator.Valid;
    ghost var s, e := GiveBack(a, p);
    ghost var q := a.freep;
    ghost var n, grown;
    r, killed, n, grown := Ask(a, nbytes, sbrkOk, gap);
    GivenBackSound(s, e, p - 1, q);
    Reused(s, e, p - 1, q, n, r, grown, a.freep);
  }

  method GiveBack(a: Allocator, p: nat) returns (ghost s: Heap, ghost e: Heap)
    requires a.Valid() && a.freep != 0 && 0 < p && p - 1 in a.alloc && p - 1 < |a.mem|
    modifies a`mem, a`freep, a`list, a`owner, a`alloc
    ensures a.Valid() && a.freep != 0 && |a.mem| == |old(a.mem)| && s == old(a.View()) && e == a.View() && GivenBack(s, e, p - 1, a.freep)
  {
    s := a.View();
    a.Free(p);
    e := a.View();
    hide Inv, FreeUnits, UnitsOf, AllUnits, DataKept;
  }

  /** malloc on a heap in use, and where the block comes from. */
  method Ask(a: Allocator, nbytes: nat, sbrkOk: bool, gap: nat) returns (r: nat, killed: bool, ghost n: nat, ghost grown: bool)
    requires a.Valid() && a.Backed() && a.freep != 0 && nbytes <= UINT_MAX
    modifies a
    ensures a.Valid() && a.freep != 0 && n == Units(nbytes)
    ensures if r == 0 || grown then NoFit(old(a.View()), n)
            else NextFit(old(a.View()), old(a.freep), n, r - 1, a.freep) && a.brk == old(a.brk) && a.alloc == old(a.alloc) + {r - 1}
  {
    hide Inv, DataKept, AllUnits, FreeUnits, UnitsOf, NextFit, NoFit, AskedFor, Run, Units, More, Allocator.Valid;
    r, killed, n, grown := a.Malloc(nbytes, sbrkOk, gap);
  }

  /** The search that begins at q finds the block just given back. */
  lemma Reused(s: Heap, e: Heap, bp: nat, q: nat, n: nat, r: nat, grown: bool, to: nat)
    requires GivenBack(s, e, bp, q) && Alone(s, bp) && n == s.mem[bp].size
    requires if r == 0 || grown then NoFit(e, n) else NextFit(e, q, n, r - 1, to)
    ensures r == bp + 1 && !grown
  {
    hide GivenBack, Alone, NextFit, NoFit;
    assert Inv(e) by { GivenBackSound(s, e, bp, q); }
    hide Inv;
    var k := NextIsFreed(s, e, bp, q);
    SomeFit(e, k, n);
    if r != 0 && !grown { FitBehind(e, k, n, r - 1, to); }
  }

  /** The last position of the list whose address is below bp. */
  ghost function Place(list: seq<nat>, bp: nat): (t: nat)
    requires list != [] && list[0] < bp
    ensures t < |list| && list[t] < bp
    ensures (forall i, j :: 0 <= i < j < |list| ==> list[i] < list[j]) ==>
              forall i :: t < i < |list| ==> bp <= list[i]
  {
    if |list| == 1 || list[|list| - 1] < bp then |list| - 1 else Place(list[..|list| - 1], bp)
  }

  ghost function Position(list: seq<nat>, a: nat): (k: nat)
    requires a in list
    ensures k < |list| && list[k] == a
  {
    var k :| 0 <= k < |list| && list[k] == a;
    k
  }

  lemma InvFacts(s: Heap)
    requires Inv(s)
    ensures InMemory(s) && |s.owner| == |s.mem| && s.list != [] && s.list[0] == BASE && s.mem[BASE].size == 0
    ensures forall i, j :: 0 <= i < j < |s.list| ==> s.list[i] < s.list[j]
    ensures forall h :: h in s.alloc ==> BASE < h && h !in s.list
  {
    assert forall h :: h in s.alloc ==> Block(s.mem, s.owner, h);
  }

  lemma LinkFacts(s: Heap, k: nat)
    requires Inv(s) && k < |s.list|
    ensures Linked(s, k) && s.list[k] < |s.mem| && s.mem[s.list[k]].ptr == s.list[Succ(k, |s.list|)] < |s.mem|
  {
    assert Linked(s, k) && Linked(s, Succ(k, |s.list|));
  }
}
