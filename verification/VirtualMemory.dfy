/**
 kalloc.c and vm.c in their own form: one kernel object owns physical memory, the free list is
 threaded through the free pages themselves, and page tables are read and written in place.
 Each method is proved against the flat maps of PageTree.
 */
module VirtualMemory {
  import opened PageTree
  import opened Basics

  const PTE_V: nat := 1
  const PTE_R: nat := 2
  const PTE_W: nat := 4
  const PTE_X: nat := 8
  const PTE_U: nat := 16

  const JUNK1: Page := seq(NPTE, _ => 0x0101_0101_0101_0101)
  const JUNK5: Page := seq(NPTE, _ => 0x0505_0505_0505_0505)

  function PGROUNDUP(sz: nat): nat { (sz + PGSIZE - 1) / PGSIZE * PGSIZE }
  function PGROUNDDOWN(a: nat): nat { a / PGSIZE * PGSIZE }

  /** The number of pages that sz bytes occupy. */
  function Pages(sz: nat): (n: nat)
    ensures n * 4096 >= sz && n * 4096 < sz + 4096 && PGROUNDUP(sz) == n * 4096
  {
    (sz + PGSIZE - 1) / PGSIZE
  }

  function PA(p: nat): nat { p * PGSIZE }

  // ---- what operations on one address space may change ----------------------------------

  /** Table pages may join root's tree; nothing else changes its role, and only root's tables
      and formerly free pages change their contents. */
  ghost predicate TreeGrew(m: seq<Page>, use: seq<Use>, n: seq<Page>, new': seq<Use>, root: nat) {
    && |n| == |new'| == |m| == |use|
    && (forall q :: 0 <= q < |m| && new'[q] != use[q] ==>
          use[q].Free? && new'[q].Table? && new'[q].root == root && new'[q].level < 2)
    && (forall q :: 0 <= q < |m| && !use[q].Free? && !(use[q].Table? && use[q].root == root) ==> n[q] == m[q])
  }

  /** Virtual pages lo..hi of root lose their entries, everything else translates as before. */
  ghost predicate RangeCleared(m: seq<Page>, n: seq<Page>, use: seq<Use>, root: nat, lo: nat, hi: nat) {
    forall s, u :: Live(use, s) && 0 <= u < MAXVPN ==>
      Entry(n, s, u) == if s == root && lo <= u < hi then 0 else Entry(m, s, u)
  }

  predicate FrameIn(u: Use, root: nat, lo: nat, hi: nat) {
    u.Frame? && u.root == root && lo <= u.vpn < hi
  }

  /** Exactly the frames of pages lo..hi get the new role. */
  ghost predicate FramesBecome(use: seq<Use>, new': seq<Use>, root: nat, lo: nat, hi: nat, role: Use) {
    |new'| == |use| && forall q :: 0 <= q < |use| ==>
      new'[q] == if FrameIn(use[q], root, lo, hi) then role else use[q]
  }

  /** The free list: page numbers in order, each page's first word the address of the next. */
  ghost predicate FreeOk(m: seq<Page>, use: seq<Use>, lo: nat, freelist: nat, free: seq<nat>) {
    && |m| == |use|
    && (forall i :: 0 <= i < |free| ==> free[i] < |m|)
    && Distinct(free)
    && (forall i :: 0 <= i < |free| - 1 ==> m[free[i]][0] == PA(free[i + 1]))
    && (free != [] ==> m[free[|free| - 1]][0] == 0)
    && freelist == (if free == [] then 0 else PA(free[0]))
    && (forall q :: 0 <= q < |use| ==> (use[q].Free? <==> q in free))
    && (forall q :: 0 <= q < |use| && !use[q].Other? ==> 0 < lo <= q)
  }

  lemma Composed(root: nat, m: seq<Page>, use: seq<Use>, m1: seq<Page>, use1: seq<Use>, m2: seq<Page>, use2: seq<Use>)
    requires Sized(m, use) && Live(use, root)
    requires TreeGrew(m, use, m1, use1, root) && TreeGrew(m1, use1, m2, use2, root)
    requires SameEntries(m, m1, use) && SameEntries(m1, m2, use1)
    ensures TreeGrew(m, use, m2, use2, root) && SameEntries(m, m2, use)
  {
    assert forall r :: Live(use, r) ==> Live(use1, r);
  }

  /** done pages from v0 on map the frames from f on; root's tree may have grown for it. */
  ghost predicate Mapping(m: seq<Page>, use: seq<Use>, n: seq<Page>, new': seq<Use>,
                          root: nat, v0: nat, f: nat, done: nat, perm: nat)
    requires perm < 1024
  {
    && |n| == |new'| == |m| == |use|
    && (forall s, u :: Live(use, s) && 0 <= u < MAXVPN ==>
          Entry(n, s, u) == if s == root && v0 <= u < v0 + done then Pte(f + u - v0, perm) else Entry(m, s, u))
    && (forall q :: 0 <= q < |m| ==>
          new'[q] == use[q]
          || (use[q].Free? && new'[q].Table? && new'[q].root == root && new'[q].level < 2)
          || (use[q].Held? && f <= q < f + done && new'[q] == Frame(root, v0 + q - f)))
    && (forall q :: f <= q < f + done && q < |m| && use[q].Held? ==> new'[q] == Frame(root, v0 + q - f))
    && (forall q :: 0 <= q < |m| && !use[q].Free? && !(use[q].Table? && use[q].root == root) ==> n[q] == m[q])
  }

  /** The tree grows, then entry v is written: one page mapped. */
  lemma GrewThenLeaf(m: seq<Page>, use: seq<Use>, m1: seq<Page>, use1: seq<Use>, m2: seq<Page>, use2: seq<Use>,
                     root: nat, v: nat, f: nat, perm: nat)
    requires Sized(m, use) && Live(use, root) && perm < 1024 && v < MAXVPN
    requires SameEntries(m, m1, use) && TreeGrew(m, use, m1, use1, root)
    requires f < |m| && (use[f].Held? || use[f].Other?)
    requires EntrySet(m1, m2, use1, root, v, Pte(f, perm))
    requires use2 == if use1[f].Held? then use1[f := Frame(root, v)] else use1
    requires |m2| == |m1| && forall q :: 0 <= q < |m1| && !(use1[q].Table? && use1[q].root == root) ==> m2[q] == m1[q]
    ensures Mapping(m, use, m2, use2, root, v, f, 1, perm)
  {
    assert forall s :: Live(use, s) ==> Live(use1, s);
  }

  lemma GrewMapsNothing(m: seq<Page>, use: seq<Use>, m1: seq<Page>, use1: seq<Use>, root: nat, v: nat, f: nat, perm: nat)
    requires perm < 1024 && SameEntries(m, m1, use) && TreeGrew(m, use, m1, use1, root)
    ensures Mapping(m, use, m1, use1, root, v, f, 0, perm)
  {
  }

  lemma MappingExtends(m: seq<Page>, use: seq<Use>, m1: seq<Page>, use1: seq<Use>, m2: seq<Page>, use2: seq<Use>,
                       root: nat, v0: nat, f: nat, done: nat, more: nat, perm: nat)
    requires Live(use, root) && perm < 1024 && more <= 1
    requires Mapping(m, use, m1, use1, root, v0, f, done, perm)
    requires Mapping(m1, use1, m2, use2, root, v0 + done, f + done, more, perm)
    ensures Mapping(m, use, m2, use2, root, v0, f, done + more, perm)
  {
    assert forall s :: Live(use, s) ==> Live(use1, s);
  }

  /** Pages lo..hi of root lose their entries and their frames get the new role; nothing else
      changes role, translation or contents. */
  ghost predicate Unmapping(m: seq<Page>, use: seq<Use>, n: seq<Page>, new': seq<Use>,
                            root: nat, lo: nat, hi: nat, role: Use) {
    && |n| == |new'| == |m| == |use|
    && RangeCleared(m, n, use, root, lo, hi) && FramesBecome(use, new', root, lo, hi, role)
    && (forall q :: 0 <= q < |m| && new'[q] == use[q] && !use[q].Free? && !(use[q].Table? && use[q].root == root) ==>
          n[q] == m[q])
  }

  lemma UnmappingExtends(m: seq<Page>, use: seq<Use>, m1: seq<Page>, use1: seq<Use>, m2: seq<Page>, use2: seq<Use>,
                         root: nat, lo: nat, v: nat, role: Use)
    requires Live(use, root) && lo <= v && (role.Free? || role.Held?)
    requires Unmapping(m, use, m1, use1, root, lo, v, role) && Unmapping(m1, use1, m2, use2, root, v, v + 1, role)
    ensures Unmapping(m, use, m2, use2, root, lo, v + 1, role)
  {
    assert forall s :: Live(use, s) ==> Live(use1, s);
  }

  /** Pages lo..hi are mapped, and, if owned, to frames of their own. */
  ghost predicate Mapped(m: seq<Page>, use: seq<Use>, root: nat, lo: nat, hi: nat, owned: bool) {
    forall v :: lo <= v < hi && v < MAXVPN ==>
      && V(Entry(m, root, v))
      && (owned ==> Ppn(Entry(m, root, v)) < |use| && use[Ppn(Entry(m, root, v))] == Frame(root, v))
  }

  lemma StillMapped(m: seq<Page>, use: seq<Use>, n: seq<Page>, new': seq<Use>, root: nat, lo: nat, v: nat, hi: nat,
                    role: Use, owned: bool)
    requires Live(use, root) && Unmapping(m, use, n, new', root, lo, v, role) && lo <= v <= hi && (role.Free? || role.Held?)
    requires Mapped(m, use, root, lo, hi, owned)
    ensures Live(new', root) && Mapped(n, new', root, v, hi, owned)
  {
  }

  /** Pages lo..hi of root are mapped with the given contents and flags, to frames that came
      from the free list; beyond that only root's tree may have grown. */
  ghost predicate Filled(m: seq<Page>, use: seq<Use>, n: seq<Page>, new': seq<Use>,
                         root: nat, lo: nat, hi: nat, contents: seq<Page>, perms: seq<nat>)
    requires lo <= hi && hi - lo <= |contents| && hi - lo <= |perms|
  {
    && |n| == |new'| == |m| == |use|
    && (forall s, u :: Live(use, s) && 0 <= u < MAXVPN && !(s == root && lo <= u < hi) ==> Entry(n, s, u) == Entry(m, s, u))
    && (forall u :: lo <= u < hi && u < MAXVPN ==>
          && V(Entry(n, root, u)) && Flags(Entry(n, root, u)) == perms[u - lo]
          && Ppn(Entry(n, root, u)) < |n| && use[Ppn(Entry(n, root, u))].Free?
          && new'[Ppn(Entry(n, root, u))] == Frame(root, u) && n[Ppn(Entry(n, root, u))] == contents[u - lo])
    && (forall q :: 0 <= q < |m| && new'[q] != use[q] ==>
          use[q].Free? && ((new'[q].Table? && new'[q].root == root && new'[q].level < 2) || FrameIn(new'[q], root, lo, hi)))
    && (forall q :: 0 <= q < |m| && !use[q].Free? && !(use[q].Table? && use[q].root == root) ==> n[q] == m[q])
  }

  lemma FilledExtends(m: seq<Page>, use: seq<Use>, m1: seq<Page>, use1: seq<Use>, m2: seq<Page>, use2: seq<Use>,
                      root: nat, lo: nat, v: nat, contents: seq<Page>, perms: seq<nat>)
    requires Live(use, root) && lo <= v < MAXVPN && v - lo < |contents| && v - lo < |perms|
    requires Filled(m, use, m1, use1, root, lo, v, contents, perms)
    requires Filled(m1, use1, m2, use2, root, v, v + 1, [contents[v - lo]], [perms[v - lo]])
    ensures Filled(m, use, m2, use2, root, lo, v + 1, contents, perms)
  {
    assert forall s :: Live(use, s) ==> Live(use1, s);
  }

  /** A failing step between: the tree grew, nothing was mapped. */
  lemma FilledThenGrew(m: seq<Page>, use: seq<Use>, m1: seq<Page>, use1: seq<Use>, m2: seq<Page>, use2: seq<Use>,
                       root: nat, lo: nat, v: nat, contents: seq<Page>, perms: seq<nat>)
    requires Live(use, root) && lo <= v <= MAXVPN && v - lo <= |contents| && v - lo <= |perms|
    requires Filled(m, use, m1, use1, root, lo, v, contents, perms)
    requires SameEntries(m1, m2, use1) && TreeGrew(m1, use1, m2, use2, root)
    ensures Filled(m, use, m2, use2, root, lo, v, contents, perms)
  {
    assert forall s :: Live(use, s) ==> Live(use1, s);
  }

  /** What was filled is unmapped and freed again: all that remains is tables. */
  lemma Unwound(m: seq<Page>, use: seq<Use>, m1: seq<Page>, use1: seq<Use>, m2: seq<Page>, use2: seq<Use>,
                root: nat, lo: nat, v: nat, contents: seq<Page>, perms: seq<nat>)
    requires Live(use, root) && lo <= v <= MAXVPN && v - lo <= |contents| && v - lo <= |perms|
    requires Filled(m, use, m1, use1, root, lo, v, contents, perms)
    requires forall q :: 0 <= q < |use| ==> !FrameIn(use[q], root, lo, v)
    requires Unmapping(m1, use1, m2, use2, root, lo, v, Free)
    ensures TreeGrew(m, use, m2, use2, root) && RangeCleared(m, m2, use, root, lo, v)
  {
    assert forall s :: Live(use, s) ==> Live(use1, s);
  }

  /** Mapping an unmapped page to a held or foreign frame is a change of one leaf. */
  lemma LeafSet(m: seq<Page>, use: seq<Use>, root: nat, v: nat, p: nat, i: nat, f: nat, perm: nat)
    requires TreeOk(m, use) && Live(use, root) && v < MAXVPN && perm < 1024 && Rwx(perm)
    requires p == T0(m, root, v / NPTE) && 0 < p < |m| && i == v % NPTE && !V(m[p][i])
    requires use[p] == Table(root, 0, v / NPTE) && f < |m| && (use[f].Held? || use[f].Other?)
    ensures LeafChange(m, use, m[p := m[p][i := Pte(f, perm)]], if use[f].Held? then use[f := Frame(root, v)] else use,
                       root, v, Pte(f, perm))
  {
    hide Down, Up, Leaves;
    assert !V(Entry(m, root, v));
    assert forall q :: 0 <= q < |m| ==> use[q] != Frame(root, v);
  }

  /** While pages are left, the next one is unmapped and its frame at hand. */
  lemma NextPage(m: seq<Page>, use: seq<Use>, n: seq<Page>, new': seq<Use>,
                 root: nat, v0: nat, hi: nat, f: nat, done: nat, perm: nat)
    requires perm < 1024 && Mapping(m, use, n, new', root, v0, f, done, perm) && Live(use, root)
    requires v0 + done <= hi < MAXVPN && Unmapped(m, root, v0, hi) && Mappable(use, f, f + hi - v0)
    ensures Live(new', root) && !V(Entry(n, root, v0 + done))
    ensures f + done < |n| && (new'[f + done].Held? || new'[f + done].Other?)
  {
  }

  lemma FirstFree(m: seq<Page>, use: seq<Use>, lo: nat, freelist: nat, free: seq<nat>)
    requires FreeOk(m, use, lo, freelist, free)
    ensures freelist / PGSIZE == 0 <==> free == []
    ensures free != [] ==> freelist / PGSIZE == free[0] < |m| && use[free[0]].Free?
  {
    assert free != [] ==> free[0] in free;
  }

  lemma Popped(m: seq<Page>, use: seq<Use>, lo: nat, freelist: nat, free: seq<nat>, junk: Page)
    requires FreeOk(m, use, lo, freelist, free) && free != []
    ensures FreeOk(m[free[0] := junk], use[free[0] := Held], lo, m[free[0]][0], free[1..])
  {
    var rest := free[1..];
    assert forall q :: q in rest <==> q in free && q != free[0];
    var n, new' := m[free[0] := junk], use[free[0] := Held];
    assert free[0] in free;
    assert |free| > 1 ==> m[free[0]][0] == PA(free[1]);
    assert |free| == 1 ==> m[free[0]][0] == 0;
    assert rest != [] ==> n[rest[|rest| - 1]][0] == 0;
    assert forall q :: 0 <= q < |use| ==> (new'[q].Free? <==> q in rest);
    forall i | 0 <= i < |rest| - 1
      ensures m[free[0] := junk][rest[i]][0] == PA(rest[i + 1])
    {
      assert rest[i] == free[i + 1] && m[free[i + 1]][0] == PA(free[i + 2]);
    }
  }

  lemma Managed(m: seq<Page>, use: seq<Use>, lo: nat, freelist: nat, free: seq<nat>)
    requires FreeOk(m, use, lo, freelist, free)
    ensures forall q :: 0 <= q < |use| && !use[q].Other? ==> 0 < lo <= q
  {
  }

  /** The free pages are the same and their links untouched. */
  lemma SameFreeList(m: seq<Page>, use: seq<Use>, n: seq<Page>, new': seq<Use>, lo: nat, freelist: nat, free: seq<nat>)
    requires FreeOk(m, use, lo, freelist, free) && |n| == |new'| == |m|
    requires forall q :: 0 <= q < |m| ==> (use[q].Free? <==> new'[q].Free?) && (use[q].Other? ==> new'[q].Other?)
    requires forall q :: 0 <= q < |m| && use[q].Free? ==> n[q][0] == m[q][0]
    ensures FreeOk(n, new', lo, freelist, free)
  {
    assert forall i :: 0 <= i < |free| ==> use[free[i]].Free?;
  }

  lemma LeafCleared(m: seq<Page>, use: seq<Use>, n: seq<Page>, new': seq<Use>, root: nat, v: nat, p: nat, q: nat, role: Use)
    requires TreeOk(m, use) && Live(use, root) && v < MAXVPN && (role.Free? || role.Held?)
    requires p == T0(m, root, v / NPTE) && 0 < p < |m| && V(m[p][v % NPTE]) && q == Ppn(m[p][v % NPTE]) && q < |m|
    requires new' == if use[q] == Frame(root, v) then use[q := role] else use
    requires |n| == |m| && n[p] == m[p][v % NPTE := 0]
    requires forall x :: 0 <= x < |m| && x != p && new'[x] == use[x] ==> n[x] == m[x]
    ensures TreeOk(n, new') && Unmapping(m, use, n, new', root, v, v + 1, role)
  {
    hide Down, Up, Leaves, Frames;
    LeafFacts(m, use, root, v);
    WalkUses(m, use, root, v / NPTE);
    LeafWriteKeepsTree(m, use, n, new', root, v, 0);
  }

  class Kernel {
    var mem: seq<Page>      // physical memory, by page number
    var freelist: nat       // kmem.freelist, an address
    const lo: nat           // the first page after the kernel image
    ghost var use: seq<Use>
    ghost var free: seq<nat>

    ghost predicate Valid()
      reads this
    {
      Sized(mem, use) && TreeOk(mem, use) && FreeOk(mem, use, lo, freelist, free)
    }

    /** kinit: every whole page from the end of the kernel image on goes to the free list. */
    constructor (lo: nat, memory: seq<Page>)
      requires 0 < lo <= |memory|
      ensures Valid() && |mem| == |memory|
      ensures forall q :: 0 <= q < |mem| ==> use[q] == if q < lo then Other else Free
    {
      this.lo := lo;
      mem := memory;
      freelist := 0;
      use := seq(|memory|, q => if q < lo then Other else Held);
      free := [];
      new;
      var p := lo;
      while p < |mem|
        invariant lo <= p <= |mem| == |memory| && FreeOk(mem, use, lo, freelist, free)
        invariant forall q :: 0 <= q < |mem| ==> use[q] == if q < lo then Other else if q < p then Free else Held
      {
        Kfree(p);
        p := p + 1;
      }
    }

    /** Pop a page, filled with junk; 0 when there is none. */
    method Kalloc() returns (p: nat)
      requires Valid()
      modifies this
      ensures Valid() && SameEntries(old(mem), mem, old(use))
      ensures p == 0 <==> old(free) == []
      ensures p == 0 ==> mem == old(mem) && use == old(use) && free == old(free)
      ensures p != 0 ==>
                && p < |old(use)| && old(use)[p].Free? && free == old(free)[1..]
                && use == old(use)[p := Held] && mem == old(mem)[p := JUNK5]
    {
      hide TreeOk, FreeOk;
      ghost var m, u := mem, use;
      FirstFree(mem, use, lo, freelist, free);
      p := freelist / PGSIZE;
      if p != 0 {
        Popped(mem, use, lo, freelist, free, JUNK5);
        freelist := mem[p][0];
        mem := mem[p := JUNK5];
        use := use[p := Held];
        free := free[1..];
        OutsideKeepsTree(m, u, mem, use);
      }
    }

    /** Push a page, its contents replaced by junk and the link. The tree may still mention the
        page when this is called, so only the free list is promised to be in order. */
    method Kfree(p: nat)
      requires FreeOk(mem, use, lo, freelist, free)
      requires lo <= p < |mem| && 0 < lo && !use[p].Free?
      modifies this
      ensures FreeOk(mem, use, lo, freelist, free)
      ensures use == old(use)[p := Free] && free == [p] + old(free)
      ensures mem == old(mem)[p := JUNK1[0 := old(freelist)]]
    {
      ghost var f := free;
      mem := mem[p := JUNK1[0 := freelist]];
      freelist := PA(p);
      use := use[p := Free];
      free := [p] + free;
      assert forall q :: q in free <==> q in f || q == p;
    }

    /** kfree of a page that serves for nothing. */
    method KfreeHeld(p: nat)
      requires Valid() && p < |mem| && use[p].Held?
      modifies this
      ensures Valid() && SameEntries(old(mem), mem, old(use))
      ensures use == old(use)[p := Free] && free == [p] + old(free)
      ensures |mem| == |old(mem)| && forall q :: 0 <= q < |mem| && q != p ==> mem[q] == old(mem)[q]
    {
      ghost var m, u := mem, use;
      Kfree(p);
      OutsideKeepsTree(m, u, mem, use);
    }

    /** The place of the entry of va, tables made on the way if alloc. */
    method Walk(root: nat, va: nat, alloc: bool) returns (p: nat, i: nat)
      requires Valid() && Live(use, root) && va < MAXVA
      modifies this
      ensures Valid() && SameEntries(old(mem), mem, old(use)) && TreeGrew(old(mem), old(use), mem, use, root)
      ensures p != 0 ==> p == T0(mem, root, va / PGSIZE / NPTE) && p < |mem| && i == va / PGSIZE % NPTE
      ensures p != 0 ==> use[p] == Table(root, 0, va / PGSIZE / NPTE) && mem[p][i] == Entry(mem, root, va / PGSIZE)
      ensures p == 0 ==> Entry(mem, root, va / PGSIZE) == 0
      ensures |free| + 2 >= |old(free)| && (p == 0 && alloc ==> |old(free)| < 2)
      ensures !alloc ==> mem == old(mem) && use == old(use) && free == old(free)
    {
      hide Down, Up, Leaves, Frames, FreeOk;
      IndexIsKey(va);
      ghost var v := va / PGSIZE;
      p := root;
      var level := 2;
      while level > 0
        invariant level <= 2 && Valid() && Live(use, root) && p < |mem|
        invariant use[p] == Table(root, level, KeyAt(level, v))
        invariant SameEntries(old(mem), mem, old(use)) && TreeGrew(old(mem), old(use), mem, use, root)
        invariant |free| + 2 - level >= |old(free)|
        invariant !alloc ==> mem == old(mem) && use == old(use) && free == old(free)
      {
        ghost var m0, u0 := mem, use;
        i := PX(level, va);
        var pte := mem[p][i];
        Descent(mem, use, root, level, v, p);
        if V(pte) {
          p := Ppn(pte);
        } else {
          if !alloc {
            return 0, 0;
          }
          var x := NewTable(p, i);
          Composed(root, old(mem), old(use), m0, u0, mem, use);
          if x == 0 {
            return 0, 0;
          }
          p := x;
        }
        level := level - 1;
      }
      i := PX(0, va);
      Bottom(mem, use, root, v, p);
    }

    /** A fresh table below entry i of table p, or 0 when memory is exhausted. */
    method NewTable(p: nat, i: nat) returns (x: nat)
      requires Valid() && 0 < p < |mem| && i < NPTE
      requires use[p].Table? && 0 < use[p].level <= 2 && (use[p].level == 2 ==> i < TOP) && !V(mem[p][i])
      modifies this
      ensures Valid() && SameEntries(old(mem), mem, old(use)) && TreeGrew(old(mem), old(use), mem, use, old(use)[p].root)
      ensures x == 0 ==> old(free) == free == [] && mem == old(mem) && use == old(use)
      ensures x != 0 ==> |free| == |old(free)| - 1
      ensures x != 0 ==> x < |mem| && use == old(use)[x := Table(use[p].root, use[p].level - 1, use[p].key * NPTE + i)]
    {
      hide Down, Up, Leaves, Frames, FreeOk;
      x := Kalloc();
      if x != 0 {
        AddTable(p, i, x);
      }
    }

    /** Zero page x and hang it below entry i of table p. */
    method AddTable(p: nat, i: nat, x: nat)
      requires Valid() && 0 < p < |mem| && 0 < x < |mem| && i < NPTE
      requires use[p].Table? && use[p].level > 0 && (use[p].level == 2 ==> i < TOP) && !V(mem[p][i]) && use[x].Held?
      modifies this
      ensures Valid() && SameEntries(old(mem), mem, old(use)) && free == old(free)
      ensures use == old(use)[x := Table(old(use)[p].root, old(use)[p].level - 1, old(use)[p].key * NPTE + i)]
      ensures |mem| == |old(mem)| && forall q :: 0 <= q < |mem| && q != p && q != x ==> mem[q] == old(mem)[q]
    {
      hide Down, Up, Leaves, Frames;
      ghost var m, u := mem, use;
      mem := mem[x := seq(NPTE, _ => 0)];
      mem := mem[p := mem[p][i := Pte(x, 0)]];
      use := use[x := Table(use[p].root, use[p].level - 1, use[p].key * NPTE + i)];
      TableWriteKeepsTree(m, u, mem, use, p, i, x);
    }

    /** walkaddr: the physical page of a user address, 0 if there is none. */
    method WalkAddr(root: nat, va: nat) returns (pa: nat)
      requires Valid() && Live(use, root)
      modifies this
      ensures mem == old(mem) && use == old(use) && free == old(free) && Valid()
      ensures pa == if va < MAXVA && V(Entry(mem, root, va / PGSIZE)) && Entry(mem, root, va / PGSIZE) / PTE_U % 2 == 1
                    then PA(Ppn(Entry(mem, root, va / PGSIZE))) else 0
    {
      if va >= MAXVA {
        return 0;
      }
      var p, i := Walk(root, va, false);
      if p == 0 || !V(mem[p][i]) || mem[p][i] / PTE_U % 2 == 0 {
        return 0;
      }
      pa := PA(Ppn(mem[p][i]));
    }

    /** Write the entry of an unmapped page, found by a walk, for frame f. */
    method SetLeaf(root: nat, v: nat, p: nat, i: nat, f: nat, perm: nat)
      requires Valid() && Live(use, root) && v < MAXVPN && perm < 1024 && Rwx(perm)
      requires p == T0(mem, root, v / NPTE) && 0 < p < |mem| && i == v % NPTE && !V(mem[p][i])
      requires use[p] == Table(root, 0, v / NPTE)
      requires f < |mem| && (use[f].Held? || use[f].Other?)
      modifies this
      ensures Valid() && EntrySet(old(mem), mem, old(use), root, v, Pte(f, perm)) && free == old(free)
      ensures use == if old(use)[f].Held? then old(use)[f := Frame(root, v)] else old(use)
      ensures |mem| == |old(mem)| && forall q :: 0 <= q < |mem| && q != p ==> mem[q] == old(mem)[q]
    {
      hide TreeOk, LeafChange, EntrySet;
      ghost var m, u := mem, use;
      LeafSet(m, u, root, v, p, i, f, perm);
      mem := mem[p := mem[p][i := Pte(f, perm)]];
      use := if use[f].Held? then use[f := Frame(root, v)] else use;
      LeafWriteKeepsTree(m, u, mem, use, root, v, Pte(f, perm));
    }

    /** One turn of the mapping loop. */
    method MapOne(root: nat, a: nat, pa: nat, perm: nat) returns (ok: bool)
      requires Valid() && Live(use, root) && perm < 1024 && Rwx(perm) && a < MAXVA
      requires !V(Entry(mem, root, a / PGSIZE))
      requires pa / PGSIZE < |mem| && (use[pa / PGSIZE].Held? || use[pa / PGSIZE].Other?)
      modifies this
      ensures Valid()
      ensures Mapping(old(mem), old(use), mem, use, root, a / PGSIZE, pa / PGSIZE, if ok then 1 else 0, perm)
      ensures |free| + 2 >= |old(free)| && (!ok ==> |old(free)| < 2)
    {
      hide TreeOk, FreeOk;
      ghost var m, u := mem, use;
      var p, i := Walk(root, a, true);
      if p == 0 {
        GrewMapsNothing(m, u, mem, use, root, a / PGSIZE, pa / PGSIZE, perm);
        return false;
      }
      ghost var m1, u1 := mem, use;
      assert mem[p][i] == Entry(mem, root, a / PGSIZE);
      SetLeaf(root, a / PGSIZE, p, i, pa / PGSIZE, perm);
      GrewThenLeaf(m, u, m1, u1, mem, use, root, a / PGSIZE, pa / PGSIZE, perm);
      ok := true;
    }

    /** Map the pages that va..va+size touches to the frames from pa on. On failure, which takes
        fewer than two free pages for each, a first part of them is mapped. */
    method MapPages(root: nat, va: nat, size: nat, pa: nat, perm: nat) returns (ok: bool, ghost done: nat)
      requires Valid() && Live(use, root) && perm < 1024 && Rwx(perm)
      requires 0 < size && va + size <= MAXVA
      requires Unmapped(mem, root, va / PGSIZE, (va + size - 1) / PGSIZE)
      requires Mappable(use, pa / PGSIZE, pa / PGSIZE + (va + size - 1) / PGSIZE - va / PGSIZE)
      modifies this
      ensures Valid() && Mapping(old(mem), old(use), mem, use, root, va / PGSIZE, pa / PGSIZE, done, perm)
      ensures if ok then done == (va + size - 1) / PGSIZE - va / PGSIZE + 1
              else done <= (va + size - 1) / PGSIZE - va / PGSIZE && |old(free)| < 2 * (done + 1)
      ensures |free| + 2 * ((va + size - 1) / PGSIZE - va / PGSIZE + 1) >= |old(free)|
    {
      hide TreeOk, FreeOk, Mapping, Unmapped, Mappable;
      var a := PGROUNDDOWN(va);
      var last := PGROUNDDOWN(va + size - 1);
      var pa' := pa;
      ghost var v0, f, hi := va / PGSIZE, pa / PGSIZE, (va + size - 1) / PGSIZE;
      ghost var m0, u0 := mem, use;
      done := 0;
      GrewMapsNothing(m0, u0, mem, use, root, v0, f, perm);
      while true
        invariant Valid() && Mapping(m0, u0, mem, use, root, v0, f, done, perm)
        invariant v0 + done <= hi && a == PA(v0 + done) && pa' == pa + PA(done)
        invariant |free| + 2 * done >= |old(free)|
        decreases hi - v0 - done
      {
        ghost var m1, u1 := mem, use;
        NextPage(m0, u0, mem, use, root, v0, hi, f, done, perm);
        ok := MapOne(root, a, pa', perm);
        MappingExtends(m0, u0, m1, u1, mem, use, root, v0, f, done, if ok then 1 else 0, perm);
        if !ok {
          return;
        }
        done := done + 1;
        if a == last {
          return;
        }
        a := a + PGSIZE;
        pa' := pa' + PGSIZE;
      }
    }

    /** Clear the entry of a mapped page; its frame is freed, or handed to the caller. */
    method ClearLeaf(root: nat, v: nat, p: nat, i: nat, doFree: bool)
      requires Valid() && Live(use, root) && v < MAXVPN
      requires p == T0(mem, root, v / NPTE) && 0 < p < |mem| && i == v % NPTE && V(mem[p][i])
      requires use[p] == Table(root, 0, v / NPTE)
      requires doFree ==> Ppn(mem[p][i]) < |mem| && use[Ppn(mem[p][i])] == Frame(root, v)
      modifies this
      ensures Valid() && Unmapping(old(mem), old(use), mem, use, root, v, v + 1, if doFree then Free else Held)
    {
      hide TreeOk, FreeOk, Unmapping;
      ghost var m, u := mem, use;
      ghost var q := Ppn(mem[p][i]);
      LeafFacts(mem, use, root, v);
      Managed(mem, use, lo, freelist, free);
      if doFree {
        Kfree(Ppn(mem[p][i]));
      } else if use[q] == Frame(root, v) {
        use := use[q := Held];
        SameFreeList(mem, u, mem, use, lo, freelist, free);
      }
      ghost var m1 := mem;
      mem := mem[p := mem[p][i := 0]];
      SameFreeList(m1, use, mem, use, lo, freelist, free);
      LeafCleared(m, u, mem, use, root, v, p, q, if doFree then Free else Held);
    }

    /** uvmunmap: the mappings must exist. With doFree the frames go back to the free list. */
    method UvmUnmap(root: nat, va: nat, npages: nat, doFree: bool)
      requires Valid() && Live(use, root) && va % PGSIZE == 0 && va / PGSIZE + npages <= MAXVPN
      requires Mapped(mem, use, root, va / PGSIZE, va / PGSIZE + npages, doFree)
      modifies this
      ensures Valid()
      ensures Unmapping(old(mem), old(use), mem, use, root, va / PGSIZE, va / PGSIZE + npages, if doFree then Free else Held)
    {
      hide TreeOk, FreeOk, Mapped, Unmapping;
      ghost var m, u, v := mem, use, va / PGSIZE;
      ghost var role := if doFree then Free else Held;
      UnmappingNothing(m, u, root, v, role);
      var a := va;
      while a < va + npages * PGSIZE
        invariant va / PGSIZE <= v <= va / PGSIZE + npages && a == PA(v)
        invariant Valid() && Unmapping(m, u, mem, use, root, va / PGSIZE, v, role)
        decreases va / PGSIZE + npages - v
      {
        ghost var m1, u1 := mem, use;
        StillMapped(m, u, mem, use, root, va / PGSIZE, v, va / PGSIZE + npages, role, doFree);
        NextMapped(mem, use, root, v, va / PGSIZE + npages, doFree);
        var p, i := Walk(root, a, false);
        ClearLeaf(root, a / PGSIZE, p, i, doFree);
        UnmappingExtends(m, u, m1, u1, mem, use, root, va / PGSIZE, v, role);
        a := a + PGSIZE;
        v := v + 1;
      }
    }

    /** uvmdealloc: shrink to newsz, if that is a shrinking at all. */
    method UvmDealloc(root: nat, oldsz: nat, newsz: nat) returns (sz: nat)
      requires Valid() && Live(use, root) && Pages(oldsz) <= MAXVPN
      requires Mapped(mem, use, root, Pages(newsz), Pages(oldsz), true)
      modifies this
      ensures Valid() && sz == (if newsz < oldsz then newsz else oldsz)
      ensures Unmapping(old(mem), old(use), mem, use, root, Pages(newsz), Pages(oldsz), Free)
    {
      hide TreeOk, FreeOk, Mapped, Unmapping;
      UnmappingEmpty(mem, use, root, Pages(newsz), Pages(oldsz), Free);
      if newsz >= oldsz {
        return oldsz;
      }
      if PGROUNDUP(newsz) < PGROUNDUP(oldsz) {
        var npages := (PGROUNDUP(oldsz) - PGROUNDUP(newsz)) / PGSIZE;
        UvmUnmap(root, PGROUNDUP(newsz), npages, true);
      }
      sz := newsz;
    }

    /** One turn of the loops of uvmalloc and uvmcopy: a fresh frame with these contents. */
    method MapFresh(root: nat, a: nat, content: Page, perm: nat) returns (ok: bool)
      requires Valid() && Live(use, root) && perm < 1024 && V(perm) && Rwx(perm)
      requires a % PGSIZE == 0 && a < MAXVA && !V(Entry(mem, root, a / PGSIZE))
      modifies this
      ensures Valid() && Live(use, root)
      ensures ok ==> Filled(old(mem), old(use), mem, use, root, a / PGSIZE, a / PGSIZE + 1, [content], [perm])
      ensures !ok ==> SameEntries(old(mem), mem, old(use)) && TreeGrew(old(mem), old(use), mem, use, root)
      ensures |free| + 3 >= |old(free)| && (!ok ==> |old(free)| < 3)
    {
      hide TreeOk, FreeOk, Mapping, Filled, Unmapped, Mappable, TreeGrew, SameEntries;
      ghost var m, u := mem, use;
      var p := KallocFilled(content);
      if p == 0 {
        NothingDone(m, u, root);
        return false;
      }
      ghost var m1, u1, done := mem, use, 0;
      OnePage(m, mem, u, use, root, a / PGSIZE, p);
      ok, done := MapPages(root, a, PGSIZE, PA(p), perm);
      if ok {
        FreshMapped(m, u, m1, u1, mem, use, root, a / PGSIZE, p, content, perm);
      } else {
        ghost var m2, u2 := mem, use;
        StillHeld(m1, u1, mem, use, root, a / PGSIZE, p, perm);
        KfreeHeld(p);
        NothingMapped(m, u, m1, u1, m2, u2, mem, use, root, a / PGSIZE, p, perm);
      }
    }

    /** kalloc, then memset or memmove over the junk. */
    method KallocFilled(content: Page) returns (p: nat)
      requires Valid()
      modifies this
      ensures Valid() && SameEntries(old(mem), mem, old(use))
      ensures p == 0 <==> old(free) == []
      ensures p == 0 ==> mem == old(mem) && use == old(use) && free == old(free)
      ensures p != 0 ==>
                && p < |old(use)| && old(use)[p].Free? && free == old(free)[1..]
                && use == old(use)[p := Held] && mem == old(mem)[p := content]
    {
      hide TreeOk, FreeOk;
      ghost var m0, u0 := mem, use;
      p := Kalloc();
      if p != 0 {
        ghost var m, u := mem, use;
        mem := mem[p := content];
        OutsideKeepsTree(m, u, mem, use);
        SameFreeList(m, u, mem, use, lo, freelist, free);
        OutsideKeepsTree(m0, u0, mem, use);
      }
    }

    /** uvmalloc: grow from oldsz to newsz with zeroed pages. It either maps all of them or
        leaves none, and fails only when fewer than three free pages per page were there. */
    method UvmAlloc(root: nat, oldsz: nat, newsz: nat, xperm: nat) returns (sz: nat, ghost ok: bool, ghost stop: nat)
      requires Valid() && Live(use, root) && newsz <= MAXVA && xperm in {0, PTE_W, PTE_X, PTE_W + PTE_X}
      requires forall v :: Pages(oldsz) <= v < Pages(newsz) ==> !V(Entry(mem, root, v))
      modifies this
      ensures Valid() && sz == if !ok then 0 else if newsz < oldsz then oldsz else newsz
      ensures newsz < oldsz ==> ok && mem == old(mem) && use == old(use)
      ensures ok && oldsz <= newsz ==>
                Filled(old(mem), old(use), mem, use, root, Pages(oldsz), Pages(newsz),
                       Zeros(Pages(newsz) - Pages(oldsz)), Same(PTE_V + PTE_R + PTE_U + xperm, Pages(newsz) - Pages(oldsz)))
      ensures ok ==> forall v: nat :: Pages(oldsz) <= v < Pages(newsz) ==>
                && V(Entry(mem, root, v)) && Flags(Entry(mem, root, v)) == 19 + xperm   // V, R and U
                && Ppn(Entry(mem, root, v)) < |mem| && use[Ppn(Entry(mem, root, v))] == Frame(root, v)
                && forall k :: 0 <= k < 512 ==> mem[Ppn(Entry(mem, root, v))][k] == 0
      ensures !ok ==>
                && |old(free)| < 3 * (Pages(newsz) - Pages(oldsz)) && Pages(oldsz) <= stop <= Pages(newsz)
                && TreeGrew(old(mem), old(use), mem, use, root)
                && RangeCleared(old(mem), mem, old(use), root, Pages(oldsz), stop)
    {
      hide TreeOk, FreeOk, Filled, Mapped, TreeGrew, SameEntries, RangeCleared, Unmapping, Entry, T0;
      ok, stop := true, 0;
      if newsz < oldsz {
        return oldsz, true, 0;
      }
      ghost var m, u := mem, use;
      ghost var v0, hi := Pages(oldsz), Pages(newsz);
      ghost var contents, perms := Zeros(hi - v0), Same(PTE_V + PTE_R + PTE_U + xperm, hi - v0);
      FilledNothing(m, u, root, v0, contents, perms);
      NoFramesBelow(m, u, root, v0, hi);
      var lo := PGROUNDUP(oldsz);
      var a := lo;
      ghost var v := v0;
      while a < newsz
        invariant v0 <= v <= hi && a == PA(v)
        invariant Valid() && Live(use, root) && Filled(m, u, mem, use, root, v0, v, contents, perms)
        invariant |free| + 3 * (v - v0) >= |old(free)|
        decreases hi - v
      {
        ghost var m1, u1 := mem, use;
        NextUnfilled(m, u, mem, use, root, v0, v, contents, perms);
        var done := MapFresh(root, a, seq(NPTE, _ => 0), PTE_V + PTE_R + PTE_U + xperm);
        if !done {
          FilledThenGrew(m, u, m1, u1, mem, use, root, v0, v, contents, perms);
          ghost var m2, u2 := mem, use;
          FilledIsMapped(m, u, mem, use, root, v0, v, contents, perms);
          var _ := UvmDealloc(root, a, lo);
          Unwound(m, u, m2, u2, mem, use, root, v0, v, contents, perms);
          return 0, false, v;
        }
        FilledExtends(m, u, m1, u1, mem, use, root, v0, v, contents, perms);
        a := a + PGSIZE;
        v := v + 1;
      }
      sz := newsz;
      ZerosFilled(m, u, mem, use, root, v0, hi, PTE_V + PTE_R + PTE_U + xperm);
    }

    /** uvmcopy: give new a copy of the first sz bytes of old, in frames of its own. */
    method UvmCopy(old': nat, new': nat, sz: nat) returns (ok: bool, ghost stop: nat)
      requires Valid() && Live(use, old') && Live(use, new') && old' != new' && sz <= MAXVA
      requires forall v :: 0 <= v < Pages(sz) ==> V(Entry(mem, old', v)) && !V(Entry(mem, new', v))
      modifies this
      ensures Valid()
      ensures ok ==> Filled(old(mem), old(use), mem, use, new', 0, Pages(sz),
                            OldPages(old(mem), old', Pages(sz)), OldFlags(old(mem), old', Pages(sz)))
      ensures ok ==> forall v: nat :: v < Pages(sz) ==>
                var there, here := Entry(old(mem), old', v), Entry(mem, new', v);
                && V(here) && Flags(here) == Flags(there) && Ppn(there) < |mem| && Ppn(here) < |mem| && Ppn(here) != Ppn(there)
                && use[Ppn(here)] == Frame(new', v) && Entry(mem, old', v) == there
                && forall k :: 0 <= k < 512 ==>
                     mem[Ppn(here)][k] == old(mem)[Ppn(there)][k] == mem[Ppn(there)][k]
      ensures !ok ==>
                && |old(free)| < 3 * Pages(sz) && stop <= Pages(sz)
                && TreeGrew(old(mem), old(use), mem, use, new')
                && RangeCleared(old(mem), mem, old(use), new', 0, stop)
    {
      hide TreeOk, FreeOk, Filled, Mapped, TreeGrew, SameEntries, RangeCleared, Unmapping, Entry, T0;
      ghost var m, u := mem, use;
      ghost var n := Pages(sz);
      ghost var contents, perms := OldPages(m, old', n), OldFlags(m, old', n);
      FilledNothing(m, u, new', 0, contents, perms);
      NoFramesBelow(m, u, new', 0, n);
      var i := 0;
      ghost var v := 0;
      stop := 0;
      while i < sz
        invariant v <= n && i == PA(v)
        invariant Valid() && Live(use, new') && Filled(m, u, mem, use, new', 0, v, contents, perms)
        invariant |free| + 3 * v >= |old(free)|
        decreases n - v
      {
        ghost var m1, u1 := mem, use;
        NextUnfilled(m, u, mem, use, new', 0, v, contents, perms);
        NextSource(m, u, mem, use, old', new', n, v);
        var p, j := Walk(old', i, false);
        var pte := mem[p][j];
        var done := MapFresh(new', i, mem[Ppn(pte)], Flags(pte));
        if !done {
          FilledThenGrew(m, u, m1, u1, mem, use, new', 0, v, contents, perms);
          ghost var m2, u2 := mem, use;
          FilledIsMapped(m, u, mem, use, new', 0, v, contents, perms);
          UvmUnmap(new', 0, i / PGSIZE, true);
          Unwound(m, u, m2, u2, mem, use, new', 0, v, contents, perms);
          return false, v;
        }
        FilledExtends(m, u, m1, u1, mem, use, new', 0, v, contents, perms);
        i := i + PGSIZE;
        v := v + 1;
      }
      ok := true;
      CopiesFilled(m, u, mem, use, old', new', n);
    }

    /** uvmcreate: an empty address space. */
    method UvmCreate() returns (root: nat)
      requires Valid()
      modifies this
      ensures Valid() && SameEntries(old(mem), mem, old(use))
      ensures root == 0 <==> old(free) == []
      ensures root == 0 ==> use == old(use) && mem == old(mem)
      ensures root != 0 ==>
                && root < |old(use)| && old(use)[root].Free? && use == old(use)[root := Table(root, 2, 0)]
                && forall v :: 0 <= v < MAXVPN ==> Entry(mem, root, v) == 0
    {
      hide Down, Up, Leaves, Frames;
      ghost var m0, u0 := mem, use;
      root := KallocFilled(seq(NPTE, _ => 0));
      if root != 0 {
        ghost var m, u := mem, use;
        use := use[root := Table(root, 2, 0)];
        RootCreated(m, u, mem, use, root);
        SameFreeList(m, u, mem, use, lo, freelist, free);
        assert forall r :: Live(u0, r) ==> Live(u, r);
      }
    }

    /** freewalk: all leaf mappings below must be gone. The subtree of this table, which is the
        level-l table of key k below root r, goes back to the free list, and nothing else. */
    method FreeWalk(p: nat, ghost r: nat, ghost l: nat, ghost k: nat)
      requires Valid() && l <= 2 && p < |mem| && use[p] == Table(r, l, k) && NoLeaves(mem, use, r, l, k)
      modifies this
      ensures FreeOk(mem, use, lo, freelist, free)
      ensures SubtreeFreed(old(mem), old(use), mem, use, r, l, k)
      decreases l
    {
      hide TreeOk, FreeOk, NoLeaves;
      ghost var m, u := mem, use;
      Managed(mem, use, lo, freelist, free);
      LoopStarts(m, u, r, l, k);
      var i := 0;
      while i < NPTE
        invariant i <= NPTE && Valid() && EntriesFreed(m, u, mem, use, p, r, l, k, i)
        invariant NoLeaves(mem, use, r, l, k)
      {
        ghost var m1, u1 := mem, use;
        var pte := mem[p][i];
        if V(pte) {
          ChildTable(mem, use, p, r, l, k, i);
          if !Rwx(pte) {
            FreeWalk(Ppn(pte), r, l - 1, k * NPTE + i);
            ghost var m2 := mem;
            mem := mem[p := mem[p][i := 0]];
            EntryFreed(m, u, m1, u1, m2, mem, use, p, r, l, k, i);
            SameFreeList(m2, use, mem, use, lo, freelist, free);
          } else {
            assert false;   // panic("freewalk: leaf")
          }
        } else {
          EntryWasEmpty(m, u, mem, use, p, r, l, k, i);
        }
        i := i + 1;
      }
      ghost var m3, u3 := mem, use;
      Kfree(p);
      AllFreed(m, u, m3, u3, mem, use, p, r, l, k);
    }

    /** uvmfree: the first sz bytes are mapped and nothing else is; frames and tables all go
        back to the free list, and no other address space notices. */
    method UvmFree(root: nat, sz: nat)
      requires Valid() && Live(use, root) && Pages(sz) <= MAXVPN
      requires Mapped(mem, use, root, 0, Pages(sz), true)
      requires forall v :: Pages(sz) <= v < MAXVPN ==> !V(Entry(mem, root, v))
      modifies this
      ensures Valid()
      ensures |use| == |old(use)| && forall q :: 0 <= q < |use| ==>
                use[q] == if BelongsTo(old(use)[q], root) then Free else old(use)[q]
      ensures forall q :: 0 <= q < |use| && use[q] == old(use)[q] && !use[q].Free? ==> mem[q] == old(mem)[q]
      ensures forall s, v :: Live(old(use), s) && s != root && 0 <= v < MAXVPN ==>
                Entry(mem, s, v) == Entry(old(mem), s, v)
    {
      hide TreeOk, FreeOk, Mapped, NoLeaves, Unmapping;
      ghost var m, u := mem, use;
      if sz > 0 {
        UvmUnmap(root, 0, Pages(sz), true);
      } else {
        UnmappingNothing(m, u, root, 0, Free);
      }
      ghost var m1, u1 := mem, use;
      Emptied(m, u, m1, u1, root, Pages(sz));
      FreeWalk(root, root, 2, 0);
      RootFreed(m1, u1, mem, use, root);
      AllGone(m, u, m1, u1, mem, use, root, Pages(sz));
    }
  }

  predicate BelongsTo(u: Use, root: nat) {
    (u.Frame? && u.root == root) || (u.Table? && u.root == root)
  }

  ghost predicate SubtreeFreed(m: seq<Page>, use: seq<Use>, n: seq<Page>, new': seq<Use>, r: nat, l: nat, k: nat)
    requires l <= 2
  {
    && |n| == |new'| == |m| == |use|
    && (forall q :: 0 <= q < |m| ==> new'[q] == if InSub(use[q], r, l, k) then Free else use[q])
    && (forall q :: 0 <= q < |m| && !InSub(use[q], r, l, k) ==> n[q] == m[q])
  }

  /** The tables below the first i entries. */
  predicate Below(u: Use, r: nat, l: nat, k: nat, i: nat)
    requires l <= 2
  {
    InSub(u, r, l, k) && u.level < l && AncestorKey(u, l - 1) < k * NPTE + i
  }

  ghost predicate EntriesFreed(m: seq<Page>, use: seq<Use>, n: seq<Page>, new': seq<Use>,
                               p: nat, r: nat, l: nat, k: nat, i: nat)
    requires l <= 2
  {
    && |n| == |new'| == |m| == |use| && p < |m| && use[p] == new'[p] == Table(r, l, k)
    && (forall q :: 0 <= q < |m| ==> new'[q] == if Below(use[q], r, l, k, i) then Free else use[q])
    && (forall q :: 0 <= q < |m| && !InSub(use[q], r, l, k) ==> n[q] == m[q])
  }

  lemma LoopStarts(m: seq<Page>, use: seq<Use>, r: nat, l: nat, k: nat)
    requires l <= 2 && |m| == |use|
    ensures forall p :: 0 <= p < |m| && use[p] == Table(r, l, k) ==> EntriesFreed(m, use, m, use, p, r, l, k, 0)
  {
  }

  lemma ChildTable(m: seq<Page>, use: seq<Use>, p: nat, r: nat, l: nat, k: nat, i: nat)
    requires TreeOk(m, use) && l <= 2 && p < |m| && use[p] == Table(r, l, k) && NoLeaves(m, use, r, l, k)
    requires i < NPTE && V(m[p][i])
    ensures l > 0 && !Rwx(m[p][i]) && Ppn(m[p][i]) < |m| && use[Ppn(m[p][i])] == Table(r, l - 1, k * NPTE + i)
    ensures NoLeaves(m, use, r, l - 1, k * NPTE + i)
  {
  }

  lemma SubOfEntry(u: Use, r: nat, l: nat, k: nat, i: nat)
    requires 0 < l <= 2 && i < NPTE
    ensures InSub(u, r, l - 1, k * NPTE + i) <==> Below(u, r, l, k, i + 1) && !Below(u, r, l, k, i)
  {
  }

  lemma EntryFreed(m: seq<Page>, use: seq<Use>, m1: seq<Page>, use1: seq<Use>, m2: seq<Page>, n: seq<Page>, new': seq<Use>,
                   p: nat, r: nat, l: nat, k: nat, i: nat)
    requires 0 < l <= 2 && i < NPTE && TreeOk(m1, use1) && EntriesFreed(m, use, m1, use1, p, r, l, k, i)
    requires NoLeaves(m1, use1, r, l, k) && NoLeaves(m1, use1, r, l - 1, k * NPTE + i)
    requires SubtreeFreed(m1, use1, m2, new', r, l - 1, k * NPTE + i)
    requires n == m2[p := m2[p][i := 0]]
    ensures TreeOk(n, new') && EntriesFreed(m, use, n, new', p, r, l, k, i + 1) && NoLeaves(n, new', r, l, k)
  {
    hide Down, Up, Leaves, Frames;
    PruneKeepsTree(m1, use1, n, new', p, i);
    forall q | 0 <= q < |m|
      ensures new'[q] == if Below(use[q], r, l, k, i + 1) then Free else use[q]
    {
      SubOfEntry(use[q], r, l, k, i);
    }
  }

  lemma EntryWasEmpty(m: seq<Page>, use: seq<Use>, n: seq<Page>, new': seq<Use>, p: nat, r: nat, l: nat, k: nat, i: nat)
    requires l <= 2 && i < NPTE && TreeOk(n, new') && EntriesFreed(m, use, n, new', p, r, l, k, i)
    requires !V(n[p][i])
    ensures EntriesFreed(m, use, n, new', p, r, l, k, i + 1)
  {
    hide Down, Up, Leaves, Frames;
    if l > 0 {
      NothingBelow(n, new', p, i);
      forall q | 0 <= q < |m|
        ensures new'[q] == if Below(use[q], r, l, k, i + 1) then Free else use[q]
      {
        SubOfEntry(use[q], r, l, k, i);
      }
    }
  }

  lemma AllFreed(m: seq<Page>, use: seq<Use>, m1: seq<Page>, use1: seq<Use>, n: seq<Page>, new': seq<Use>,
                 p: nat, r: nat, l: nat, k: nat)
    requires l <= 2 && TreeOk(m, use) && EntriesFreed(m, use, m1, use1, p, r, l, k, NPTE)
    requires new' == use1[p := Free] && |n| == |m1| && forall q :: 0 <= q < |m| && q != p ==> n[q] == m1[q]
    ensures SubtreeFreed(m, use, n, new', r, l, k)
  {
    forall q | 0 <= q < |m|
      ensures new'[q] == if InSub(use[q], r, l, k) then Free else use[q]
    {
      if InSub(use[q], r, l, k) && use[q].level == l {
        assert use[q] == use[p];
        OneTablePerPlace(m, use, p, q);
      }
    }
  }

  /** No two table pages serve for the same place. */
  lemma OneTablePerPlace(m: seq<Page>, use: seq<Use>, p: nat, q: nat)
    requires TreeOk(m, use) && p < |m| && q < |m| && use[p].Table? && use[q] == use[p]
    ensures p == q
  {
  }

  lemma Emptied(m: seq<Page>, use: seq<Use>, n: seq<Page>, new': seq<Use>, root: nat, hi: nat)
    requires TreeOk(n, new') && Live(use, root) && hi <= MAXVPN && Unmapping(m, use, n, new', root, 0, hi, Free)
    requires forall v :: hi <= v < MAXVPN ==> !V(Entry(m, root, v))
    ensures Live(new', root) && NoLeaves(n, new', root, 2, 0)
  {
    hide Down, Leaves, Frames;
    assert Live(new', root);
    forall q, j | 0 <= q < |n| && InSub(new'[q], root, 2, 0) && new'[q].level == 0 && 0 <= j < NPTE
      ensures !V(n[q][j])
    {
      var v := new'[q].key * NPTE + j;
      assert n[q][j] == Entry(n, root, v);
    }
  }

  lemma AllGone(m: seq<Page>, use: seq<Use>, m1: seq<Page>, use1: seq<Use>, n: seq<Page>, new': seq<Use>, root: nat, hi: nat)
    requires TreeOk(m, use) && TreeOk(m1, use1) && Live(use, root) && Live(use1, root) && hi <= MAXVPN
    requires Unmapping(m, use, m1, use1, root, 0, hi, Free)
    requires forall v :: hi <= v < MAXVPN ==> !V(Entry(m, root, v))
    requires SubtreeFreed(m1, use1, n, new', root, 2, 0)
    requires forall s, v :: Live(use1, s) && s != root && 0 <= v < MAXVPN ==> Entry(n, s, v) == Entry(m1, s, v)
    ensures |new'| == |use| && Sized(n, new') && forall q :: 0 <= q < |use| ==> new'[q] == if BelongsTo(use[q], root) then Free else use[q]
    ensures forall q :: 0 <= q < |use| && new'[q] == use[q] && !use[q].Free? ==> n[q] == m[q]
    ensures forall s, v :: Live(use, s) && s != root && 0 <= v < MAXVPN ==> Entry(n, s, v) == Entry(m, s, v)
  {
    hide Down, Leaves;
    OnlyThisRoot(m1, use1, root);
    assert forall s :: Live(use, s) ==> Live(use1, s);
    assert forall q :: 0 <= q < |use| && use[q].Frame? && use[q].root == root ==> use[q].vpn < hi;
  }

  /** What the pages show that uvmalloc has mapped. */
  lemma ZerosFilled(m: seq<Page>, use: seq<Use>, n: seq<Page>, new': seq<Use>, root: nat, lo: nat, hi: nat, perm: nat)
    requires lo <= hi <= MAXVPN && Filled(m, use, n, new', root, lo, hi, Zeros(hi - lo), Same(perm, hi - lo))
    ensures forall v: nat :: lo <= v < hi ==>
              && V(Entry(n, root, v)) && Flags(Entry(n, root, v)) == perm
              && Ppn(Entry(n, root, v)) < |n| == |new'| && new'[Ppn(Entry(n, root, v))] == Frame(root, v)
              && forall k :: 0 <= k < 512 ==> n[Ppn(Entry(n, root, v))][k] == 0
  {
  }

  /** What the pages show that uvmcopy has mapped: those of the old address space, which keeps its own. */
  lemma CopiesFilled(m: seq<Page>, use: seq<Use>, n: seq<Page>, new': seq<Use>, from: nat, to: nat, hi: nat)
    requires TreeOk(m, use) && Live(use, from) && Live(use, to) && from != to && hi <= MAXVPN
    requires forall v :: 0 <= v < hi ==> V(Entry(m, from, v))
    requires Filled(m, use, n, new', to, 0, hi, OldPages(m, from, hi), OldFlags(m, from, hi))
    ensures forall v: nat :: v < hi ==>
              var there, here := Entry(m, from, v), Entry(n, to, v);
              && V(here) && Flags(here) == Flags(there) && Ppn(there) < |m| == |n| == |new'| && Ppn(here) < |n| && Ppn(here) != Ppn(there)
              && new'[Ppn(here)] == Frame(to, v) && Entry(n, from, v) == there
              && forall k :: 0 <= k < 512 ==> n[Ppn(here)][k] == m[Ppn(there)][k] == n[Ppn(there)][k]
  {
    forall v: nat | v < hi
      ensures Ppn(Entry(m, from, v)) < |m| && (use[Ppn(Entry(m, from, v))] == Frame(from, v) || use[Ppn(Entry(m, from, v))] == Other)
    {
      LeafFacts(m, use, from, v);
    }
    hide TreeOk, Entry;
  }

  function Zeros(n: nat): (s: seq<Page>)
    ensures |s| == n
  {
    seq(n, _ => seq(NPTE, _ => 0))
  }

  function Same(x: nat, n: nat): (s: seq<nat>)
    ensures |s| == n
  {
    seq(n, _ => x)
  }

  /** Contents and flags of the first n pages of an address space. */
  ghost function OldPages(m: seq<Page>, root: nat, n: nat): (s: seq<Page>)
    requires n <= MAXVPN
    ensures |s| == n
  {
    seq(n, v requires 0 <= v < n =>
      if Ppn(Entry(m, root, v)) < |m| then m[Ppn(Entry(m, root, v))] else seq(NPTE, _ => 0))
  }

  ghost function OldFlags(m: seq<Page>, root: nat, n: nat): (s: seq<nat>)
    requires n <= MAXVPN
    ensures |s| == n
  {
    seq(n, v requires 0 <= v < n => Flags(Entry(m, root, v)))
  }

  lemma FilledNothing(m: seq<Page>, use: seq<Use>, root: nat, lo: nat, contents: seq<Page>, perms: seq<nat>)
    requires |m| == |use|
    ensures Filled(m, use, m, use, root, lo, lo, contents, perms)
  {
  }

  lemma FilledIsMapped(m: seq<Page>, use: seq<Use>, n: seq<Page>, new': seq<Use>,
                       root: nat, lo: nat, v: nat, contents: seq<Page>, perms: seq<nat>)
    requires lo <= v && v - lo <= |contents| && v - lo <= |perms|
    requires Filled(m, use, n, new', root, lo, v, contents, perms)
    ensures Mapped(n, new', root, lo, v, true)
  {
  }

  lemma NoFramesBelow(m: seq<Page>, use: seq<Use>, root: nat, lo: nat, hi: nat)
    requires TreeOk(m, use) && hi <= MAXVPN && forall v :: lo <= v < hi ==> !V(Entry(m, root, v))
    ensures forall q :: 0 <= q < |use| ==> !FrameIn(use[q], root, lo, hi)
  {
  }

  lemma NextUnfilled(m: seq<Page>, use: seq<Use>, n: seq<Page>, new': seq<Use>,
                     root: nat, lo: nat, v: nat, contents: seq<Page>, perms: seq<nat>)
    requires lo <= v < MAXVPN && v - lo <= |contents| && v - lo <= |perms| && Live(use, root)
    requires Filled(m, use, n, new', root, lo, v, contents, perms) && !V(Entry(m, root, v))
    ensures !V(Entry(n, root, v))
  {
  }

  /** What uvmcopy reads is what the parent had at the start. */
  lemma NextSource(m: seq<Page>, use: seq<Use>, n: seq<Page>, new': seq<Use>, old': nat, root: nat, cnt: nat, v: nat)
    requires TreeOk(m, use) && Live(use, old') && old' != root && v < cnt <= MAXVPN && V(Entry(m, old', v))
    requires Filled(m, use, n, new', root, 0, v, OldPages(m, old', cnt), OldFlags(m, old', cnt))
    ensures Live(new', old') && V(Entry(n, old', v)) && Ppn(Entry(n, old', v)) < |n|
    ensures n[Ppn(Entry(n, old', v))] == OldPages(m, old', cnt)[v] && Flags(Entry(n, old', v)) == OldFlags(m, old', cnt)[v]
    ensures V(Flags(Entry(n, old', v))) && Rwx(Flags(Entry(n, old', v)))
  {
    hide Down, Up, Leaves, Frames;
    LeafFacts(m, use, old', v);
    var w := Entry(m, old', v);
    PteFields(Ppn(w), Flags(w));
  }

  lemma NothingDone(m: seq<Page>, use: seq<Use>, root: nat)
    requires |m| == |use|
    ensures SameEntries(m, m, use) && TreeGrew(m, use, m, use, root)
  {
  }

  lemma OnePage(m: seq<Page>, n: seq<Page>, use: seq<Use>, new': seq<Use>, root: nat, v: nat, p: nat)
    requires Live(use, root) && v < MAXVPN && !V(Entry(m, root, v)) && SameEntries(m, n, use)
    requires p < |use| && use[p].Free? && new' == use[p := Held]
    ensures Live(new', root) && Unmapped(n, root, v, v) && Mappable(new', p, p)
  {
  }

  lemma StillHeld(m: seq<Page>, use: seq<Use>, n: seq<Page>, new': seq<Use>, root: nat, v: nat, p: nat, perm: nat)
    requires perm < 1024 && p < |m| && |m| == |use| && use[p].Held? && Live(use, root)
    requires Mapping(m, use, n, new', root, v, p, 0, perm)
    ensures p < |n| && new'[p].Held? && Live(new', root)
  {
  }

  /** A page straight from the free list, filled and then mapped. */
  lemma FreshMapped(m: seq<Page>, use: seq<Use>, m1: seq<Page>, use1: seq<Use>, m2: seq<Page>, use2: seq<Use>,
                    root: nat, v: nat, p: nat, content: Page, perm: nat)
    requires Sized(m, use) && Live(use, root) && v < MAXVPN && perm < 1024 && V(perm)
    requires p < |m| && use[p].Free? && use1 == use[p := Held] && |m1| == |m| && SameEntries(m, m1, use)
    requires m1[p] == content && forall q :: 0 <= q < |m| && q != p ==> m1[q] == m[q]
    requires Mapping(m1, use1, m2, use2, root, v, p, 1, perm)
    ensures Live(use2, root) && Filled(m, use, m2, use2, root, v, v + 1, [content], [perm])
  {
    hide Entry;
    assert forall s :: Live(use, s) ==> Live(use1, s);
    assert Entry(m2, root, v) == Pte(p, perm);
  }

  lemma NothingMapped(m: seq<Page>, use: seq<Use>, m1: seq<Page>, use1: seq<Use>, m2: seq<Page>, use2: seq<Use>,
                      m3: seq<Page>, use3: seq<Use>, root: nat, v: nat, p: nat, perm: nat)
    requires Sized(m, use) && Live(use, root) && v < MAXVPN && perm < 1024
    requires p < |m| && use[p].Free? && use1 == use[p := Held] && |m1| == |m| && SameEntries(m, m1, use)
    requires forall q :: 0 <= q < |m| && q != p ==> m1[q] == m[q]
    requires Mapping(m1, use1, m2, use2, root, v, p, 0, perm)
    requires use3 == use2[p := Free] && SameEntries(m2, m3, use2)
    requires |m3| == |m2| && forall q :: 0 <= q < |m2| && q != p ==> m3[q] == m2[q]
    ensures Live(use3, root) && SameEntries(m, m3, use) && TreeGrew(m, use, m3, use3, root)
  {
    assert forall s :: Live(use, s) ==> Live(use1, s) && Live(use2, s);
  }

  lemma UnmappingEmpty(m: seq<Page>, use: seq<Use>, root: nat, lo: nat, hi: nat, role: Use)
    requires |m| == |use|
    ensures hi <= lo ==> Unmapping(m, use, m, use, root, lo, hi, role)
  {
  }

  lemma UnmappingNothing(m: seq<Page>, use: seq<Use>, root: nat, lo: nat, role: Use)
    requires |m| == |use|
    ensures Unmapping(m, use, m, use, root, lo, lo, role)
  {
  }

  lemma NextMapped(m: seq<Page>, use: seq<Use>, root: nat, v: nat, hi: nat, owned: bool)
    requires Mapped(m, use, root, v, hi, owned) && v < hi <= MAXVPN
    ensures V(Entry(m, root, v))
    ensures owned ==> Ppn(Entry(m, root, v)) < |use| && use[Ppn(Entry(m, root, v))] == Frame(root, v)
  {
  }

  ghost predicate Unmapped(m: seq<Page>, root: nat, lo: nat, hi: nat) {
    forall v :: lo <= v <= hi && v < MAXVPN ==> !V(Entry(m, root, v))
  }

  ghost predicate Mappable(use: seq<Use>, lo: nat, hi: nat) {
    hi < |use| && forall q :: lo <= q <= hi ==> use[q].Held? || use[q].Other?
  }
}
