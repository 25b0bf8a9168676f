/**
 Sv39 page tables (section 4.4 of the RISC-V Privileged Architecture, version 1.12) as values:
 physical memory as a sequence of pages of 512 words, the walk through three levels, and what
 makes the table pages an unshared tree.

 The ghost map use says what every physical page serves for. It is single-valued, so "no page
 serves twice" needs no disjointness argument: the free list, the frames of all address spaces
 and the table pages always partition memory.
 */
module PageTree {

  const PGSIZE: nat := 4096
  const NPTE: nat := 512
  const MAXVA: nat := 0x40_0000_0000      // 2^38
  const MAXVPN: nat := 0x400_0000         // MAXVA / PGSIZE
  const TOP: nat := 256                   // root entries below MAXVA

  type Page = p: seq<nat> | |p| == NPTE witness seq(NPTE, _ => 0)

  predicate Zeroed(p: Page) {
    forall i :: 0 <= i < NPTE ==> p[i] == 0
  }

  // ---- page-table entries -----------------------------------------------------------

  /** Flag bits V R W X U are bits 0 to 4 of the word, the page number starts at bit 10. */
  predicate V(w: nat) { w % 2 == 1 }
  predicate Rwx(w: nat) { (w / 2) % 8 != 0 }
  function Ppn(w: nat): nat { w / 1024 }
  function Flags(w: nat): nat { w % 1024 }

  /** PA2PTE(pa) | perm | PTE_V */
  function Pte(ppn: nat, perm: nat): (w: nat)
    requires perm < 1024
    ensures V(w) && Ppn(w) == ppn && Flags(w) == (if V(perm) then perm else perm + 1)
    ensures Rwx(w) == Rwx(perm)
  {
    PteFields(ppn, if V(perm) then perm else perm + 1);
    ppn * 1024 + if V(perm) then perm else perm + 1
  }

  lemma PteFields(ppn: nat, flags: nat)
    requires flags < 1024 && V(flags)
    ensures var w := ppn * 1024 + flags; V(w) && Ppn(w) == ppn && Flags(w) == flags && Rwx(w) == Rwx(flags)
  {
    assert (ppn * 1024 + flags) / 2 == ppn * 512 + flags / 2;
    assert (ppn * 512 + flags / 2) % 8 == flags / 2 % 8;
  }

  /** PX(level, va): the 9-bit index of a level. */
  function PX(level: nat, va: nat): (i: nat)
    requires level <= 2
    ensures i < NPTE
  {
    (if level == 0 then va / 0x1000 else if level == 1 then va / 0x20_0000 else va / 0x4000_0000) % NPTE
  }

  lemma IndexIsKey(va: nat)
    requires va < MAXVA
    ensures var v := va / PGSIZE;
            v < MAXVPN && PX(0, va) == v % NPTE && PX(1, va) == v / NPTE % NPTE && PX(2, va) == v / NPTE / NPTE
  {
    var v := va / PGSIZE;
    assert va / 0x20_0000 == v / NPTE;
    assert va / 0x4000_0000 == v / NPTE / NPTE;
  }

  // ---- the tree -----------------------------------------------------------------------

  /** Table(r, l, k): the level-l table below root r for the virtual pages v whose number
      shifted right by 9 * (l + 1) bits is k. Held: allocated, not yet part of anything.
      Other: the kernel's own pages, which page tables may map but do not own. */
  datatype Use = Free | Held | Other | Table(root: nat, level: nat, key: nat) | Frame(root: nat, vpn: nat)

  predicate Live(use: seq<Use>, r: nat) {
    r < |use| && use[r] == Table(r, 2, 0)
  }

  predicate Sized(m: seq<Page>, use: seq<Use>) {
    0 < |m| == |use| && use[0] == Other
  }

  /** Follow the entry at index i of table page p; 0 is the null page. */
  function Next(m: seq<Page>, p: nat, i: nat): nat
    requires i < NPTE
  {
    if p < |m| && V(m[p][i]) then Ppn(m[p][i]) else 0
  }

  /** The level-1 and the level-0 table that a walk from root r reaches for key k, or 0. */
  function T1(m: seq<Page>, r: nat, k: nat): nat
    requires k < NPTE
  {
    Next(m, r, k)
  }

  function T0(m: seq<Page>, r: nat, k: nat): nat
    requires k < NPTE * NPTE
  {
    if T1(m, r, k / NPTE) == 0 then 0 else Next(m, T1(m, r, k / NPTE), k % NPTE)
  }

  /** The flat map that a root stands for: the entry of virtual page v, 0 where no table is. */
  function Entry(m: seq<Page>, r: nat, v: nat): nat
    requires v < MAXVPN
  {
    var p := T0(m, r, v / NPTE);
    if 0 < p < |m| then m[p][v % NPTE] else 0
  }

  /** The three steps of the translation, in plain numbers: nine bits of the page number each. */
  lemma EntryIs(m: seq<Page>, r: nat, v: nat)
    requires v < MAXVPN && r < |m|
    ensures var a := m[r][v / 262144];
            if a % 2 == 0 || a / 1024 == 0 || a / 1024 >= |m| then Entry(m, r, v) == 0
            else
              var b := m[a / 1024][v / 512 % 512];
              Entry(m, r, v) == if b % 2 == 0 || b / 1024 == 0 || b / 1024 >= |m| then 0 else m[b / 1024][v % 512]
  {
    assert v / NPTE / NPTE == v / 262144;
  }

  /** Entries of the two upper levels lead to the one page that serves for their place. */
  ghost predicate Down(m: seq<Page>, use: seq<Use>)
    requires Sized(m, use)
  {
    forall p, i :: 0 <= p < |m| && use[p].Table? && use[p].level > 0 && 0 <= i < NPTE && V(m[p][i]) ==>
      && Ppn(m[p][i]) < |m| && !Rwx(m[p][i])
      && use[Ppn(m[p][i])] == Table(use[p].root, use[p].level - 1, use[p].key * NPTE + i)
  }

  /** Every table page is the one its root's walk reaches. */
  ghost predicate Up(m: seq<Page>, use: seq<Use>)
    requires Sized(m, use)
  {
    forall p :: 0 <= p < |m| && use[p].Table? ==>
      var u := use[p];
      && Live(use, u.root) && u.level <= 2
      && (u.level == 2 ==> p == u.root && u.key == 0)
      && (u.level == 1 ==> u.key < TOP && T1(m, u.root, u.key) == p)
      && (u.level == 0 ==> u.key < TOP * NPTE && T0(m, u.root, u.key) == p)
  }

  /** Level-0 entries map frames of exactly this place, or pages the kernel shares. */
  ghost predicate Leaves(m: seq<Page>, use: seq<Use>)
    requires Sized(m, use)
  {
    forall p, i :: 0 <= p < |m| && use[p].Table? && use[p].level == 0 && 0 <= i < NPTE && V(m[p][i]) ==>
      && Ppn(m[p][i]) < |m| && Rwx(m[p][i])
      && (use[Ppn(m[p][i])] == Frame(use[p].root, use[p].key * NPTE + i) || use[Ppn(m[p][i])] == Other)
  }

  /** Every frame is mapped at its place. */
  ghost predicate Frames(m: seq<Page>, use: seq<Use>)
    requires Sized(m, use)
  {
    forall q :: 0 <= q < |m| && use[q].Frame? ==>
      && Live(use, use[q].root) && use[q].vpn < MAXVPN
      && V(Entry(m, use[q].root, use[q].vpn)) && Ppn(Entry(m, use[q].root, use[q].vpn)) == q
  }

  ghost predicate TreeOk(m: seq<Page>, use: seq<Use>) {
    Sized(m, use) && Down(m, use) && Up(m, use) && Leaves(m, use) && Frames(m, use)
  }

  /** Every address space translates as before. */
  ghost predicate SameEntries(m: seq<Page>, n: seq<Page>, use: seq<Use>) {
    forall r, v :: Live(use, r) && 0 <= v < MAXVPN ==> Entry(n, r, v) == Entry(m, r, v)
  }

  /** ... except that virtual page v of root r now has entry w. */
  ghost predicate EntrySet(m: seq<Page>, n: seq<Page>, use: seq<Use>, r: nat, v: nat, w: nat) {
    forall s, u :: Live(use, s) && 0 <= u < MAXVPN ==>
      Entry(n, s, u) == if s == r && u == v then w else Entry(m, s, u)
  }

  // ---- what a walk meets ----------------------------------------------------------------

  lemma WalkUses(m: seq<Page>, use: seq<Use>, r: nat, k: nat)
    requires TreeOk(m, use) && Live(use, r) && k < NPTE * NPTE
    ensures T1(m, r, k / NPTE) != 0 ==>
              T1(m, r, k / NPTE) < |m| && use[T1(m, r, k / NPTE)] == Table(r, 1, k / NPTE)
    ensures T0(m, r, k) != 0 ==> T0(m, r, k) < |m| && use[T0(m, r, k)] == Table(r, 0, k)
  {
    var p := T1(m, r, k / NPTE);
    if p != 0 {
      assert V(m[r][k / NPTE]);
      assert use[p] == Table(r, 1, k / NPTE);
      if T0(m, r, k) != 0 {
        assert V(m[p][k % NPTE]);
      }
    }
  }

  /** What use records for the level-l table on the way to page v. */
  function KeyAt(l: nat, v: nat): nat
    requires l <= 2
  {
    if l == 2 then 0 else if l == 1 then v / NPTE / NPTE else v / NPTE
  }

  lemma Descent(m: seq<Page>, use: seq<Use>, r: nat, l: nat, v: nat, p: nat)
    requires TreeOk(m, use) && Live(use, r) && 1 <= l <= 2 && v < MAXVPN
    requires p < |m| && use[p] == Table(r, l, KeyAt(l, v))
    ensures var i := if l == 2 then v / NPTE / NPTE else v / NPTE % NPTE;
            && KeyAt(l - 1, v) == KeyAt(l, v) * NPTE + i
            && if V(m[p][i]) then Ppn(m[p][i]) < |m| && use[Ppn(m[p][i])] == Table(r, l - 1, KeyAt(l - 1, v))
               else Entry(m, r, v) == 0
  {
  }

  lemma Bottom(m: seq<Page>, use: seq<Use>, r: nat, v: nat, p: nat)
    requires TreeOk(m, use) && Live(use, r) && v < MAXVPN && p < |m| && use[p] == Table(r, 0, KeyAt(0, v))
    ensures 0 < p && p == T0(m, r, v / NPTE)
  {
  }

  /** A mapped page shows its own frame, the only page that serves for its place, or one that
      the kernel shares. */
  lemma LeafFacts(m: seq<Page>, use: seq<Use>, r: nat, v: nat)
    requires TreeOk(m, use) && Live(use, r) && v < MAXVPN && V(Entry(m, r, v))
    ensures Ppn(Entry(m, r, v)) < |m| && Rwx(Entry(m, r, v))
    ensures use[Ppn(Entry(m, r, v))] == Frame(r, v) || use[Ppn(Entry(m, r, v))] == Other
    ensures forall x :: 0 <= x < |m| && use[x] == Frame(r, v) ==> x == Ppn(Entry(m, r, v))
  {
    WalkUses(m, use, r, v / NPTE);
  }

  /** Table pages of a root unchanged: it translates as before. */
  lemma SameRoot(m: seq<Page>, use: seq<Use>, n: seq<Page>, r: nat)
    requires TreeOk(m, use) && |n| == |m| && Live(use, r)
    requires forall p :: 0 <= p < |m| && use[p].Table? && use[p].root == r ==> n[p] == m[p]
    ensures forall k :: 0 <= k < NPTE ==> T1(n, r, k) == T1(m, r, k)
    ensures forall k :: 0 <= k < NPTE * NPTE ==> T0(n, r, k) == T0(m, r, k)
    ensures forall v :: 0 <= v < MAXVPN ==> Entry(n, r, v) == Entry(m, r, v)
  {
    forall k: nat | k < NPTE * NPTE
      ensures T0(n, r, k) == T0(m, r, k)
    {
      WalkUses(m, use, r, k);
    }
    forall v: nat | v < MAXVPN
      ensures Entry(n, r, v) == Entry(m, r, v)
    {
      WalkUses(m, use, r, v / NPTE);
    }
  }

  /** Only level-0 pages changed: every walk reaches what it reached. */
  lemma SameWalk(m: seq<Page>, n: seq<Page>, use: seq<Use>, r: nat, k: nat)
    requires TreeOk(m, use) && |n| == |m| && Live(use, r) && k < NPTE * NPTE
    requires forall p :: 0 <= p < |m| && use[p].Table? && use[p].level > 0 ==> n[p] == m[p]
    ensures T1(n, r, k / NPTE) == T1(m, r, k / NPTE) && T0(n, r, k) == T0(m, r, k)
  {
    WalkUses(m, use, r, k);
  }

  // ---- the three ways the tree changes ----------------------------------------------------

  /** Pages outside the tree may be allocated, freed and filled at will. */
  ghost predicate OutsideOnly(m: seq<Page>, use: seq<Use>, n: seq<Page>, new': seq<Use>)
    requires Sized(m, use)
  {
    && |n| == |new'| == |m|
    && (forall p :: 0 <= p < |m| && use[p].Table? ==> n[p] == m[p])
    && (forall p :: 0 <= p < |m| && new'[p] != use[p] ==> (use[p].Free? || use[p].Held?) && (new'[p].Free? || new'[p].Held?))
  }

  /** The old tables are untouched, and a new one, if any, is an empty root. */
  lemma TablesKept(m: seq<Page>, use: seq<Use>, n: seq<Page>, new': seq<Use>)
    requires TreeOk(m, use) && |n| == |new'| == |m|
    requires forall q :: 0 <= q < |m| && !use[q].Free? && !use[q].Held? ==> new'[q] == use[q]
    requires forall q :: 0 <= q < |m| && new'[q].Table? ==> (new'[q] == use[q] && n[q] == m[q]) || Zeroed(n[q])
    ensures Down(n, new') && Leaves(n, new')
  {
    forall q, i | 0 <= q < |n| && new'[q].Table? && 0 <= i < NPTE && V(n[q][i])
      ensures new'[q] == use[q] && n[q][i] == m[q][i] && Ppn(m[q][i]) < |m|
      ensures new'[q].level <= 2 && new'[Ppn(m[q][i])] == use[Ppn(m[q][i])]
    {
    }
  }

  lemma OutsideKeepsTree(m: seq<Page>, use: seq<Use>, n: seq<Page>, new': seq<Use>)
    requires TreeOk(m, use) && OutsideOnly(m, use, n, new')
    ensures TreeOk(n, new') && SameEntries(m, n, use)
    ensures forall r :: Live(use, r) <==> Live(new', r)
  {
    forall r | Live(use, r)
      ensures forall k :: 0 <= k < NPTE ==> T1(n, r, k) == T1(m, r, k)
      ensures forall k :: 0 <= k < NPTE * NPTE ==> T0(n, r, k) == T0(m, r, k)
      ensures forall v :: 0 <= v < MAXVPN ==> Entry(n, r, v) == Entry(m, r, v)
    {
      SameRoot(m, use, n, r);
    }
    TablesKept(m, use, n, new');
    assert Up(n, new');
    assert Frames(n, new');
  }

  /** Place (r, v) gets entry w; its former frame may leave, the new one may join. */
  ghost predicate LeafChange(m: seq<Page>, use: seq<Use>, n: seq<Page>, new': seq<Use>, r: nat, v: nat, w: nat)
    requires Sized(m, use) && v < MAXVPN
  {
    && |n| == |new'| == |m| && 0 < T0(m, r, v / NPTE) < |m|
    && n[T0(m, r, v / NPTE)] == m[T0(m, r, v / NPTE)][v % NPTE := w]
    && (forall x :: 0 <= x < |m| && use[x].Table? && x != T0(m, r, v / NPTE) ==> n[x] == m[x])
    && (forall x :: 0 <= x < |m| && new'[x] != use[x] ==>
          && (use[x].Free? || use[x].Held? || use[x] == Frame(r, v))
          && (new'[x].Free? || new'[x].Held? || new'[x] == Frame(r, v)))
    && (w == 0 || (V(w) && Rwx(w) && Ppn(w) < |m| && (new'[Ppn(w)] == Frame(r, v) || new'[Ppn(w)] == Other)))
    && (forall x :: 0 <= x < |m| && new'[x] == Frame(r, v) ==> V(w) && Ppn(w) == x)
  }

  lemma LeafWrite(m: seq<Page>, use: seq<Use>, n: seq<Page>, new': seq<Use>, r: nat, v: nat, w: nat)
    requires TreeOk(m, use) && Live(use, r) && v < MAXVPN && LeafChange(m, use, n, new', r, v, w)
    ensures EntrySet(m, n, use, r, v, w)
    ensures forall s, k :: Live(use, s) && 0 <= k < NPTE * NPTE ==> T0(n, s, k) == T0(m, s, k)
    ensures forall s, k :: Live(use, s) && 0 <= k < NPTE ==> T1(n, s, k) == T1(m, s, k)
  {
    WalkUses(m, use, r, v / NPTE);
    forall s: nat, k: nat | Live(use, s) && k < NPTE
      ensures T1(n, s, k) == T1(m, s, k)
    {
      assert n[s] == m[s];
    }
    forall s: nat, k: nat | Live(use, s) && k < NPTE * NPTE
      ensures T0(n, s, k) == T0(m, s, k)
    {
      WalkUses(m, use, s, k);
      SameWalk(m, n, use, s, k);
    }
    forall s: nat, u: nat | Live(use, s) && u < MAXVPN
      ensures Entry(n, s, u) == if s == r && u == v then w else Entry(m, s, u)
    {
      WalkUses(m, use, s, u / NPTE);
    }
  }

  lemma LeafWriteKeepsTree(m: seq<Page>, use: seq<Use>, n: seq<Page>, new': seq<Use>, r: nat, v: nat, w: nat)
    requires TreeOk(m, use) && Live(use, r) && v < MAXVPN && LeafChange(m, use, n, new', r, v, w)
    ensures TreeOk(n, new') && EntrySet(m, n, use, r, v, w)
    ensures forall s :: Live(use, s) <==> Live(new', s)
  {
    LeafWrite(m, use, n, new', r, v, w);
    WalkUses(m, use, r, v / NPTE);
    LeafDown(m, use, n, new', r, v, w);
    LeafUp(m, use, n, new', r, v, w);
    LeavesAfter(m, use, n, new', r, v, w);
    LeafFrames(m, use, n, new', r, v, w);
    hide Down, Up, Leaves, Frames, EntrySet;
  }

  lemma LeafDown(m: seq<Page>, use: seq<Use>, n: seq<Page>, new': seq<Use>, r: nat, v: nat, w: nat)
    requires TreeOk(m, use) && Live(use, r) && v < MAXVPN && LeafChange(m, use, n, new', r, v, w)
    ensures Down(n, new')
  {
    LeafWrite(m, use, n, new', r, v, w);
    WalkUses(m, use, r, v / NPTE);
    hide Up, Leaves, Frames, EntrySet;
  }

  lemma LeafUp(m: seq<Page>, use: seq<Use>, n: seq<Page>, new': seq<Use>, r: nat, v: nat, w: nat)
    requires TreeOk(m, use) && Live(use, r) && v < MAXVPN && LeafChange(m, use, n, new', r, v, w)
    ensures Up(n, new')
  {
    LeafWrite(m, use, n, new', r, v, w);
    WalkUses(m, use, r, v / NPTE);
    hide Down, Leaves, Frames, EntrySet;
  }

  lemma LeafFrames(m: seq<Page>, use: seq<Use>, n: seq<Page>, new': seq<Use>, r: nat, v: nat, w: nat)
    requires TreeOk(m, use) && Live(use, r) && v < MAXVPN && LeafChange(m, use, n, new', r, v, w)
    ensures Frames(n, new')
  {
    LeafWrite(m, use, n, new', r, v, w);
    WalkUses(m, use, r, v / NPTE);
    hide Down, Up, Leaves;
  }

  lemma LeavesAfter(m: seq<Page>, use: seq<Use>, n: seq<Page>, new': seq<Use>, r: nat, v: nat, w: nat)
    requires TreeOk(m, use) && Live(use, r) && v < MAXVPN && LeafChange(m, use, n, new', r, v, w)
    ensures Leaves(n, new')
  {
    hide Frames;
    WalkUses(m, use, r, v / NPTE);
    var home := T0(m, r, v / NPTE);
    forall p, i | 0 <= p < |n| && new'[p].Table? && new'[p].level == 0 && 0 <= i < NPTE && V(n[p][i])
      ensures && Ppn(n[p][i]) < |n| && Rwx(n[p][i])
              && (new'[Ppn(n[p][i])] == Frame(new'[p].root, new'[p].key * NPTE + i) || new'[Ppn(n[p][i])] == Other)
    {
      assert use[p] == new'[p];
      if p == home && i == v % NPTE {
        assert n[p][i] == w;
      } else {
        LeafElsewhere(m, use, n, new', r, v, w, p, i);
      }
    }
  }

  /** An entry of a last-level table that is not the one written. */
  lemma LeafElsewhere(m: seq<Page>, use: seq<Use>, n: seq<Page>, new': seq<Use>, r: nat, v: nat, w: nat, p: nat, i: nat)
    requires TreeOk(m, use) && Live(use, r) && v < MAXVPN && LeafChange(m, use, n, new', r, v, w)
    requires p < |n| && i < NPTE && use[p].Table? && use[p].level == 0 && use[p] == new'[p] && V(n[p][i])
    requires !(p == T0(m, r, v / NPTE) && i == v % NPTE)
    ensures Ppn(n[p][i]) < |n| && Rwx(n[p][i])
    ensures new'[Ppn(n[p][i])] == Frame(new'[p].root, new'[p].key * NPTE + i) || new'[Ppn(n[p][i])] == Other
  {
    WalkUses(m, use, r, v / NPTE);
    hide Frames, Down;
    assert n[p][i] == m[p][i];
    assert use[p].root == r && use[p].key == v / NPTE ==> p == T0(m, r, v / NPTE);
    assert use[p].key * NPTE + i == v ==> use[p].key == v / NPTE && i == v % NPTE;
  }

  /** Index i of table p, empty so far, gets the zeroed page x as the table below it. */
  ghost predicate TableChange(m: seq<Page>, use: seq<Use>, n: seq<Page>, new': seq<Use>, p: nat, i: nat, x: nat)
    requires Sized(m, use)
  {
    && |n| == |m| && 0 < p < |m| && 0 < x < |m| && i < NPTE && p != x
    && use[p].Table? && use[p].level > 0 && (use[p].level == 2 ==> i < TOP) && !V(m[p][i]) && use[x].Held?
    && new' == use[x := Table(use[p].root, use[p].level - 1, use[p].key * NPTE + i)]
    && n[p] == m[p][i := Pte(x, 0)] && Zeroed(n[x])
    && (forall y :: 0 <= y < |m| && use[y].Table? && y != p ==> n[y] == m[y])
  }

  lemma TableWrite(m: seq<Page>, use: seq<Use>, n: seq<Page>, new': seq<Use>, p: nat, i: nat, x: nat)
    requires TreeOk(m, use) && TableChange(m, use, n, new', p, i, x)
    ensures forall s, k :: Live(use, s) && 0 <= k < NPTE ==>
              T1(n, s, k) == if p == s && k == i then x else T1(m, s, k)
    ensures forall s, k :: Live(use, s) && 0 <= k < NPTE * NPTE ==>
              T0(n, s, k) == if use[p].level == 1 && s == use[p].root && k == use[p].key * NPTE + i then x else T0(m, s, k)
  {
    forall s: nat, k: nat | Live(use, s) && k < NPTE
      ensures T1(n, s, k) == if p == s && k == i then x else T1(m, s, k)
    {
    }
    forall s: nat, k: nat | Live(use, s) && k < NPTE * NPTE
      ensures T0(n, s, k) == if use[p].level == 1 && s == use[p].root && k == use[p].key * NPTE + i then x else T0(m, s, k)
    {
      WalkUses(m, use, s, k);
    }
  }

  lemma TableDown(m: seq<Page>, use: seq<Use>, n: seq<Page>, new': seq<Use>, p: nat, i: nat, x: nat)
    requires TreeOk(m, use) && TableChange(m, use, n, new', p, i, x)
    ensures Down(n, new')
  {
    forall q, j | 0 <= q < |n| && new'[q].Table? && new'[q].level > 0 && 0 <= j < NPTE && V(n[q][j])
      ensures && Ppn(n[q][j]) < |n| && !Rwx(n[q][j])
              && new'[Ppn(n[q][j])] == Table(new'[q].root, new'[q].level - 1, new'[q].key * NPTE + j)
    {
      assert q != x;
      if !(q == p && j == i) {
        assert n[q][j] == m[q][j];
      }
    }
  }

  lemma TableLeaves(m: seq<Page>, use: seq<Use>, n: seq<Page>, new': seq<Use>, p: nat, i: nat, x: nat)
    requires TreeOk(m, use) && TableChange(m, use, n, new', p, i, x)
    ensures Leaves(n, new')
  {
    forall q, j | 0 <= q < |n| && new'[q].Table? && new'[q].level == 0 && 0 <= j < NPTE && V(n[q][j])
      ensures && Ppn(n[q][j]) < |n| && Rwx(n[q][j])
              && (new'[Ppn(n[q][j])] == Frame(new'[q].root, new'[q].key * NPTE + j) || new'[Ppn(n[q][j])] == Other)
    {
      assert q != x && q != p;
      assert n[q][j] == m[q][j];
    }
  }

  lemma TableUp(m: seq<Page>, use: seq<Use>, n: seq<Page>, new': seq<Use>, p: nat, i: nat, x: nat)
    requires TreeOk(m, use) && TableChange(m, use, n, new', p, i, x)
    ensures Up(n, new')
  {
    TableWrite(m, use, n, new', p, i, x);
  }

  lemma TableSameEntries(m: seq<Page>, use: seq<Use>, n: seq<Page>, new': seq<Use>, p: nat, i: nat, x: nat)
    requires TreeOk(m, use) && TableChange(m, use, n, new', p, i, x)
    ensures SameEntries(m, n, use)
  {
    TableWrite(m, use, n, new', p, i, x);
    forall s: nat, u: nat | Live(use, s) && u < MAXVPN
      ensures Entry(n, s, u) == Entry(m, s, u)
    {
      WalkUses(m, use, s, u / NPTE);
    }
  }

  lemma TableWriteKeepsTree(m: seq<Page>, use: seq<Use>, n: seq<Page>, new': seq<Use>, p: nat, i: nat, x: nat)
    requires TreeOk(m, use) && TableChange(m, use, n, new', p, i, x)
    ensures TreeOk(n, new') && SameEntries(m, n, use)
    ensures forall s :: Live(use, s) <==> Live(new', s)
  {
    TableDown(m, use, n, new', p, i, x);
    TableUp(m, use, n, new', p, i, x);
    TableLeaves(m, use, n, new', p, i, x);
    TableSameEntries(m, use, n, new', p, i, x);
    assert Frames(n, new');
  }

  // ---- tearing a tree down ------------------------------------------------------------------

  /** The key that a table's ancestor of level l has. */
  function AncestorKey(u: Use, l: nat): nat
    requires u.Table? && u.level <= l <= 2
  {
    if u.level == l then u.key else if u.level + 1 == l then u.key / NPTE else u.key / NPTE / NPTE
  }

  /** The tables of the subtree below (and with) the level-l table of key k. */
  predicate InSub(u: Use, r: nat, l: nat, k: nat)
    requires l <= 2
  {
    u.Table? && u.root == r && u.level <= l && AncestorKey(u, l) == k
  }

  /** No table serves below an empty entry. */
  lemma NothingBelow(m: seq<Page>, use: seq<Use>, p: nat, i: nat)
    requires TreeOk(m, use) && p < |m| && i < NPTE && use[p].Table? && use[p].level > 0 && !V(m[p][i])
    ensures forall q :: 0 <= q < |m| ==> !InSub(use[q], use[p].root, use[p].level - 1, use[p].key * NPTE + i)
  {
  }

  /** The subtree at entry i of p is gone and the entry cleared. */
  ghost predicate Pruned(m: seq<Page>, use: seq<Use>, n: seq<Page>, new': seq<Use>, p: nat, i: nat)
    requires Sized(m, use)
  {
    && |n| == |new'| == |m| && p < |m| && i < NPTE && use[p].Table? && 0 < use[p].level <= 2
    && n[p] == m[p][i := 0]
    && (forall q :: 0 <= q < |m| ==>
          new'[q] == if InSub(use[q], use[p].root, use[p].level - 1, use[p].key * NPTE + i) then Free else use[q])
    && (forall q :: 0 <= q < |m| && new'[q].Table? && q != p ==> n[q] == m[q])
  }

  /** No valid leaf below the level-l table of key k. */
  ghost predicate NoLeaves(m: seq<Page>, use: seq<Use>, r: nat, l: nat, k: nat)
    requires Sized(m, use) && l <= 2
  {
    forall q, j :: 0 <= q < |m| && InSub(use[q], r, l, k) && use[q].level == 0 && 0 <= j < NPTE ==> !V(m[q][j])
  }

  lemma PruneWalks(m: seq<Page>, use: seq<Use>, n: seq<Page>, new': seq<Use>, p: nat, i: nat)
    requires TreeOk(m, use) && Pruned(m, use, n, new', p, i)
    ensures Live(new', use[p].root)
    ensures forall q :: 0 <= q < |n| && new'[q].Table? && new'[q].level == 1 ==> T1(n, new'[q].root, new'[q].key) == q
    ensures forall q :: 0 <= q < |n| && new'[q].Table? && new'[q].level == 0 ==> T0(n, new'[q].root, new'[q].key) == q
  {
    forall q | 0 <= q < |n| && new'[q].Table? && new'[q].level == 1
      ensures T1(n, new'[q].root, new'[q].key) == q
    {
      assert use[q] == new'[q];
    }
    forall q | 0 <= q < |n| && new'[q].Table? && new'[q].level == 0
      ensures T0(n, new'[q].root, new'[q].key) == q
    {
      assert use[q] == new'[q];
      WalkUses(m, use, use[q].root, use[q].key);
    }
  }

  lemma PruneUp(m: seq<Page>, use: seq<Use>, n: seq<Page>, new': seq<Use>, p: nat, i: nat)
    requires TreeOk(m, use) && Pruned(m, use, n, new', p, i)
    ensures Up(n, new')
  {
    PruneWalks(m, use, n, new', p, i);
    forall q | 0 <= q < |n| && new'[q].Table?
      ensures Live(new', new'[q].root)
    {
      assert use[q] == new'[q];
    }
  }

  lemma PruneDown(m: seq<Page>, use: seq<Use>, n: seq<Page>, new': seq<Use>, p: nat, i: nat)
    requires TreeOk(m, use) && Pruned(m, use, n, new', p, i)
    ensures Down(n, new') && Leaves(n, new')
  {
    forall q, j | 0 <= q < |n| && new'[q].Table? && new'[q].level > 0 && 0 <= j < NPTE && V(n[q][j])
      ensures && Ppn(n[q][j]) < |n| && !Rwx(n[q][j])
              && new'[Ppn(n[q][j])] == Table(new'[q].root, new'[q].level - 1, new'[q].key * NPTE + j)
    {
      assert n[q][j] == m[q][j];
      PruneKeepsChild(m, use, p, i, q, j);
    }
    PruneLeaves(m, use, n, new', p, i);
  }

  lemma PruneLeaves(m: seq<Page>, use: seq<Use>, n: seq<Page>, new': seq<Use>, p: nat, i: nat)
    requires TreeOk(m, use) && Pruned(m, use, n, new', p, i)
    ensures Leaves(n, new')
  {
    forall q, j | 0 <= q < |n| && new'[q].Table? && new'[q].level == 0 && 0 <= j < NPTE && V(n[q][j])
      ensures n[q][j] == m[q][j] && use[q] == new'[q] && new'[Ppn(m[q][j])] == use[Ppn(m[q][j])]
    {
    }
  }

  lemma PruneKeepsChild(m: seq<Page>, use: seq<Use>, p: nat, i: nat, q: nat, j: nat)
    requires TreeOk(m, use) && p < |m| && i < NPTE && use[p].Table? && 0 < use[p].level <= 2
    requires q < |m| && j < NPTE && use[q].Table? && use[q].level > 0 && V(m[q][j]) && !(p == q && i == j)
    requires !InSub(use[q], use[p].root, use[p].level - 1, use[p].key * NPTE + i)
    ensures Ppn(m[q][j]) < |m| && !InSub(use[Ppn(m[q][j])], use[p].root, use[p].level - 1, use[p].key * NPTE + i)
  {
  }

  lemma PruneKeepsTree(m: seq<Page>, use: seq<Use>, n: seq<Page>, new': seq<Use>, p: nat, i: nat)
    requires TreeOk(m, use) && Pruned(m, use, n, new', p, i)
    requires NoLeaves(m, use, use[p].root, use[p].level - 1, use[p].key * NPTE + i)
    ensures TreeOk(n, new')
  {
    PruneUp(m, use, n, new', p, i);
    PruneDown(m, use, n, new', p, i);
    PruneFrames(m, use, n, new', p, i);
  }

  lemma PruneFrames(m: seq<Page>, use: seq<Use>, n: seq<Page>, new': seq<Use>, p: nat, i: nat)
    requires TreeOk(m, use) && Pruned(m, use, n, new', p, i)
    requires NoLeaves(m, use, use[p].root, use[p].level - 1, use[p].key * NPTE + i)
    ensures Frames(n, new')
  {
    PruneWalks(m, use, n, new', p, i);
    forall q | 0 <= q < |n| && new'[q].Frame?
      ensures && Live(new', new'[q].root) && new'[q].vpn < MAXVPN
              && V(Entry(n, new'[q].root, new'[q].vpn)) && Ppn(Entry(n, new'[q].root, new'[q].vpn)) == q
    {
      assert use[q] == new'[q];
      var k := use[q].vpn / NPTE;
      var t := T0(m, use[q].root, k);
      WalkUses(m, use, use[q].root, k);
      assert new'[t] == use[t];
    }
  }

  // ---- roots ----------------------------------------------------------------------------------

  lemma RootCreated(m: seq<Page>, use: seq<Use>, n: seq<Page>, new': seq<Use>, r: nat)
    requires TreeOk(m, use) && 0 < r < |m| && use[r].Held? && |n| == |m|
    requires new' == use[r := Table(r, 2, 0)] && Zeroed(n[r])
    requires forall q :: 0 <= q < |m| && q != r ==> n[q] == m[q]
    ensures TreeOk(n, new') && SameEntries(m, n, use)
    ensures forall v :: 0 <= v < MAXVPN ==> Entry(n, r, v) == 0
  {
    OthersKept(m, use, n, r);
    TablesKept(m, use, n, new');
    assert Up(n, new');
    assert Frames(n, new');
  }

  lemma OthersKept(m: seq<Page>, use: seq<Use>, n: seq<Page>, r: nat)
    requires TreeOk(m, use) && |n| == |m|
    requires forall q :: 0 <= q < |m| && use[q].Table? && use[q].root != r ==> n[q] == m[q]
    ensures forall s :: Live(use, s) && s != r ==>
              && (forall k :: 0 <= k < NPTE ==> T1(n, s, k) == T1(m, s, k))
              && (forall k :: 0 <= k < NPTE * NPTE ==> T0(n, s, k) == T0(m, s, k))
              && (forall v :: 0 <= v < MAXVPN ==> Entry(n, s, v) == Entry(m, s, v))
  {
    forall s | Live(use, s) && s != r
      ensures forall k :: 0 <= k < NPTE ==> T1(n, s, k) == T1(m, s, k)
      ensures forall k :: 0 <= k < NPTE * NPTE ==> T0(n, s, k) == T0(m, s, k)
      ensures forall v :: 0 <= v < MAXVPN ==> Entry(n, s, v) == Entry(m, s, v)
    {
      SameRoot(m, use, n, s);
    }
  }

  /** The whole tree of root r is gone; the other address spaces do not notice. */
  lemma RootFreed(m: seq<Page>, use: seq<Use>, n: seq<Page>, new': seq<Use>, r: nat)
    requires TreeOk(m, use) && Live(use, r) && NoLeaves(m, use, r, 2, 0) && |n| == |new'| == |m|
    requires forall q :: 0 <= q < |m| ==> new'[q] == if InSub(use[q], r, 2, 0) then Free else use[q]
    requires forall q :: 0 <= q < |m| && !InSub(use[q], r, 2, 0) ==> n[q] == m[q]
    ensures TreeOk(n, new')
    ensures forall s, v :: Live(use, s) && s != r && 0 <= v < MAXVPN ==> Live(new', s) && Entry(n, s, v) == Entry(m, s, v)
  {
    OnlyThisRoot(m, use, r);
    OthersKept(m, use, n, r);
    assert Sized(n, new') && forall s :: Live(use, s) && s != r ==> Live(new', s);
    assert Up(n, new');
    NoFrames(m, use, r);
    RootFreedDown(m, use, n, new', r);
    assert Frames(n, new');
  }

  lemma RootFreedDown(m: seq<Page>, use: seq<Use>, n: seq<Page>, new': seq<Use>, r: nat)
    requires TreeOk(m, use) && |n| == |new'| == |m|
    requires forall q :: 0 <= q < |m| && use[q].Table? ==> (use[q].root == r <==> InSub(use[q], r, 2, 0))
    requires forall q :: 0 <= q < |m| ==> new'[q] == if InSub(use[q], r, 2, 0) then Free else use[q]
    requires forall q :: 0 <= q < |m| && !InSub(use[q], r, 2, 0) ==> n[q] == m[q]
    ensures Sized(n, new') && Down(n, new') && Leaves(n, new')
  {
    hide Up, Frames;
    forall q, i | 0 <= q < |n| && new'[q].Table? && 0 <= i < NPTE && V(n[q][i])
      ensures new'[q] == use[q] && n[q] == m[q]
    {
    }
  }

  lemma NoFrames(m: seq<Page>, use: seq<Use>, r: nat)
    requires TreeOk(m, use) && Live(use, r) && NoLeaves(m, use, r, 2, 0)
    ensures forall q :: 0 <= q < |m| && use[q].Frame? ==> use[q].root != r
  {
    forall q | 0 <= q < |m| && use[q].Frame?
      ensures use[q].root != r
    {
      WalkUses(m, use, use[q].root, use[q].vpn / NPTE);
    }
  }

  lemma OnlyThisRoot(m: seq<Page>, use: seq<Use>, r: nat)
    requires TreeOk(m, use) && Live(use, r)
    ensures forall q :: 0 <= q < |m| && use[q].Table? ==> (use[q].root == r <==> InSub(use[q], r, 2, 0))
  {
  }
}
