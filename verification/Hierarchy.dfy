/**
 The other half of the nodes of hierarchy_tree.c: parents, and the children of a node as a list
 through h_next_sibling, newest first.
 */
module Hierarchy {
  import opened SearchTree
  import opened Basics

  /** The sibling pointers from p on are the list q. */
  ghost predicate List(h: Heap, p: nat, q: seq<nat>)
    decreases |q|
  {
    if q == [] then p == 0 else 0 < p < |h| && p == q[0] && List(h, h[p].hNext, q[1..])
  }

  ghost predicate KidsAt(h: Heap, live: set<nat>, kids: map<nat, seq<nat>>, p: nat)
    requires p in kids && p < |h|
  {
    && List(h, h[p].hChildren, kids[p])
    && Distinct(kids[p])
    && (forall c :: c in kids[p] ==> c in live && c < |h| && h[c].hParent == p)
  }

  ghost predicate ParentAt(h: Heap, live: set<nat>, kids: map<nat, seq<nat>>, c: nat) {
    c < |h| && h[c].hParent != c && (h[c].hParent != 0 ==> h[c].hParent in live && h[c].hParent in kids && c in kids[h[c].hParent])
  }

  /** Every live node with a parent is in its parent's list of children, once, and nothing else is. */
  ghost predicate Hier(h: Heap, live: set<nat>, kids: map<nat, seq<nat>>) {
    && kids.Keys == live
    && (forall p :: p in live ==> 0 < p < |h|)
    && (forall p: nat {:trigger KidsAt(h, live, kids, p)} :: p in live ==> KidsAt(h, live, kids, p))
    && (forall c: nat {:trigger ParentAt(h, live, kids, c)} :: c in live ==> ParentAt(h, live, kids, c))
  }

  /** The same, but the nodes of orphans still name a parent that is gone. */
  ghost predicate HierBut(h: Heap, live: set<nat>, kids: map<nat, seq<nat>>, gone: nat, orphans: seq<nat>) {
    && kids.Keys == live && gone != 0 && gone !in live
    && (forall p :: p in live ==> 0 < p < |h|)
    && (forall p: nat {:trigger KidsAt(h, live, kids, p)} :: p in live ==> KidsAt(h, live, kids, p))
    && (forall c: nat {:trigger ParentAt(h, live, kids, c)} :: c in live && c !in orphans ==> ParentAt(h, live, kids, c))
    && (forall c :: c in orphans ==> c in live && c < |h| && h[c].hParent == gone)
  }

  /** Without orphans it is the hierarchy, and with any it is none. */
  lemma HierIff(h: Heap, live: set<nat>, kids: map<nat, seq<nat>>, gone: nat, orphans: seq<nat>)
    requires HierBut(h, live, kids, gone, orphans)
    ensures orphans == [] ==> Hier(h, live, kids)
    ensures orphans != [] ==> forall k: map<nat, seq<nat>> :: !Hier(h, live, k)
  {
    if orphans != [] {
      forall k: map<nat, seq<nat>> ensures !Hier(h, live, k) {
        assert orphans[0] in orphans && !ParentAt(h, live, k, orphans[0]);
      }
    }
  }

  /** The same nodes as far as data and hierarchy go. */
  ghost predicate SameLinks(h: Heap, g: Heap) {
    |h| == |g| && forall i {:trigger g[i]} :: 0 <= i < |h| ==>
      g[i].data == h[i].data && g[i].hParent == h[i].hParent && g[i].hNext == h[i].hNext && g[i].hChildren == h[i].hChildren
  }

  lemma {:induction false} ListFrame(h: Heap, g: Heap, p: nat, q: seq<nat>)
    requires List(h, p, q) && |h| <= |g| && forall i :: i in q && i < |h| ==> g[i].hNext == h[i].hNext
    ensures List(g, p, q)
    decreases |q|
  {
    if q != [] {
      assert q[0] in q && forall x :: x in q[1..] ==> x in q;
      ListFrame(h, g, h[p].hNext, q[1..]);
    }
  }

  lemma HierButFrame(h: Heap, g: Heap, live: set<nat>, kids: map<nat, seq<nat>>, gone: nat, orphans: seq<nat>)
    requires HierBut(h, live, kids, gone, orphans) && SameLinks(h, g)
    ensures HierBut(g, live, kids, gone, orphans)
  {
    forall p: nat | p in live ensures KidsAt(g, live, kids, p) {
      assert KidsAt(h, live, kids, p);
      ListFrame(h, g, h[p].hChildren, kids[p]);
    }
    hide List;
    forall c: nat | c in live && c !in orphans ensures ParentAt(g, live, kids, c) { assert ParentAt(h, live, kids, c); }
  }

  lemma HierFrame(h: Heap, g: Heap, live: set<nat>, kids: map<nat, seq<nat>>)
    requires Hier(h, live, kids) && SameLinks(h, g)
    ensures Hier(g, live, kids)
  {
    forall p: nat | p in live ensures KidsAt(g, live, kids, p) {
      assert KidsAt(h, live, kids, p);
      ListFrame(h, g, h[p].hChildren, kids[p]);
    }
    forall c: nat | c in live ensures ParentAt(g, live, kids, c) { assert ParentAt(h, live, kids, c); }
  }

  // ---- a new node -------------------------------------------------------------------------------

  /** The effect of h_node_init for node n under parent p, on the hierarchy. */
  ghost predicate Adds(h: Heap, g: Heap, n: nat, p: nat) {
    && |g| == |h| && 0 < n < |h| && p < |h| && p != n
    && g[n].hParent == p && g[n].hNext == (if p == 0 then 0 else h[p].hChildren) && g[n].hChildren == 0
    && forall i {:trigger g[i]} :: 0 <= i < |h| && i != n ==>
         g[i].data == h[i].data && g[i].hParent == h[i].hParent && g[i].hNext == h[i].hNext
         && g[i].hChildren == if i == p && p != 0 then n else h[i].hChildren
  }

  function WithKid(kids: map<nat, seq<nat>>, n: nat, p: nat): map<nat, seq<nat>>
    requires p == 0 || p in kids
  {
    if p == 0 then kids[n := []] else kids[p := [n] + kids[p]][n := []]
  }

  lemma AddsKids(h: Heap, g: Heap, live: set<nat>, kids: map<nat, seq<nat>>, n: nat, p: nat, q: nat)
    requires Hier(h, live, kids) && Adds(h, g, n, p) && n !in live && (p == 0 || p in live) && q in live
    ensures KidsAt(g, live + {n}, WithKid(kids, n, p), q)
  {
    assert KidsAt(h, live, kids, q);
    assert n !in kids[q];
    ListFrame(h, g, h[q].hChildren, kids[q]);
    hide List;
    if q == p {
      var l := [n] + kids[p];
      assert l[1..] == kids[p];
      assert List(g, n, l) by { ListCons(g, n, kids[p]); }
    }
  }

  lemma ListCons(h: Heap, n: nat, q: seq<nat>)
    requires 0 < n < |h| && List(h, h[n].hNext, q)
    ensures List(h, n, [n] + q)
  {
    assert ([n] + q)[1..] == q;
  }

  lemma AddsParent(h: Heap, g: Heap, live: set<nat>, kids: map<nat, seq<nat>>, n: nat, p: nat, c: nat)
    requires Hier(h, live, kids) && Adds(h, g, n, p) && n !in live && (p == 0 || p in live) && c in live + {n}
    ensures ParentAt(g, live + {n}, WithKid(kids, n, p), c)
  {
    hide KidsAt;
    if c != n {
      assert ParentAt(h, live, kids, c);
      assert g[c].hParent == h[c].hParent;
    }
  }

  /** The new node is the first child of its parent; the other lists stay. */
  lemma AddsKeeps(h: Heap, g: Heap, live: set<nat>, kids: map<nat, seq<nat>>, n: nat, p: nat)
    requires Hier(h, live, kids) && Adds(h, g, n, p) && n !in live && (p == 0 || p in live)
    ensures Hier(g, live + {n}, WithKid(kids, n, p))
  {
    var kids', live' := WithKid(kids, n, p), live + {n};
    assert kids'.Keys == live' && kids'[n] == [];
    assert KidsAt(g, live', kids', n);
    assert forall q :: q in live' ==> 0 < q < |g|;
    forall q: nat | q in live' ensures KidsAt(g, live', kids', q) {
      hide List, KidsAt, ParentAt;
      if q != n { AddsKids(h, g, live, kids, n, p, q); }
    }
    hide KidsAt, List;
    forall c: nat | c in live' ensures ParentAt(g, live', kids', c) {
      hide Adds, WithKid, ParentAt;
      AddsParent(h, g, live, kids, n, p, c);
    }
  }

  // ---- a node taken out -------------------------------------------------------------------------

  /** The list without its element at k. */
  function Dropped(q: seq<nat>, k: nat): seq<nat>
    requires k < |q|
  {
    q[..k] + q[k + 1..]
  }

  /** The pointer that leads to element k of a list: from the parent, or from the sibling before. */
  lemma {:induction false} ListAt(h: Heap, p: nat, q: seq<nat>, k: nat)
    requires List(h, p, q) && k < |q|
    ensures 0 < q[k] < |h|
    ensures h[q[k]].hNext == if k + 1 < |q| then q[k + 1] else 0
    ensures p == q[0]
    decreases |q|
  {
    if k > 0 { ListAt(h, h[p].hNext, q[1..], k - 1); }
    else if |q| > 1 { assert q[1..][0] == q[1]; }
  }

  /** Unlinking element k > 0 through the sibling before it. */
  lemma {:induction false} ListDrop(h: Heap, g: Heap, p: nat, q: seq<nat>, k: nat)
    requires List(h, p, q) && 0 < k < |q| && Distinct(q)
    requires q[k - 1] < |h| && q[k] < |h| && |g| == |h| && g[q[k - 1]].hNext == h[q[k]].hNext
    requires forall i :: 0 <= i < |h| && i != q[k - 1] ==> g[i].hNext == h[i].hNext
    ensures List(g, p, Dropped(q, k))
    decreases |q|
  {
    var r := q[1..];
    assert Distinct(r);
    var d := Dropped(q, k);
    if k == 1 {
      assert h[p].hNext == q[1] && List(h, q[1], r);
      assert d[1..] == r[1..];
      ListFrame(h, g, h[q[1]].hNext, r[1..]);
    } else {
      assert r[k - 2] == q[k - 1] && r[k - 1] == q[k];
      ListDrop(h, g, h[p].hNext, r, k - 1);
      assert d[1..] == Dropped(r, k - 1);
    }
  }

  /** The effect of remove_child_from_h for a node c that is at place k of its parent's list. */
  ghost predicate Unlinks(h: Heap, g: Heap, c: nat, q: seq<nat>, k: nat) {
    && |g| == |h| && c < |h| && k < |q| && q[k] == c && h[c].hParent < |h|
    && var p := h[c].hParent;
       if k == 0 then g == h[p := h[p].(hChildren := h[c].hNext)]
       else q[k - 1] < |h| && g == h[q[k - 1] := h[q[k - 1]].(hNext := h[c].hNext)]
  }

  function WithoutKid(kids: map<nat, seq<nat>>, c: nat, p: nat, k: nat): map<nat, seq<nat>>
    requires p in kids && k < |kids[p]|
  {
    kids[p := Dropped(kids[p], k)] - {c}
  }

  lemma DroppedHas(q: seq<nat>, k: nat, x: nat)
    requires k < |q| && Distinct(q)
    ensures x in Dropped(q, k) <==> x in q && x != q[k]
    ensures Distinct(Dropped(q, k))
  {
    if x in q && x != q[k] {
      var i :| 0 <= i < |q| && q[i] == x;
      assert Dropped(q, k)[if i < k then i else i - 1] == x;
    }
  }

  lemma UnlinksList(h: Heap, g: Heap, c: nat, q: seq<nat>, k: nat, p: nat)
    requires p < |h| && List(h, h[p].hChildren, q) && p != c && c < |h| && h[c].hParent == p && Unlinks(h, g, c, q, k)
    requires Distinct(q)
    ensures List(g, g[p].hChildren, Dropped(q, k))
  {
    if k == 0 {
      ListFrame(h, g, h[c].hNext, q[1..]);
      assert Dropped(q, 0) == q[1..];
    } else {
      ListDrop(h, g, h[p].hChildren, q, k);
    }
  }

  lemma UnlinksKids(h: Heap, g: Heap, live: set<nat>, kids: map<nat, seq<nat>>, c: nat, k: nat, p: nat)
    requires Hier(h, live, kids) && p in live && c in live && p != c && h[c].hParent == p && Unlinks(h, g, c, kids[p], k)
    ensures KidsAt(g, live - {c}, WithoutKid(kids, c, p, k), p)
  {
    var q := kids[p];
    assert KidsAt(h, live, kids, p);
    UnlinksList(h, g, c, q, k, p);
    hide List;
    DroppedHas(q, k, c);
    forall x | x in Dropped(q, k) ensures x in live - {c} && x < |g| && g[x].hParent == p { DroppedHas(q, k, x); }
  }

  lemma UnlinksOther(h: Heap, g: Heap, live: set<nat>, kids: map<nat, seq<nat>>, c: nat, k: nat, p: nat, r: nat)
    requires Hier(h, live, kids) && p in live && c in live && p != c && h[c].hParent == p && Unlinks(h, g, c, kids[p], k)
    requires r in live && r != p && r != c
    ensures KidsAt(g, live - {c}, WithoutKid(kids, c, p, k), r)
  {
    assert KidsAt(h, live, kids, r) && KidsAt(h, live, kids, p);
    assert kids[p][k] in kids[p];
    if k > 0 { assert kids[p][k - 1] in kids[p]; }
    ListFrame(h, g, h[r].hChildren, kids[r]);
    hide List;
  }

  /** Without c the hierarchy is as it was, but for its children. */
  lemma UnlinksKeeps(h: Heap, g: Heap, live: set<nat>, kids: map<nat, seq<nat>>, c: nat, k: nat, p: nat)
    requires Hier(h, live, kids) && p in live && c in live && p != c && h[c].hParent == p && Unlinks(h, g, c, kids[p], k)
    ensures HierBut(g, live - {c}, WithoutKid(kids, c, p, k), c, kids[c])
  {
    assert KidsAt(h, live, kids, c);
    var kids' := WithoutKid(kids, c, p, k);
    forall r: nat | r in live - {c} ensures KidsAt(g, live - {c}, kids', r) {
      if r == p { UnlinksKids(h, g, live, kids, c, k, p); } else { UnlinksOther(h, g, live, kids, c, k, p, r); }
    }
    assert KidsAt(h, live, kids, p);
    forall x | x in kids[c] ensures x in live - {c} && x < |g| && g[x].hParent == c {
      assert ParentAt(h, live, kids, x);
    }
    forall x: nat | x in live - {c} && x !in kids[c] ensures ParentAt(g, live - {c}, kids', x) {
      assert ParentAt(h, live, kids, x) && ParentAt(h, live, kids, c);
      DroppedHas(kids[p], k, x);
    }
  }

  /** A node without a parent is in no list. */
  lemma OrphanKeeps(h: Heap, live: set<nat>, kids: map<nat, seq<nat>>, c: nat)
    requires Hier(h, live, kids) && c in live && h[c].hParent == 0
    ensures HierBut(h, live - {c}, kids - {c}, c, kids[c])
  {
    var kids' := kids - {c};
    assert KidsAt(h, live, kids, c);
    forall x | x in kids[c] ensures x in live - {c} && x < |h| && h[x].hParent == c {
      assert ParentAt(h, live, kids, x);
    }
    forall r: nat | r in live - {c} ensures KidsAt(h, live - {c}, kids', r) {
      assert KidsAt(h, live, kids, r);
    }
    forall x: nat | x in live - {c} && x !in kids[c] ensures ParentAt(h, live - {c}, kids', x) {
      assert ParentAt(h, live, kids, x);
    }
  }

  // ---- the two cases together -------------------------------------------------------------------

  /** The lists of children when c, with parent p, is gone. */
  function Expelled(kids: map<nat, seq<nat>>, c: nat, p: nat): map<nat, seq<nat>> {
    if p in kids then kids[p := Without(kids[p], c)] - {c} else kids - {c}
  }

  /** What remove_child_from_h does. */
  ghost predicate RemovesChild(h: Heap, g: Heap, kids: map<nat, seq<nat>>, c: nat) {
    c < |h| && if h[c].hParent == 0 then g == h
               else h[c].hParent in kids && exists k: nat :: Unlinks(h, g, c, kids[h[c].hParent], k)
  }

  lemma RemovesKeeps(h: Heap, g: Heap, live: set<nat>, kids: map<nat, seq<nat>>, c: nat)
    requires Hier(h, live, kids) && c in live && RemovesChild(h, g, kids, c)
    ensures HierBut(g, live - {c}, Expelled(kids, c, h[c].hParent), c, kids[c])
  {
    var p := h[c].hParent;
    assert ParentAt(h, live, kids, c);
    if p == 0 {
      OrphanKeeps(h, live, kids, c);
    } else {
      var k: nat :| Unlinks(h, g, c, kids[p], k);
      assert KidsAt(h, live, kids, p);
      WithoutAt(kids[p], c, k);
      UnlinksKeeps(h, g, live, kids, c, k, p);
    }
  }
}
