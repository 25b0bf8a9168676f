/**
 The node heap of hierarchy_tree.c on values. Nodes are records addressed by number, 0 for NULL.
 A Tree says which tree the left and right pointers form; the pointers to parents, siblings and
 children in the hierarchy live in the same records.
 */
module SearchTree {

  datatype Node = Node(data: int, left: nat, right: nat, hParent: nat, hNext: nat, hChildren: nat, size: int)

  type Heap = seq<Node>

  datatype Tree = Leaf | Branch(left: Tree, id: nat, data: int, right: Tree)

  function Ids(t: Tree): set<nat> {
    match t case Leaf => {} case Branch(l, i, _, r) => Ids(l) + {i} + Ids(r)
  }

  function Count(t: Tree): nat {
    match t case Leaf => 0 case Branch(l, _, _, r) => 1 + Count(l) + Count(r)
  }

  function Root(t: Tree): nat {
    match t case Leaf => 0 case Branch(_, i, _, _) => i
  }

  /** The nodes with their data, in order. */
  function InOrder(t: Tree): seq<(int, nat)> {
    match t case Leaf => [] case Branch(l, i, d, r) => InOrder(l) + [(d, i)] + InOrder(r)
  }

  function PreOrder(t: Tree): (s: seq<int>)
    ensures |s| == Count(t)
  {
    match t case Leaf => [] case Branch(l, _, d, r) => [d] + PreOrder(l) + PreOrder(r)
  }

  /** The pointers from p on form tree t, and the sizes are exact. */
  ghost predicate Shape(h: Heap, p: nat, t: Tree)
    decreases t
  {
    match t
    case Leaf => p == 0
    case Branch(l, i, d, r) =>
      && p == i && 0 < i < |h| && h[i].data == d && h[i].size == Count(t)
      && Shape(h, h[i].left, l) && Shape(h, h[i].right, r)
  }

  /** No node is in the tree twice. */
  predicate Apart(t: Tree) {
    match t case Leaf => true
    case Branch(l, i, _, r) => Apart(l) && Apart(r) && Ids(l) !! Ids(r) && i !in Ids(l) && i !in Ids(r)
  }

  predicate Below(t: Tree, d: int) {
    match t case Leaf => true case Branch(l, _, e, r) => e < d && Below(l, d) && Below(r, d)
  }

  predicate Above(t: Tree, d: int) {
    match t case Leaf => true case Branch(l, _, e, r) => e > d && Above(l, d) && Above(r, d)
  }

  /** Search order. */
  predicate Ordered(t: Tree) {
    match t case Leaf => true case Branch(l, _, d, r) => Ordered(l) && Ordered(r) && Below(l, d) && Above(r, d)
  }

  ghost predicate SameSearch(h: Heap, g: Heap, ids: set<nat>) {
    |h| <= |g| && forall i :: i in ids && i < |h| ==>
      g[i].left == h[i].left && g[i].right == h[i].right && g[i].data == h[i].data && g[i].size == h[i].size
  }

  lemma {:induction false} ShapeFrame(h: Heap, g: Heap, p: nat, t: Tree)
    requires Shape(h, p, t) && SameSearch(h, g, Ids(t))
    ensures Shape(g, p, t)
    decreases t
  {
    match t
    case Leaf =>
    case Branch(l, i, d, r) =>
      assert i in Ids(t);
      ShapeFrame(h, g, h[i].left, l);
      ShapeFrame(h, g, h[i].right, r);
  }

  /** Pointers form at most one tree. */
  lemma {:induction false} ShapeUnique(h: Heap, p: nat, t: Tree, u: Tree)
    requires Shape(h, p, t) && Shape(h, p, u)
    ensures t == u
    decreases t
  {
    if t.Branch? {
      ShapeUnique(h, h[p].left, t.left, u.left);
      ShapeUnique(h, h[p].right, t.right, u.right);
    }
  }

  /** A node of the tree is the root of a part of it. */
  lemma {:induction false} Part(h: Heap, p: nat, t: Tree, i: nat) returns (u: Tree)
    requires Shape(h, p, t) && i in Ids(t)
    ensures Shape(h, i, u) && Count(u) <= Count(t) && u.Branch?
    decreases t
  {
    if i == t.id { u := t; }
    else if i in Ids(t.left) { u := Part(h, h[p].left, t.left, i); }
    else { u := Part(h, h[p].right, t.right, i); }
  }

  /** The root of a tree is not below itself. */
  lemma RootOnce(h: Heap, p: nat, t: Tree)
    requires Shape(h, p, t) && t.Branch?
    ensures p !in Ids(t.left) && p !in Ids(t.right)
  {
    if p in Ids(t.left) {
      var u := Part(h, h[p].left, t.left, p);
      ShapeUnique(h, p, t, u);
    } else if p in Ids(t.right) {
      var u := Part(h, h[p].right, t.right, p);
      ShapeUnique(h, p, t, u);
    }
  }

  lemma {:induction false} BelowTrans(t: Tree, d: int, e: int)
    requires d <= e
    ensures Below(t, d) ==> Below(t, e)
    ensures Above(t, e) ==> Above(t, d)
  {
    if t.Branch? { BelowTrans(t.left, d, e); BelowTrans(t.right, d, e); }
  }

  // ---- search and insertion ---------------------------------------------------------------------

  function Find(t: Tree, key: int): (p: nat) {
    match t
    case Leaf => 0
    case Branch(l, i, d, r) => if d < key then Find(r, key) else if d > key then Find(l, key) else i
  }

  lemma {:induction false} InOrderBounds(t: Tree, d: int, x: (int, nat))
    requires x in InOrder(t)
    ensures Below(t, d) ==> x.0 < d
    ensures Above(t, d) ==> x.0 > d
  {
    if x in InOrder(t.left) { InOrderBounds(t.left, d, x); }
    else if x in InOrder(t.right) { InOrderBounds(t.right, d, x); }
  }

  /** In an ordered tree the search finds the node with the key, if it is anywhere in the tree. */
  lemma {:induction false} FindIs(t: Tree, key: int, i: nat)
    requires Ordered(t) && (key, i) in InOrder(t)
    ensures Find(t, key) == i
  {
    if (key, i) in InOrder(t.left) {
      InOrderBounds(t.left, t.data, (key, i));
      FindIs(t.left, key, i);
    } else if (key, i) in InOrder(t.right) {
      InOrderBounds(t.right, t.data, (key, i));
      FindIs(t.right, key, i);
    }
  }

  lemma {:induction false} FoundIsThere(t: Tree, key: int)
    requires 0 !in Ids(t) && Find(t, key) != 0
    ensures (key, Find(t, key)) in InOrder(t)
  {
    if t.data < key { FoundIsThere(t.right, key); }
    else if t.data > key { FoundIsThere(t.left, key); }
  }

  /** The tree after an insertion of node i with this data. */
  function Inserted(t: Tree, d: int, i: nat): Tree {
    match t
    case Leaf => Branch(Leaf, i, d, Leaf)
    case Branch(l, j, e, r) =>
      if d > e then Branch(l, j, e, Inserted(r, d, i))
      else if d < e then Branch(Inserted(l, d, i), j, e, r)
      else t
  }

  lemma {:induction false} InsertedOrdered(t: Tree, d: int, i: nat, e: int)
    requires Ordered(t)
    ensures Ordered(Inserted(t, d, i))
    ensures Below(t, e) && d < e ==> Below(Inserted(t, d, i), e)
    ensures Above(t, e) && d > e ==> Above(Inserted(t, d, i), e)
  {
    match t
    case Leaf =>
    case Branch(l, j, f, r) =>
      if d > f { InsertedOrdered(r, d, i, e); InsertedOrdered(r, d, i, f); }
      else if d < f { InsertedOrdered(l, d, i, e); InsertedOrdered(l, d, i, f); }
  }

  /** r is s with x at one more place. */
  ghost predicate OneMore(s: seq<(int, nat)>, r: seq<(int, nat)>, x: (int, nat)) {
    exists k :: 0 <= k <= |s| && r == s[..k] + [x] + s[k..]
  }

  lemma OneMoreInside(a: seq<(int, nat)>, s: seq<(int, nat)>, r: seq<(int, nat)>, b: seq<(int, nat)>, x: (int, nat))
    requires OneMore(s, r, x)
    ensures OneMore(a + s + b, a + r + b, x)
  {
    var k :| 0 <= k <= |s| && r == s[..k] + [x] + s[k..];
    var n := |a| + k;
    var w := a + s + b;
    assert w[..n] == a + s[..k];
    assert w[n..] == s[k..] + b;
    assert a + r + b == w[..n] + [x] + w[n..];
  }

  /** Insertion adds the new node at one place of the order and changes nothing else, unless the
      data is there already. */
  lemma {:induction false} InsertedInOrder(t: Tree, d: int, i: nat)
    requires Ordered(t) && 0 !in Ids(t)
    ensures Find(t, d) == 0 ==> OneMore(InOrder(t), InOrder(Inserted(t, d, i)), (d, i))
    ensures Find(t, d) != 0 ==> Inserted(t, d, i) == t
  {
    match t
    case Leaf => assert InOrder(Inserted(t, d, i)) == InOrder(t)[..0] + [(d, i)] + InOrder(t)[0..];
    case Branch(l, j, e, r) =>
      if d > e {
        InsertedInOrder(r, d, i);
        if Find(r, d) == 0 {
          OneMoreInside(InOrder(l) + [(e, j)], InOrder(r), InOrder(Inserted(r, d, i)), [], (d, i));
          assert InOrder(t) == InOrder(l) + [(e, j)] + InOrder(r) + [];
          assert InOrder(Inserted(t, d, i)) == InOrder(l) + [(e, j)] + InOrder(Inserted(r, d, i)) + [];
        }
      } else if d < e {
        InsertedInOrder(l, d, i);
        if Find(l, d) == 0 {
          OneMoreInside([], InOrder(l), InOrder(Inserted(l, d, i)), [(e, j)] + InOrder(r), (d, i));
          assert InOrder(t) == [] + InOrder(l) + ([(e, j)] + InOrder(r));
          assert InOrder(Inserted(t, d, i)) == [] + InOrder(Inserted(l, d, i)) + ([(e, j)] + InOrder(r));
        }
      }
  }

  lemma {:induction false} InsertedIds(t: Tree, d: int, i: nat)
    requires Apart(t) && i !in Ids(t)
    ensures Apart(Inserted(t, d, i)) && Ids(Inserted(t, d, i)) <= Ids(t) + {i} && Ids(t) <= Ids(Inserted(t, d, i))
    ensures i in Ids(Inserted(t, d, i)) <==> Inserted(t, d, i) != t
    ensures Inserted(t, d, i) != t ==> Ids(Inserted(t, d, i)) == Ids(t) + {i}
  {
    match t
    case Leaf =>
    case Branch(l, j, e, r) => if d > e { InsertedIds(r, d, i); } else if d < e { InsertedIds(l, d, i); }
  }

  // ---- the tree as a sequence ---------------------------------------------------------------------

  lemma {:induction false} PreOrderBounds(t: Tree, d: int, x: int)
    requires x in PreOrder(t)
    ensures Below(t, d) ==> x < d
    ensures Above(t, d) ==> x > d
  {
    if x in PreOrder(t.left) { PreOrderBounds(t.left, d, x); }
    else if x in PreOrder(t.right) { PreOrderBounds(t.right, d, x); }
  }

  /** The root comes first, then as many smaller ones as its left part has, then the greater ones. */
  lemma PreOrderSlots(t: Tree)
    requires Ordered(t) && t.Branch?
    ensures var s := PreOrder(t); var n := 1 + Count(t.left);
            && s[0] == t.data && n <= |s| == n + Count(t.right)
            && (forall k :: 0 < k < n ==> s[k] < t.data)
            && (forall k :: n <= k < |s| ==> s[k] > t.data)
  {
    var n := 1 + Count(t.left);
    forall k | 0 < k < n ensures PreOrder(t)[k] < t.data { PreOrderBounds(t.left, t.data, PreOrder(t)[k]); }
    forall k | n <= k < |PreOrder(t)| ensures PreOrder(t)[k] > t.data { PreOrderBounds(t.right, t.data, PreOrder(t)[k]); }
  }

  /** Tree t after these are inserted, one after the other, as node 0 all. */
  function Planted(t: Tree, s: seq<int>): Tree
    decreases |s|
  {
    if s == [] then t else Planted(Inserted(t, s[0], 0), s[1..])
  }

  /** The tree without the numbers of its nodes. */
  function Bare(t: Tree): Tree {
    match t case Leaf => Leaf case Branch(l, _, d, r) => Branch(Bare(l), 0, d, Bare(r))
  }

  lemma {:induction false} PlantedMore(t: Tree, a: seq<int>, b: seq<int>)
    ensures Planted(t, a + b) == Planted(Planted(t, a), b)
    decreases |a|
  {
    if a == [] {
      assert a + b == b;
    } else {
      assert (a + b)[1..] == a[1..] + b;
      PlantedMore(Inserted(t, a[0], 0), a[1..], b);
    }
  }

  lemma {:induction false} PlantedBelow(l: Tree, d: int, r: Tree, s: seq<int>)
    requires forall x <- s :: x < d
    ensures Planted(Branch(l, 0, d, r), s) == Branch(Planted(l, s), 0, d, r)
    decreases |s|
  {
    if s != [] {
      assert s[0] in s && forall x <- s[1..] :: x in s;
      PlantedBelow(Inserted(l, s[0], 0), d, r, s[1..]);
    }
  }

  lemma {:induction false} PlantedAbove(l: Tree, d: int, r: Tree, s: seq<int>)
    requires forall x <- s :: x > d
    ensures Planted(Branch(l, 0, d, r), s) == Branch(l, 0, d, Planted(r, s))
    decreases |s|
  {
    if s != [] {
      assert s[0] in s && forall x <- s[1..] :: x in s;
      PlantedAbove(l, d, Inserted(r, s[0], 0), s[1..]);
    }
  }

  /** Inserting the flattened data one after the other gives the tree back. */
  lemma {:induction false} Replanted(t: Tree)
    requires Ordered(t)
    ensures Planted(Leaf, PreOrder(t)) == Bare(t)
  {
    if t.Branch? {
      var a, b := PreOrder(t.left), PreOrder(t.right);
      forall x | x in a ensures x < t.data { PreOrderBounds(t.left, t.data, x); }
      forall x | x in b ensures x > t.data { PreOrderBounds(t.right, t.data, x); }
      Replanted(t.left);
      Replanted(t.right);
      assert PreOrder(t) == [t.data] + (a + b);
      assert ([t.data] + (a + b))[1..] == a + b;
      PlantedMore(Branch(Leaf, 0, t.data, Leaf), a, b);
      PlantedBelow(Leaf, t.data, Leaf, a);
      PlantedAbove(Bare(t.left), t.data, Leaf, b);
    }
  }

  // ---- deletion ---------------------------------------------------------------------------------

  /** The successor of the root is two or more left steps below its right child: where delete_root
      takes the successor for its own parent. */
  predicate Deep(t: Tree) {
    t.Branch? && t.left.Branch? && t.right.Branch? && t.right.left.Branch? && t.right.left.left.Branch?
  }

  /** The tree that delete_root builds, where it works. */
  function Headless(t: Tree): (r: Tree)
    requires t.Branch? && !Deep(t)
  {
    if t.left.Leaf? then t.right
    else if t.right.Leaf? then t.left
    else if t.right.left.Leaf? then Branch(t.left, t.right.id, t.right.data, t.right.right)
    else
      var m := t.right.left;
      Branch(t.left, m.id, m.data, Branch(m.right, t.right.id, t.right.data, t.right.right))
  }

  /** The root is gone and everything else is where it was in the order. */
  lemma HeadlessInOrder(t: Tree)
    requires t.Branch? && !Deep(t)
    ensures InOrder(Headless(t)) == InOrder(t.left) + InOrder(t.right)
  {
    if t.left.Branch? && t.right.Branch? && t.right.left.Branch? {
      var m, r := t.right.left, t.right;
      assert InOrder(m) == [(m.data, m.id)] + InOrder(m.right);
      assert InOrder(r) == InOrder(m) + [(r.data, r.id)] + InOrder(r.right);
      var n := Branch(m.right, r.id, r.data, r.right);
      assert InOrder(n) == InOrder(m.right) + [(r.data, r.id)] + InOrder(r.right);
      assert InOrder(Headless(t)) == InOrder(t.left) + [(m.data, m.id)] + InOrder(n);
    }
  }

  /** The successor of the root as a left child: it takes the root's place, and the rest of the
      right part is Lifted. */
  function Lifted(r: Tree): Tree
    requires r.Branch? && r.left.Branch?
  {
    Branch(r.left.right, r.id, r.data, r.right)
  }

  lemma LiftedIds(r: Tree)
    requires r.Branch? && r.left.Branch? && r.left.left.Leaf? && Apart(r)
    ensures Ids(r) == Ids(Lifted(r)) + {r.left.id} && r.left.id !in Ids(Lifted(r)) && Apart(Lifted(r))
    ensures Count(Lifted(r)) == Count(r) - 1
  {
    var m := r.left;
    assert Ids(m) == Ids(m.right) + {m.id} && m.id !in Ids(m.right) && Apart(m.right);
    assert Ids(r) == Ids(m) + {r.id} + Ids(r.right);
    assert Count(m) == 1 + Count(m.right);
  }

  lemma LiftedOrdered(r: Tree)
    requires r.Branch? && r.left.Branch? && r.left.left.Leaf? && Ordered(r)
    ensures Ordered(Lifted(r)) && Above(Lifted(r), r.left.data)
  {
    var m := r.left;
    assert Ordered(m) && Below(m, r.data) && Above(r.right, r.data);
    assert Ordered(m.right) && Above(m.right, m.data) && Below(m.right, r.data) && m.data < r.data;
    BelowTrans(r.right, m.data, r.data);
  }

  lemma HeadlessIds(t: Tree)
    requires t.Branch? && !Deep(t) && Apart(t)
    ensures Ids(Headless(t)) == Ids(t.left) + Ids(t.right) && Apart(Headless(t))
    ensures Count(Headless(t)) == Count(t) - 1
  {
    if t.left.Branch? && t.right.Branch? && t.right.left.Branch? {
      LiftedIds(t.right);
      assert Headless(t) == Branch(t.left, t.right.left.id, t.right.left.data, Lifted(t.right));
      hide Lifted;
    }
  }

  lemma HeadlessOrdered(t: Tree)
    requires t.Branch? && !Deep(t) && Ordered(t)
    ensures Ordered(Headless(t))
  {
    if t.left.Branch? && t.right.Branch? {
      var r := t.right;
      if r.left.Branch? {
        LiftedOrdered(r);
        assert Headless(t) == Branch(t.left, r.left.id, r.left.data, Lifted(r));
        hide Lifted;
        assert Above(r, t.data) && Above(r.left, t.data);
        BelowTrans(t.left, t.data, r.left.data);
      } else {
        BelowTrans(t.left, t.data, r.data);
      }
    }
  }

  lemma HeadlessBounds(t: Tree, e: int)
    requires t.Branch? && !Deep(t)
    ensures Below(t, e) ==> Below(Headless(t), e)
    ensures Above(t, e) ==> Above(Headless(t), e)
  {
    var l, r := t.left, t.right;
    if l.Branch? && r.Branch? && r.left.Branch? {
      var m := r.left;
      assert Below(t, e) ==> Below(r, e) && Below(m, e) && Below(m.right, e) && Below(r.right, e);
      assert Above(t, e) ==> Above(r, e) && Above(m, e) && Above(m.right, e) && Above(r.right, e);
      var n := Branch(m.right, r.id, r.data, r.right);
      assert Below(t, e) ==> Below(n, e);
      assert Above(t, e) ==> Above(n, e);
    } else if l.Branch? && r.Branch? {
      assert Below(t, e) ==> Below(r, e) && Below(r.right, e);
      assert Above(t, e) ==> Above(r, e) && Above(r.right, e);
    }
  }

  /** The part of the tree below the node with this key. */
  function Found(t: Tree, key: int): Tree {
    match t
    case Leaf => Leaf
    case Branch(l, _, d, r) => if d < key then Found(r, key) else if d > key then Found(l, key) else t
  }

  function Deleted(t: Tree, key: int): (r: Tree)
    requires !Deep(Found(t, key))
  {
    match t
    case Leaf => Leaf
    case Branch(l, i, d, r) =>
      if d < key then Branch(l, i, d, Deleted(r, key))
      else if d > key then Branch(Deleted(l, key), i, d, r)
      else Headless(t)
  }

  lemma {:induction false} DeletedOrdered(t: Tree, key: int, e: int)
    requires Ordered(t) && Apart(t) && !Deep(Found(t, key))
    ensures Ordered(Deleted(t, key)) && Apart(Deleted(t, key)) && Ids(Deleted(t, key)) <= Ids(t)
    ensures Below(t, e) ==> Below(Deleted(t, key), e)
    ensures Above(t, e) ==> Above(Deleted(t, key), e)
  {
    match t
    case Leaf =>
    case Branch(l, i, d, r) =>
      if d < key { DeletedOrdered(r, key, e); DeletedOrdered(r, key, d); }
      else if d > key { DeletedOrdered(l, key, e); DeletedOrdered(l, key, d); }
      else { HeadlessOrdered(t); HeadlessBounds(t, e); HeadlessIds(t); }
  }

  /** Deletion takes the node with the key out of the order and leaves the others. */
  lemma {:induction false} DeletedInOrder(t: Tree, key: int)
    requires !Deep(Found(t, key))
    ensures Found(t, key).Leaf? ==> Deleted(t, key) == t
    ensures Found(t, key).Branch? ==>
              Found(t, key).data == key && OneMore(InOrder(Deleted(t, key)), InOrder(t), (key, Found(t, key).id))
  {
    match t
    case Leaf =>
    case Branch(l, i, d, r) =>
      if d < key {
        DeletedInOrder(r, key);
        if Found(r, key).Branch? {
          OneMoreInside(InOrder(l) + [(d, i)], InOrder(Deleted(r, key)), InOrder(r), [], (key, Found(r, key).id));
          assert InOrder(t) == InOrder(l) + [(d, i)] + InOrder(r) + [];
          assert InOrder(Deleted(t, key)) == InOrder(l) + [(d, i)] + InOrder(Deleted(r, key)) + [];
        }
      } else if d > key {
        DeletedInOrder(l, key);
        if Found(l, key).Branch? {
          OneMoreInside([], InOrder(Deleted(l, key)), InOrder(l), [(d, i)] + InOrder(r), (key, Found(l, key).id));
          assert InOrder(t) == [] + InOrder(l) + ([(d, i)] + InOrder(r));
          assert InOrder(Deleted(t, key)) == [] + InOrder(Deleted(l, key)) + ([(d, i)] + InOrder(r));
        }
      } else {
        HeadlessInOrder(t);
        var w := InOrder(l) + InOrder(r);
        assert w[..|InOrder(l)|] == InOrder(l) && w[|InOrder(l)|..] == InOrder(r);
        assert InOrder(t) == w[..|InOrder(l)|] + [(key, i)] + w[|InOrder(l)|..];
      }
  }

  // ---- where delete_root fails ------------------------------------------------------------------

  /** Node m has the tree u to its right, and the left pointers of u lead back to m. */
  ghost predicate Spine(h: Heap, u: Tree, m: nat) {
    u.Branch? && 0 < u.id < |h| && (u.id == m || (h[u.id].left == Root(u.left) && Spine(h, u.left, m)))
  }

  ghost predicate Looped(h: Heap, m: nat, u: Tree) {
    Spine(h, u, m) && 0 < m < |h| && h[m].right == Root(u)
  }

  lemma {:induction false} SpineReaches(h: Heap, u: Tree, m: nat, p: nat, t: Tree) returns (v: Tree)
    requires Spine(h, u, m) && p == Root(u) && Shape(h, p, t)
    ensures Shape(h, m, v) && Count(v) <= Count(t)
  {
    if u.id == m { v := t; } else { v := SpineReaches(h, u.left, m, h[p].left, t.left); }
  }

  /** Pointers with such a loop form no tree. */
  lemma LoopedIsNoTree(h: Heap, m: nat, u: Tree, t: Tree)
    requires Looped(h, m, u)
    ensures !Shape(h, m, t)
  {
    if Shape(h, m, t) {
      var v := SpineReaches(h, u, m, h[m].right, t.right);
      ShapeUnique(h, m, t, v);
    }
  }

  ghost predicate NoTree(h: Heap, p: nat) {
    forall t :: !Shape(h, p, t)
  }

  /** What hangs under a node must be trees for the node to be one. */
  lemma NoTreeAbove(h: Heap, g: Heap, p: nat, q: nat)
    requires NoTree(h, q) && |g| == |h| && 0 < p < |h| && (g[p].left == q || g[p].right == q)
    requires forall i :: 0 < i < |h| && i != p ==> g[i] == h[i]
    ensures NoTree(g, p)
  {
    forall t ensures !Shape(g, p, t) {
      if Shape(g, p, t) {
        RootOnce(g, p, t);
        var u := if g[p].left == q then t.left else t.right;
        ShapeIds(g, q, u);
        ShapeFrame(g, h, q, u);
      }
    }
  }

  lemma {:induction false} ShapeIds(h: Heap, p: nat, t: Tree)
    requires Shape(h, p, t)
    ensures forall i :: i in Ids(t) ==> 0 < i < |h|
    decreases t
  {
    if t.Branch? { ShapeIds(h, h[p].left, t.left); ShapeIds(h, h[p].right, t.right); }
  }

  /** v hangs at the end of some left steps from the root of u. */
  predicate OnSpine(u: Tree, v: Tree) {
    u == v || (u.Branch? && OnSpine(u.left, v))
  }

  lemma {:induction false} SpinePart(h: Heap, u: Tree, v: Tree)
    requires OnSpine(u, v) && Apart(u) && Shape(h, Root(u), u) && v.Branch?
    ensures Shape(h, Root(v), v) && Apart(v) && Ids(v) <= Ids(u) && Count(v) <= Count(u) && Spine(h, u, v.id)
    ensures OnSpine(u, v.left)
    decreases u
  {
    if u != v { SpinePart(h, u.left, v); }
  }

  lemma {:induction false} SpineFrame(h: Heap, g: Heap, u: Tree, m: nat)
    requires Spine(h, u, m) && |g| == |h| && forall i :: i in Ids(u) && i < |h| && i != m ==> g[i].left == h[i].left
    ensures Spine(g, u, m)
    decreases u
  {
    if u.id != m { SpineFrame(h, g, u.left, m); }
  }

  /** The loop of pointers that delete_root leaves behind in the deep case. */
  lemma DeepIsNoTree(h: Heap, g: Heap, u: Tree, v: Tree)
    requires OnSpine(u, v) && Apart(u) && Shape(h, Root(u), u) && v.Branch? && |g| == |h|
    requires forall i :: i in Ids(u) && i < |h| && i != v.id ==> g[i].left == h[i].left
    requires v.id < |h| && g[v.id].right == Root(u)
    ensures NoTree(g, v.id)
  {
    SpinePart(h, u, v);
    SpineFrame(h, g, u, v.id);
    forall t ensures !Shape(g, v.id, t) {
      LoopedIsNoTree(g, v.id, u, t);
    }
  }

  function SizeAt(h: Heap, p: nat): int {
    if 0 < p < |h| then h[p].size else 0
  }

  /** The heap after delete_root, when the successor m is the left child of the root's right child. */
  lemma LiftShape(h: Heap, g: Heap, t: Tree)
    requires t.Branch? && t.left.Branch? && t.right.Branch? && t.right.left.Branch? && t.right.left.left.Leaf?
    requires Shape(h, t.id, t) && Apart(t) && |g| == |h|
    requires var r, m := t.right.id, t.right.left.id;
             && 0 < r < |h| && 0 < m < |h|
             && g[r] == h[r].(size := h[r].size - 1, left := h[m].right)
             && g[m] == h[m].(left := h[t.id].left, right := r, size := 1 + Count(t.left) + (Count(t.right) - 1))
    requires forall i :: 0 <= i < |h| && i != t.id && i != t.right.id && i != t.right.left.id ==> g[i] == h[i]
    ensures Shape(g, t.right.left.id, Headless(t))
  {
    hide Shape, Apart, Ids, SameSearch, Count, Headless;
    var r, m := t.right, t.right.left;
    LiftApart(t);
    LiftFacts(h, t);
    SameOff(h, g, t, t.left);
    SameOff(h, g, t, m.right);
    SameOff(h, g, t, r.right);
    ShapeFrame(h, g, h[t.id].left, t.left);
    ShapeFrame(h, g, h[m.id].right, m.right);
    ShapeFrame(h, g, h[r.id].right, r.right);
    NodeShape(g, r.id, m.right, r.data, r.right);
    var n := Branch(m.right, r.id, r.data, r.right);
    NodeShape(g, m.id, t.left, m.data, n);
    assert Headless(t) == Branch(t.left, m.id, m.data, n) by { LiftedHead(t); }
  }

  lemma NodeShape(h: Heap, p: nat, l: Tree, d: int, r: Tree)
    requires 0 < p < |h| && h[p].data == d && h[p].size == 1 + Count(l) + Count(r)
    requires Shape(h, h[p].left, l) && Shape(h, h[p].right, r)
    ensures Shape(h, p, Branch(l, p, d, r)) && Count(Branch(l, p, d, r)) == 1 + Count(l) + Count(r)
  {
  }

  lemma LiftedHead(t: Tree)
    requires t.Branch? && t.left.Branch? && t.right.Branch? && t.right.left.Branch? && t.right.left.left.Leaf?
    ensures Headless(t) == Branch(t.left, t.right.left.id, t.right.left.data,
                                  Branch(t.right.left.right, t.right.id, t.right.data, t.right.right))
  {
  }

  /** The part of a heap around the root, its right child and the successor. */
  lemma LiftFacts(h: Heap, t: Tree)
    requires t.Branch? && t.right.Branch? && t.right.left.Branch? && t.right.left.left.Leaf? && Shape(h, t.id, t)
    ensures var r, m := t.right, t.right.left;
            && 0 < t.id < |h| && 0 < r.id < |h| && 0 < m.id < |h|
            && h[r.id].data == r.data && h[m.id].data == m.data && h[r.id].size == Count(r)
            && Count(r) == 2 + Count(m.right) + Count(r.right)
            && Shape(h, h[t.id].left, t.left) && Shape(h, h[m.id].right, m.right) && Shape(h, h[r.id].right, r.right)
  {
    var r, m := t.right, t.right.left;
    assert Shape(h, h[t.id].right, r);
    assert Shape(h, h[r.id].left, m);
    assert Count(m) == 1 + Count(m.right);
  }

  /** The three nodes that change are in none of the parts that stay. */
  lemma LiftApart(t: Tree)
    requires t.Branch? && t.right.Branch? && t.right.left.Branch? && Apart(t)
    ensures var r, m := t.right, t.right.left;
            && t.id != r.id && t.id != m.id && r.id != m.id
            && t.id !in Ids(t.left) && r.id !in Ids(t.left) && m.id !in Ids(t.left)
            && t.id !in Ids(m.right) && r.id !in Ids(m.right) && m.id !in Ids(m.right)
            && t.id !in Ids(r.right) && r.id !in Ids(r.right) && m.id !in Ids(r.right)
  {
    var r, m := t.right, t.right.left;
    assert Ids(m) == Ids(m.left) + {m.id} + Ids(m.right) && Ids(r) == Ids(m) + {r.id} + Ids(r.right);
    assert m.id in Ids(m) && r.id in Ids(r);
    assert Apart(r) && Apart(m) && Ids(t.left) !! Ids(r) && t.id !in Ids(r);
    assert Ids(m.right) <= Ids(r) && Ids(r.right) <= Ids(r) && Ids(m) !! Ids(r.right);
  }

  lemma SameOff(h: Heap, g: Heap, t: Tree, u: Tree)
    requires |g| == |h| && t.Branch? && t.right.Branch? && t.right.left.Branch?
    requires forall i :: 0 <= i < |h| && i != t.id && i != t.right.id && i != t.right.left.id ==> g[i] == h[i]
    requires t.id !in Ids(u) && t.right.id !in Ids(u) && t.right.left.id !in Ids(u)
    ensures SameSearch(h, g, Ids(u))
  {
  }
}
