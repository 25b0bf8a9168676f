/**
 The operations of hierarchy_tree.c on its node heap. A node is a record in nodes; malloc hands
 out the next number. Tree arguments are ghost: they say which tree the pointers form.
 */
module HierarchyTree {
  import opened SearchTree
  import opened Hierarchy

  /** What an insertion into t changes besides the shape: the new node n enters the hierarchy, and
      nodes outside t keep everything but their first child. */
  ghost predicate Grown(h: Heap, g: Heap, t: Tree, data: int, n: nat, hParent: nat) {
    && |g| == |h|
    && (if Inserted(t, data, n) != t then Adds(h, g, n, hParent) else SameLinks(h, g))
    && forall i {:trigger g[i]} :: 0 <= i < |h| && i !in Ids(t) && i != n ==> g[i] == h[i].(hChildren := g[i].hChildren)
  }

  /** Going up from a part u of t, the parent of the part being updated. */
  lemma GrownOn(h: Heap, g: Heap, f: Heap, t: Tree, u: Tree, data: int, n: nat, hParent: nat)
    requires Grown(h, g, u, data, n, hParent) && SameLinks(g, f) && t.Branch? && Ids(u) <= Ids(t) && t.id in Ids(t)
    requires forall i :: 0 <= i < |g| && i != t.id ==> f[i] == g[i]
    requires Inserted(t, data, n) != t <==> Inserted(u, data, n) != u
    ensures Grown(h, f, t, data, n, hParent)
  {
    hide Inserted, Ids;
  }

  /** What delete_root does to the heap. */
  ghost predicate Removed(h: Heap, g: Heap, t: Tree, r: nat)
    requires t.Branch?
  {
    && SameLinks(h, g) && (forall i {:trigger g[i]} :: 0 <= i < |h| && i !in Ids(t) ==> g[i] == h[i])
    && (r == 0 || r < |h|) && (if Deep(t) then NoTree(g, r) else Shape(g, r, Headless(t)))
    && (t.left.Leaf? || t.right.Leaf? ==> g == h && r == if t.left.Leaf? then Root(t.right) else Root(t.left))
  }

  /** Only sizes on the way to v have changed. */
  ghost predicate Shrunk(h: Heap, g: Heap, t: Tree, v: Tree)
    requires t.Branch? && v.Branch?
  {
    && |g| == |h| && (forall i {:trigger g[i]} :: 0 <= i < |h| ==> g[i] == h[i].(size := g[i].size))
    && (forall i {:trigger g[i]} :: 0 <= i < |h| && i !in Ids(t.right) ==> g[i] == h[i])
    && (forall i {:trigger g[i]} :: 0 <= i < |h| && i in Ids(v) && i != v.id ==> g[i] == h[i])
  }

  /** What holds of the leftmost node of the right part. */
  lemma SpineFacts(h: Heap, t: Tree, v: Tree)
    requires Twice(t) && Shape(h, t.id, t) && Apart(t) && OnSpine(t.right.left, v) && v.Branch? && v.left.Leaf?
    ensures OnSpine(t.right, v) && v.id in Ids(t.right) && Ids(v) <= Ids(t.right) && Apart(v)
    ensures 0 < v.id < |h| && h[v.id].left == 0 && Shape(h, h[v.id].right, v.right) && 1 + Count(v.right) < Count(t)
    ensures t.id !in Ids(t.right) && t.right.id !in Ids(v) && v.id !in Ids(v.right) && v.id !in Ids(t.left)
    ensures 0 < t.id < |h| && 0 < h[t.id].left < |h| && h[t.id].right == t.right.id < |h| && h[v.id].right < |h|
    ensures h[t.id].left != t.id && h[t.id].left != v.id && h[v.id].right !in {t.id, v.id}
    ensures Shape(h, h[t.id].right, t.right) && Shape(h, h[t.id].left, t.left)
  {
    var r, u := t.right, t.right.left;
    assert Shape(h, h[t.id].right, r) && Shape(h, h[t.id].left, t.left);
    assert Shape(h, h[r.id].left, u);
    SpinePart(h, u, v);
    assert Ids(r) == Ids(u) + {r.id} + Ids(r.right) && v.id in Ids(v) && Ids(v) == Ids(v.right) + {v.id};
    assert Root(t.left) in Ids(t.left);
    assert v.right.Branch? ==> Root(v.right) in Ids(v.right);
    ShapeIds(h, h[v.id].right, v.right);
  }

  predicate SameNode(h: Heap, g: Heap, i: nat) {
    i < |h| == |g| && g[i] == h[i]
  }

  /** After swap_nodes(root, minimum). */
  ghost predicate Swapped(h: Heap, g: Heap, o: nat, n: nat) {
    && o < |h| && n < |h|
    && g == h[n := h[n].(left := h[o].left, right := h[o].right, size := 1 + SizeAt(h, h[o].left) + SizeAt(h, h[o].right))]
             [o := h[o].(left := h[n].left, right := h[n].right, size := 1 + SizeAt(h, h[n].left) + SizeAt(h, h[n].right))]
  }

  /** The root now stands alone above the right part of the leftmost node. */
  lemma SwappedOut(h: Heap, s: Heap, g: Heap, t: Tree, v: Tree)
    requires Twice(t) && Shape(h, t.id, t) && Apart(t) && OnSpine(t.right.left, v) && v.Branch? && v.left.Leaf?
    requires Shrunk(h, s, t, v) && SameNode(h, s, t.id) && Swapped(s, g, t.id, v.id)
    ensures Shape(g, t.id, Branch(Leaf, t.id, t.data, v.right)) && Apart(Branch(Leaf, t.id, t.data, v.right))
    ensures 1 + Count(v.right) < Count(t) && t.id in Ids(t) && SameLinks(h, g)
  {
    SpineFacts(h, t, v);
    var p := h[v.id].right;
    SizeIsCount(h, p, v.right);
    assert t.id in Ids(t) && t.id !in Ids(v.right) && v.id !in Ids(v.right) && Ids(v.right) <= Ids(v);
    assert Apart(Branch(Leaf, t.id, t.data, v.right));
    ShrunkKeeps(h, s, t, v);
    hide Ids, OnSpine, Twice, Apart, Shrunk;
    SwappedKeeps(s, g, t.id, v.id, p, v.right);
    SizeIsCount(s, p, v.right);
    NodeShape(g, t.id, Leaf, t.data, v.right);
  }

  lemma ShrunkKeeps(h: Heap, s: Heap, t: Tree, v: Tree)
    requires t.Branch? && v.Branch? && v.id < |h| && Shrunk(h, s, t, v) && v.id !in Ids(v.right) && Ids(v.right) <= Ids(v)
    requires Shape(h, h[v.id].right, v.right)
    ensures |s| == |h| && Shape(s, h[v.id].right, v.right) && s[v.id] == h[v.id].(size := s[v.id].size)
    ensures forall i {:trigger s[i]} :: 0 <= i < |h| ==> s[i] == h[i].(size := s[i].size)
  {
    ShapeFrame(h, s, h[v.id].right, v.right);
  }

  lemma SwappedKeeps(s: Heap, g: Heap, o: nat, n: nat, p: nat, u: Tree)
    requires Swapped(s, g, o, n) && Shape(s, p, u) && o !in Ids(u) && n !in Ids(u)
    ensures Shape(g, p, u)
  {
    ShapeFrame(s, g, p, u);
  }

  lemma RightFacts(h: Heap, root: nat, t: Tree)
    requires Shape(h, root, t) && Twice(t)
    ensures root == t.id < |h| && h[root].right == t.right.id < |h| && h[t.right.id].left == t.right.left.id
    ensures Shape(h, t.id, t)
  {
    assert Shape(h, h[root].right, t.right);
    assert Shape(h, h[t.right.id].left, t.right.left);
  }

  lemma Uprooted(h: Heap, s: Heap, g: Heap, f: Heap, t: Tree, v: Tree, parent: nat)
    requires Twice(t) && Shape(h, t.id, t) && Apart(t) && OnSpine(t.right.left, v) && v.Branch? && v.left.Leaf?
    requires Shrunk(h, s, t, v) && SameNode(h, s, t.id) && Swapped(s, g, t.id, v.id)
    requires parent < |h| && v.id < |h| && f == g[parent := g[parent].(left := h[v.id].right)]
    requires if Deep(t) then parent == v.id
             else parent == t.right.id && v == t.right.left && s == h[parent := h[parent].(size := h[parent].size - 1)]
    ensures Removed(h, f, t, v.id)
  {
    SpineFacts(h, t, v);
    assert t.id in Ids(t) && Ids(t.right) <= Ids(t) && t.right.id in Ids(t.right);
    if Deep(t) {
      DeepIsNoTree(h, f, t.right, v);
    } else {
      assert SizeAt(s, h[t.id].left) == Count(t.left) && SizeAt(s, t.right.id) == Count(t.right) - 1;
      LiftShape(h, f, t);
    }
  }

  /** delete_root calls itself when the successor is not the right child: the data is destroyed twice. */
  predicate Twice(t: Tree) {
    t.Branch? && t.left.Branch? && t.right.Branch? && t.right.left.Branch?
  }

  /** What h_tree_delete does to the search tree: it is right exactly where the node found is not
      deep. */
  ghost predicate Deletes(h: Heap, g: Heap, t: Tree, key: int, r: nat) {
    && |g| == |h| && (r == 0 || r < |h|)
    && (forall i {:trigger g[i]} :: 0 <= i < |h| && i !in Ids(t) ==>
          g[i] == h[i].(hNext := g[i].hNext, hChildren := g[i].hChildren))
    && (if Deep(Found(t, key)) then NoTree(g, r) else Shape(g, r, Deleted(t, key)))
  }

  lemma RootIn(t: Tree)
    ensures t.Branch? ==> Root(t) in Ids(t)
  {
  }

  /** root's pointer to one side is now q, and its size is updated. */
  ghost predicate Repointed(g: Heap, f: Heap, p: nat, left: bool, q: nat) {
    && p < |g|
    && var n := if left then g[p].(left := q) else g[p].(right := q);
       f == g[p := n.(size := 1 + SizeAt(g[p := n], n.left) + SizeAt(g[p := n], n.right))]
  }

  /** The node p with the tree u on one side and v on the other. */
  lemma RepointedShape(g: Heap, f: Heap, p: nat, left: bool, q: nat, u: Tree, v: Tree)
    requires Repointed(g, f, p, left, q) && 0 < p && Shape(g, q, u) && p !in Ids(u) && p !in Ids(v)
    requires Shape(g, if left then g[p].right else g[p].left, v)
    ensures Shape(f, p, if left then Branch(u, p, g[p].data, v) else Branch(v, p, g[p].data, u))
  {
    var o := if left then g[p].right else g[p].left;
    RootIn(v);
    RootIn(u);
    SizeIsCount(g, q, u);
    SizeIsCount(g, o, v);
    ShapeFrame(g, f, q, u);
    ShapeFrame(g, f, o, v);
  }

  /** Going up from the part of t in which the deletion took place. */
  lemma BelowDeleted(h: Heap, g: Heap, f: Heap, t: Tree, left: bool, key: int, q: nat)
    requires t.Branch? && Shape(h, t.id, t) && Apart(t) && (if left then t.data > key else t.data < key)
    requires Deletes(h, g, if left then t.left else t.right, key, q) && Repointed(g, f, t.id, left, q)
    ensures Deletes(h, f, t, key, t.id)
  {
    var u, v := if left then t.left else t.right, if left then t.right else t.left;
    var o := if left then h[t.id].right else h[t.id].left;
    assert Ids(t) == Ids(u) + {t.id} + Ids(v) && Found(t, key) == Found(u, key);
    if Deep(Found(u, key)) {
      NoTreeAbove(g, f, t.id, q);
    } else {
      DeletedIds(u, key);
      assert Shape(h, o, v);
      ShapeFrame(h, g, o, v);
      hide Shape, Found, Ids;
      RepointedShape(g, f, t.id, left, q, Deleted(u, key), v);
    }
  }

  /** What holds of one side of a node. */
  lemma SideFacts(h: Heap, root: nat, t: Tree, left: bool)
    requires Shape(h, root, t) && t.Branch? && Apart(t)
    ensures var u := if left then t.left else t.right;
            var v := if left then t.right else t.left;
            && root == t.id && 0 < root < |h| && Ids(t) == Ids(u) + {root} + Ids(v)
            && h[root].left < |h| && h[root].right < |h| && h[root].data == t.data
            && Shape(h, if left then h[root].left else h[root].right, u) && Apart(u) && Ids(u) <= Ids(t) && root !in Ids(u)
            && Shape(h, if left then h[root].right else h[root].left, v) && Ids(u) !! Ids(v) && root !in Ids(v)
  {
    ShapeIds(h, h[root].left, t.left);
    ShapeIds(h, h[root].right, t.right);
    RootIn(t.left);
    RootIn(t.right);
    SizeIsCount(h, h[root].left, t.left);
    SizeIsCount(h, h[root].right, t.right);
  }

  lemma SideFound(t: Tree, left: bool, key: int)
    requires t.Branch? && (if left then t.data > key else t.data < key)
    ensures Found(t, key) == Found(if left then t.left else t.right, key)
  {
  }

  /** The node above the part of the deletion is still where it was. */
  lemma StaysPut(h: Heap, g: Heap, u: Tree, key: int, q: nat, p: nat)
    requires Deletes(h, g, u, key, q) && p !in Ids(u) && p < |h| && h[p].left < |h| && h[p].right < |h|
    ensures |g| == |h| && (q == 0 || q < |g|) && g[p].left == h[p].left && g[p].right == h[p].right
  {
  }

  lemma SizeIsCount(h: Heap, p: nat, t: Tree)
    requires Shape(h, p, t)
    ensures SizeAt(h, p) == Count(t) && p == Root(t)
  {
  }

  lemma {:induction false} DeletedIds(t: Tree, key: int)
    requires Apart(t) && !Deep(Found(t, key))
    ensures Ids(Deleted(t, key)) == if Found(t, key).Leaf? then Ids(t) else Ids(t) - {Found(t, key).id}
    ensures Found(t, key).Branch? ==> Found(t, key).id in Ids(t)
    decreases t
  {
    if t.Branch? {
      if t.data < key { DeletedIds(t.right, key); }
      else if t.data > key { DeletedIds(t.left, key); }
      else { HeadlessIds(t); }
    }
  }

  /** What it does to the hierarchy. */
  ghost predicate Expels(h: Heap, g: Heap, live: set<nat>, kids: map<nat, seq<nat>>, f: Tree) {
    if f.Leaf? then SameLinks(h, g)
    else f.id < |h| && f.id in kids && HierBut(g, live - {f.id}, Expelled(kids, f.id, h[f.id].hParent), f.id, kids[f.id])
  }

  lemma ExpelsOn(h: Heap, g: Heap, f: Heap, live: set<nat>, kids: map<nat, seq<nat>>, d: Tree)
    requires Expels(h, g, live, kids, d) && SameLinks(g, f) && |g| == |h|
    ensures Expels(h, f, live, kids, d)
  {
    if d.Branch? { HierButFrame(g, f, live - {d.id}, Expelled(kids, d.id, h[d.id].hParent), d.id, kids[d.id]); }
  }

  /** The calls of data_destroy. */
  function Destroys(f: Tree): seq<int> {
    if f.Leaf? then [] else if Twice(f) then [f.data, f.data] else [f.data]
  }

  lemma SideInserted(t: Tree, left: bool, data: int, n: nat)
    requires t.Branch? && (if left then data < t.data else data > t.data)
    ensures var u := Inserted(if left then t.left else t.right, data, n);
            Inserted(t, data, n) == if left then Branch(u, t.id, t.data, t.right) else Branch(t.left, t.id, t.data, u)
  {
  }

  class HTree {
    const nodes: array<Node>
    var top: nat                  // the next node that malloc hands out
    ghost var destroyed: seq<int> // the calls of data_destroy

    ghost predicate Room()
      reads this
    {
      0 < top <= nodes.Length
    }

    constructor (capacity: nat)
      ensures fresh(nodes) && nodes.Length == capacity + 1 && top == 1 && destroyed == []
      ensures Sound(nodes[..], top, 0, Leaf, map[])
    {
      nodes := new Node[capacity + 1](_ => Node(0, 0, 0, 0, 0, 0, 0));
      top, destroyed := 1, [];
    }

    /** h_tree_size: also of NULL. */
    method SizeOf(p: nat, ghost t: Tree) returns (n: int)
      requires Shape(nodes[..], p, t)
      ensures n == Count(t)
    {
      if p == 0 { return 0; }
      return nodes[p].size;
    }

    method UpdateSize(p: nat, ghost l: Tree, ghost r: Tree)
      requires 0 < p < nodes.Length && Shape(nodes[..], nodes[p].left, l) && Shape(nodes[..], nodes[p].right, r)
      modifies nodes
      ensures nodes[..] == old(nodes[..])[p := old(nodes[p]).(size := 1 + Count(l) + Count(r))]
    {
      var a := SizeOf(nodes[p].left, l);
      var b := SizeOf(nodes[p].right, r);
      nodes[p] := nodes[p].(size := 1 + a + b);
    }

    /** h_tree_search. */
    method Search(root: nat, key: int, ghost t: Tree) returns (p: nat)
      requires Shape(nodes[..], root, t)
      ensures p == Find(t, key)
      ensures p != 0 ==> p < nodes.Length && nodes[p].data == key && (key, p) in InOrder(t)
      decreases t
    {
      if root == 0 { return 0; }
      ShapeIds(nodes[..], root, t);
      if Find(t, key) != 0 { FoundIsThere(t, key); }
      if nodes[root].data < key { p := Search(nodes[root].right, key, t.right); return; }
      if nodes[root].data > key { p := Search(nodes[root].left, key, t.left); return; }
      return root;
    }

    /** h_node_init. */
    method NodeInit(data: int, hParent: nat) returns (n: nat)
      requires Room() && top < nodes.Length && hParent < top
      modifies nodes, this`top
      ensures n == old(top) && top == old(top) + 1 && Adds(old(nodes[..]), nodes[..], n, hParent)
      ensures nodes[n].data == data && nodes[n].left == 0 && nodes[n].right == 0 && nodes[n].size == 1
      ensures forall i :: 0 <= i < nodes.Length && i != n ==> nodes[i] == old(nodes[i]).(hChildren := nodes[i].hChildren)
    {
      n := top;
      top := top + 1;
      var sibling := 0;
      if hParent != 0 {
        sibling := nodes[hParent].hChildren;
        nodes[hParent] := nodes[hParent].(hChildren := n);
      }
      nodes[n] := Node(data, 0, 0, hParent, sibling, 0, 1);
    }

    /** h_tree_insert from root on. */
    method Insert(root: nat, data: int, hParent: nat, ghost t: Tree) returns (r: nat)
      requires Room() && top < nodes.Length && hParent < top
      requires Shape(nodes[..], root, t) && Apart(t) && forall i :: i in Ids(t) ==> i < top
      modifies nodes, this`top
      ensures Shape(nodes[..], r, Inserted(t, data, old(top)))
      ensures Grown(old(nodes[..]), nodes[..], t, data, old(top), hParent)
      ensures top == if Inserted(t, data, old(top)) != t then old(top) + 1 else old(top)
      decreases t, 1
    {
      if root == 0 {
        r := NodeInit(data, hParent);
        return;
      }
      r := root;
      ghost var n, h := top, nodes[..];
      if data > nodes[root].data {
        InsertBelow(root, false, data, hParent, t);
      } else if data < nodes[root].data {
        InsertBelow(root, true, data, hParent, t);
      } else {
        ShapeIds(h, root, t);
        UpdateSize(root, t.left, t.right);
        ShapeFrame(h, nodes[..], root, t);
      }
    }

    /** root->left = h_tree_insert(root->left, ...), or the same on the right. */
    method InsertBelow(root: nat, left: bool, data: int, hParent: nat, ghost t: Tree)
      requires Room() && top < nodes.Length && hParent < top
      requires Shape(nodes[..], root, t) && t.Branch? && (if left then data < t.data else data > t.data)
      requires Apart(t) && forall i :: i in Ids(t) ==> i < top
      modifies nodes, this`top
      ensures Shape(nodes[..], root, Inserted(t, data, old(top)))
      ensures Grown(old(nodes[..]), nodes[..], t, data, old(top), hParent)
      ensures top == if Inserted(t, data, old(top)) != t then old(top) + 1 else old(top)
      decreases t, 0
    {
      ghost var n, h := top, nodes[..];
      ghost var u, v := if left then t.left else t.right, if left then t.right else t.left;
      SideFacts(h, root, t, left);
      SideInserted(t, left, data, n);
      var p := if left then nodes[root].left else nodes[root].right;
      ghost var o := if left then nodes[root].right else nodes[root].left;
      hide Ids, Adds, Shape, Apart, Inserted;
      var q := Insert(p, data, hParent, u);
      InsertedIds(u, data, n);
      ghost var g := nodes[..];
      ShapeIds(h, o, v);
      ShapeFrame(h, g, o, v);
      Attach(root, q, left, if left then Inserted(u, data, n) else v, if left then v else Inserted(u, data, n));
      GrownOn(h, g, nodes[..], t, u, data, n, hParent);
    }

    /** root->left = q or root->right = q, and update_size(root). */
    method Attach(root: nat, q: nat, left: bool, ghost l: Tree, ghost r: Tree)
      requires 0 < root < nodes.Length && root !in Ids(l) && root !in Ids(r)
      requires Shape(nodes[..], if left then q else nodes[root].left, l)
      requires Shape(nodes[..], if left then nodes[root].right else q, r)
      modifies nodes
      ensures Shape(nodes[..], root, Branch(l, root, old(nodes[root]).data, r))
      ensures forall i :: 0 <= i < nodes.Length && i != root ==> nodes[i] == old(nodes[i])
      ensures SameLinks(old(nodes[..]), nodes[..])
    {
      ghost var h := nodes[..];
      nodes[root] := if left then nodes[root].(left := q) else nodes[root].(right := q);
      ghost var g := nodes[..];
      ShapeFrame(h, g, nodes[root].left, l);
      ShapeFrame(h, g, nodes[root].right, r);
      UpdateSize(root, l, r);
      ShapeFrame(g, nodes[..], nodes[root].left, l);
      ShapeFrame(g, nodes[..], nodes[root].right, r);
    }

    /** update_size on any pointers. */
    method Resize(p: nat)
      requires 0 < p < nodes.Length && nodes[p].left < nodes.Length && nodes[p].right < nodes.Length
      modifies nodes
      ensures nodes[..] == old(nodes[..])[p := old(nodes[p]).(size := 1 + SizeAt(old(nodes[..]), old(nodes[p]).left)
                                                                     + SizeAt(old(nodes[..]), old(nodes[p]).right))]
    {
      var a, b := 0, 0;
      if nodes[p].left != 0 { a := nodes[nodes[p].left].size; }
      if nodes[p].right != 0 { b := nodes[nodes[p].right].size; }
      nodes[p] := nodes[p].(size := 1 + a + b);
    }

    /** swap_nodes: the two change places in the search tree. */
    method SwapNodes(o: nat, n: nat)
      requires 0 < o < nodes.Length && 0 < n < nodes.Length && o != n
      requires nodes[o].left < nodes.Length && nodes[o].right < nodes.Length
      requires nodes[n].left < nodes.Length && nodes[n].right < nodes.Length
      requires o !in {nodes[o].left, nodes[o].right, nodes[n].left, nodes[n].right}
      requires n !in {nodes[o].left, nodes[o].right, nodes[n].left, nodes[n].right}
      modifies nodes
      ensures var h := old(nodes[..]);
              nodes[..] == h[n := h[n].(left := h[o].left, right := h[o].right, size := 1 + SizeAt(h, h[o].left) + SizeAt(h, h[o].right))]
                            [o := h[o].(left := h[n].left, right := h[n].right, size := 1 + SizeAt(h, h[n].left) + SizeAt(h, h[n].right))]
    {
      var l, r := nodes[o].left, nodes[o].right;
      nodes[o] := nodes[o].(left := nodes[n].left);
      nodes[o] := nodes[o].(right := nodes[n].right);
      nodes[n] := nodes[n].(left := l);
      nodes[n] := nodes[n].(right := r);
      Resize(n);
      Resize(o);
    }

    /** The loop of delete_root. It sets parent to minimum itself. v is the tree at minimum. */
    method Leftmost(start: nat, above: nat, ghost h: Heap, ghost t: Tree) returns (minimum: nat, parent: nat, ghost v: Tree)
      requires Twice(t) && Shape(h, t.id, t) && Apart(t) && start == t.right.left.id && above == t.right.id
      requires |h| == nodes.Length && above < |h| && nodes[..] == h[above := h[above].(size := h[above].size - 1)]
      modifies nodes
      ensures v.Branch? && minimum == v.id && v.left.Leaf? && OnSpine(t.right.left, v)
      ensures Shrunk(h, nodes[..], t, v)
      ensures if Deep(t) then parent == minimum else parent == above && v == t.right.left && nodes[..] == old(nodes[..])
    {
      minimum, parent, v := start, above, t.right.left;
      ghost var u, moved := t.right.left, false;
      assert Shape(h, h[t.id].right, t.right);
      assert Shape(h, h[above].left, u) && Ids(t.right) == Ids(u) + {above} + Ids(t.right.right);
      while nodes[minimum].left != 0
        invariant v.Branch? && minimum == v.id && 0 < minimum < nodes.Length && OnSpine(u, v) && Shrunk(h, nodes[..], t, v)
        invariant if moved then parent == minimum && u.left.Branch? else parent == above && v == u && nodes[..] == old(nodes[..])
        decreases v
      {
        SpinePart(h, u, v);
        minimum := nodes[minimum].left;
        parent := minimum;
        ghost var w := v.left;
        assert w.Branch? && w.id == minimum && Ids(v) == Ids(w) + {v.id} + Ids(v.right);
        SpinePart(h, u, w);
        nodes[parent] := nodes[parent].(size := nodes[parent].size - 1);
        v, moved := w, true;
      }
      SpinePart(h, u, v);
    }

    /** delete_root. In the deep case the pointers form no tree any more. */
    method DeleteRoot(root: nat, ghost t: Tree) returns (r: nat)
      requires Shape(nodes[..], root, t) && t.Branch? && Apart(t)
      modifies nodes, this`destroyed
      ensures Removed(old(nodes[..]), nodes[..], t, r)
      ensures destroyed == old(destroyed) + [t.data] +
                if t.left.Branch? && t.right.Branch? && t.right.left.Branch? then [t.data] else []
      decreases Count(t), 1
    {
      ghost var h := nodes[..];
      destroyed := destroyed + [nodes[root].data];
      if nodes[root].left == 0 || nodes[root].right == 0 {
        return if nodes[root].left == 0 then nodes[root].right else nodes[root].left;
      }
      assert Shape(h, h[root].right, t.right) && Shape(h, h[root].left, t.left);
      var parent := nodes[root].right;
      assert parent == t.right.id && t.right.id in Ids(t.right);
      assert Shape(h, h[parent].left, t.right.left) && Shape(h, h[parent].right, t.right.right);
      if nodes[parent].left == 0 {
        Attach(parent, nodes[root].left, true, t.left, t.right.right);
        return parent;
      }
      r := Uproot(root, t);
    }

    /** delete_root when the successor is not the right child. */
    method Uproot(root: nat, ghost t: Tree) returns (minimum: nat)
      requires Shape(nodes[..], root, t) && Twice(t) && Apart(t)
      modifies nodes, this`destroyed
      ensures Removed(old(nodes[..]), nodes[..], t, minimum)
      ensures destroyed == old(destroyed) + [t.data]
      decreases Count(t), 0
    {
      ghost var h := nodes[..];
      var parent;
      ghost var s, v;
      minimum, parent, s, v := Exchange(root, t);
      ghost var g := nodes[..];
      SwappedOut(h, s, g, t, v);
      hide Shape, Apart, Ids, OnSpine, Shrunk, Swapped, Deep;
      ghost var small := Branch(Leaf, t.id, t.data, v.right);
      assert Count(small) == 1 + Count(v.right);
      var q := DeleteRoot(root, small);
      nodes[parent] := nodes[parent].(left := q);
      Uprooted(h, s, g, nodes[..], t, v, parent);
    }

    /** The part of delete_root up to swap_nodes. */
    method Exchange(root: nat, ghost t: Tree) returns (minimum: nat, parent: nat, ghost s: Heap, ghost v: Tree)
      requires Shape(nodes[..], root, t) && Twice(t) && Apart(t)
      modifies nodes
      ensures v.Branch? && v.left.Leaf? && OnSpine(t.right.left, v) && minimum == v.id < nodes.Length && parent < nodes.Length
      ensures root == t.id && v.id < |old(nodes[..])| && old(nodes[..])[v.id].right == Root(v.right)
      ensures Shrunk(old(nodes[..]), s, t, v) && SameNode(old(nodes[..]), s, t.id) && Swapped(s, nodes[..], t.id, v.id)
      ensures Deep(t) ==> parent == v.id
      ensures !Deep(t) ==>
                && parent == t.right.id && parent < |s| == nodes.Length && v == t.right.left
                && s == old(nodes[..])[parent := old(nodes[..])[parent].(size := old(nodes[..])[parent].size - 1)]
    {
      ghost var h := nodes[..];
      RightFacts(h, root, t);
      hide Shape, Apart, Ids;
      parent := nodes[root].right;
      minimum := nodes[parent].left;
      nodes[parent] := nodes[parent].(size := nodes[parent].size - 1);
      minimum, parent, v := Leftmost(minimum, parent, h, t);
      SpineFacts(h, t, v);
      s := nodes[..];
      SizeIsCount(h, h[v.id].right, v.right);
      SwapNodes(root, minimum);
    }

    /** remove_child_from_h. */
    method RemoveChild(c: nat, ghost live: set<nat>, ghost kids: map<nat, seq<nat>>)
      requires Hier(nodes[..], live, kids) && c in live
      modifies nodes
      ensures RemovesChild(old(nodes[..]), nodes[..], kids, c)
      ensures forall i :: 0 <= i < nodes.Length ==>
                nodes[i] == old(nodes[i]).(hNext := nodes[i].hNext, hChildren := nodes[i].hChildren)
    {
      ghost var h := nodes[..];
      assert ParentAt(h, live, kids, c);
      var p := nodes[c].hParent;
      if p == 0 { return; }
      ghost var q := kids[p];
      assert KidsAt(h, live, kids, p);
      var it := nodes[p].hChildren;
      if it == 0 { return; }
      ghost var k: nat :| k < |q| && q[k] == c;
      ListAt(h, it, q, k);
      if it == c {
        nodes[p] := nodes[p].(hChildren := nodes[c].hNext);
        assert Unlinks(h, nodes[..], c, q, 0);
        return;
      }
      ghost var j: nat := 0;
      while nodes[it].hNext != c && nodes[it].hNext != 0
        invariant j < k && it == q[j] && 0 < it < nodes.Length && nodes[..] == h
        decreases k - j
      {
        ListAt(h, q[0], q, j);
        ListAt(h, q[0], q, j + 1);
        it := nodes[it].hNext;
        j := j + 1;
      }
      ListAt(h, q[0], q, j);
      ListAt(h, q[0], q, j + 1);
      assert j + 1 == k;
      nodes[it] := nodes[it].(hNext := nodes[c].hNext);
      assert Unlinks(h, nodes[..], c, q, k);
    }

    /** h_tree_delete from root on. live and kids describe the whole hierarchy; children of the node
        deleted keep naming it as their parent. */
    method Delete(root: nat, key: int, ghost t: Tree, ghost live: set<nat>, ghost kids: map<nat, seq<nat>>) returns (r: nat)
      requires Shape(nodes[..], root, t) && Apart(t) && Ids(t) <= live && Hier(nodes[..], live, kids)
      modifies nodes, this`destroyed
      ensures Deletes(old(nodes[..]), nodes[..], t, key, r)
      ensures Expels(old(nodes[..]), nodes[..], live, kids, Found(t, key))
      ensures destroyed == old(destroyed) + Destroys(Found(t, key))
      decreases t, 1
    {
      if root == 0 { return root; }
      ghost var h := nodes[..];
      ShapeIds(h, root, t);
      if nodes[root].data == key {
        assert root in Ids(t);
        RemoveChild(root, live, kids);
        ghost var g := nodes[..];
        ShapeFrame(h, g, root, t);
        RemovesKeeps(h, g, live, kids, root);
        r := DeleteRoot(root, t);
        HierButFrame(g, nodes[..], live - {root}, Expelled(kids, root, h[root].hParent), root, kids[root]);
      } else if nodes[root].data < key {
        DeleteBelow(root, false, key, t, live, kids);
        r := root;
      } else {
        DeleteBelow(root, true, key, t, live, kids);
        r := root;
      }
    }

    /** root->left = q or root->right = q on any pointers, and update_size(root). */
    method Repoint(root: nat, left: bool, q: nat)
      requires 0 < root < nodes.Length && q < nodes.Length
      requires nodes[root].left < nodes.Length && nodes[root].right < nodes.Length
      modifies nodes
      ensures Repointed(old(nodes[..]), nodes[..], root, left, q) && SameLinks(old(nodes[..]), nodes[..])
    {
      ghost var g := nodes[..];
      nodes[root] := if left then nodes[root].(left := q) else nodes[root].(right := q);
      assert nodes[..] == g[root := if left then g[root].(left := q) else g[root].(right := q)];
      Resize(root);
    }

    /** root->left = h_tree_delete(root->left, ...) or the same on the right, and update_size(root). */
    method DeleteBelow(root: nat, left: bool, key: int, ghost t: Tree, ghost live: set<nat>, ghost kids: map<nat, seq<nat>>)
      requires Shape(nodes[..], root, t) && t.Branch? && (if left then t.data > key else t.data < key)
      requires Apart(t) && Ids(t) <= live && Hier(nodes[..], live, kids)
      modifies nodes, this`destroyed
      ensures Deletes(old(nodes[..]), nodes[..], t, key, root)
      ensures Expels(old(nodes[..]), nodes[..], live, kids, Found(t, key))
      ensures destroyed == old(destroyed) + Destroys(Found(t, key))
      decreases t, 0
    {
      ghost var h := nodes[..];
      ghost var u := if left then t.left else t.right;
      SideFacts(h, root, t, left);
      SideFound(t, left, key);
      hide Hier, Expels, Deletes, Shape, Apart, Ids, Found, Repointed, SameLinks, Deep, Destroys;
      var q := Delete(if left then nodes[root].left else nodes[root].right, key, u, live, kids);
      ghost var g := nodes[..];
      StaysPut(h, g, u, key, q, root);
      Repoint(root, left, q);
      BelowDeleted(h, g, nodes[..], t, left, key, q);
      ExpelsOn(h, g, nodes[..], live, kids, Found(t, key));
    }

    /** h_tree_insert on a whole tree with its hierarchy. */
    method InsertEntry(root: nat, data: int, hParent: nat, ghost t: Tree, ghost kids: map<nat, seq<nat>>)
      returns (r: nat, ghost u: Tree, ghost kids': map<nat, seq<nat>>)
      requires Sound(nodes[..], top, root, t, kids) && top < nodes.Length && (hParent == 0 || hParent in Ids(t))
      modifies nodes, this`top
      ensures Sound(nodes[..], top, r, u, kids') && u == Inserted(t, data, old(top))
      ensures kids' == if u == t then kids
                       else if hParent == 0 then kids[old(top) := []]
                       else kids[hParent := [old(top)] + kids[hParent]][old(top) := []]
      ensures top == if u == t then old(top) else old(top) + 1
    {
      ghost var h, n := nodes[..], top;
      r := Insert(root, data, hParent, t);
      u := Inserted(t, data, n);
      kids' := if u == t then kids else WithKid(kids, n, hParent);
      InsertKeepsSound(h, nodes[..], n, root, r, t, kids, data, hParent);
    }

    /** h_tree_delete on a whole tree with its hierarchy: what is left is a tree exactly when the
        node found is not deep; then both structures hold without it exactly when it had no children
        in the hierarchy, which otherwise keep naming it. */
    method DeleteEntry(root: nat, key: int, ghost t: Tree, ghost kids: map<nat, seq<nat>>)
      returns (r: nat, ghost u: Tree, ghost kids': map<nat, seq<nat>>)
      requires Sound(nodes[..], top, root, t, kids)
      modifies nodes, this`destroyed
      ensures NoTree(nodes[..], r) <==> Deep(Found(t, key))
      ensures !Deep(Found(t, key)) ==> u == Deleted(t, key) && Searchable(nodes[..], top, r, u)
      ensures !Deep(Found(t, key)) ==> Sound(nodes[..], top, r, u, kids') == HasNoKids(kids, Found(t, key))
      ensures !HasNoKids(kids, Found(t, key)) ==> forall k: map<nat, seq<nat>> :: !Hier(nodes[..], Ids(t) - {Found(t, key).id}, k)
      ensures Expels(old(nodes[..]), nodes[..], Ids(t), kids, Found(t, key))
      ensures Found(t, key).Branch? ==>
                && Found(t, key).id < |old(nodes[..])|
                && kids' == Expelled(kids, Found(t, key).id, old(nodes[..])[Found(t, key).id].hParent)
      ensures Found(t, key).Leaf? ==> kids' == kids
      ensures destroyed == old(destroyed) + Destroys(Found(t, key))
    {
      ghost var h, f := nodes[..], Found(t, key);
      hide Shape, Deletes, Hier, HierBut, Apart, Ordered;
      assert Apart(t) && Hier(h, Ids(t), kids);
      r := Delete(root, key, t, Ids(t), kids);
      TreeIff(h, nodes[..], t, key, r);
      kids' := if f.Leaf? then kids else Expelled(kids, f.id, h[f.id].hParent);
      u := if Deep(f) then t else Deleted(t, key);
      if !Deep(f) { DeleteKeepsSound(h, nodes[..], top, root, r, t, kids, key); }
      if f.Branch? { HierIff(nodes[..], Ids(t) - {f.id}, kids', f.id, kids[f.id]); }
    }

    /** h_tree_flatten_preorder fills exactly as many slots as the tree has nodes. */
    method FlattenPreorder(root: nat, out: array<int>, at: nat, ghost t: Tree)
      requires Shape(nodes[..], root, t) && at + Count(t) <= out.Length
      modifies out
      ensures out[..] == Filled(old(out[..]), at, PreOrder(t))
      ensures t.Branch? ==> out[at] == nodes[root].data
      ensures t.Branch? && Ordered(t) ==>
                && (forall k :: at < k <= at + Count(t.left) ==> out[k] < nodes[root].data)
                && (forall k :: at + Count(t.left) < k < at + Count(t) ==> out[k] > nodes[root].data)
      ensures forall k :: 0 <= k < out.Length && !(at <= k < at + Count(t)) ==> out[k] == old(out[k])
      decreases t
    {
      hide Filled, PreOrder, Ordered;
      ghost var s := out[..];
      if root != 0 {
        out[at] := nodes[root].data;
        FlattenPreorder(nodes[root].left, out, at + 1, t.left);
        var n := SizeOf(nodes[root].left, t.left);
        FlattenPreorder(nodes[root].right, out, at + 1 + n, t.right);
        FilledThrice(s, at, t.data, PreOrder(t.left), PreOrder(t.right));
      }
      FilledSlots(s, out[..], at, t);
    }

    /** h_tree_flatten_h_children: the data of the children, then NULL. */
    method FlattenChildren(root: nat, out: array<(bool, int)>, ghost q: seq<nat>)
      requires 0 < root < nodes.Length && List(nodes[..], nodes[root].hChildren, q) && |q| < out.Length
      modifies out
      ensures forall k :: 0 <= k < |q| ==> q[k] < nodes.Length && out[k] == (true, nodes[q[k]].data)
      ensures out[|q|] == (false, 0) && forall k :: |q| < k < out.Length ==> out[k] == old(out[k])
    {
      var c := nodes[root].hChildren;
      var k := 0;
      while c != 0
        invariant k <= |q| && List(nodes[..], c, q[k..])
        invariant forall j :: 0 <= j < k ==> q[j] < nodes.Length && out[j] == (true, nodes[q[j]].data)
        invariant forall j :: k <= j < out.Length ==> out[j] == old(out[j])
        decreases |q| - k
      {
        assert q[k..][0] == q[k] && q[k..][1..] == q[k + 1..];
        out[k] := (true, nodes[c].data);
        c := nodes[c].hNext;
        k := k + 1;
      }
      out[k] := (false, 0);
    }
  }

  // ---- every sequence of operations -------------------------------------------------------------

  /** The two structures in one heap: a search tree of distinct nodes with exact sizes, whose nodes
      carry a hierarchy in which each node's list of children is kids. */
  ghost predicate Sound(h: Heap, top: nat, root: nat, t: Tree, kids: map<nat, seq<nat>>) {
    Searchable(h, top, root, t) && Hier(h, Ids(t), kids)
  }

  ghost predicate Searchable(h: Heap, top: nat, root: nat, t: Tree) {
    && Shape(h, root, t) && Apart(t) && Ordered(t) && 0 < top <= |h|
    && forall i :: i in Ids(t) ==> 0 < i < top
  }

  ghost predicate HasNoKids(kids: map<nat, seq<nat>>, f: Tree) {
    f.Branch? ==> f.id in kids && kids[f.id] == []
  }

  /** h_tree_insert keeps both; the new node becomes the first child of its parent. */
  lemma InsertKeepsSound(h: Heap, g: Heap, top: nat, root: nat, r: nat, t: Tree, kids: map<nat, seq<nat>>, data: int, hParent: nat)
    requires Sound(h, top, root, t, kids) && (hParent == 0 || hParent in Ids(t)) && top < |h|
    requires Shape(g, r, Inserted(t, data, top)) && Grown(h, g, t, data, top, hParent)
    ensures var u := Inserted(t, data, top);
            if u == t then Sound(g, top, r, t, kids) else Sound(g, top + 1, r, u, WithKid(kids, top, hParent))
  {
    hide Shape;
    InsertedIds(t, data, top);
    InsertedOrdered(t, data, top, 0);
    if Inserted(t, data, top) != t {
      AddsKeeps(h, g, Ids(t), kids, top, hParent);
    } else {
      HierFrame(h, g, Ids(t), kids);
    }
  }

  lemma TreeIff(h: Heap, g: Heap, t: Tree, key: int, r: nat)
    requires Deletes(h, g, t, key, r)
    ensures NoTree(g, r) <==> Deep(Found(t, key))
  {
    if Deep(Found(t, key)) {
      assert NoTree(g, r);
    } else {
      assert Shape(g, r, Deleted(t, key));
    }
  }

  lemma DeleteKeepsSound(h: Heap, g: Heap, top: nat, root: nat, r: nat, t: Tree, kids: map<nat, seq<nat>>, key: int)
    requires Sound(h, top, root, t, kids) && Deletes(h, g, t, key, r) && Expels(h, g, Ids(t), kids, Found(t, key))
    requires !Deep(Found(t, key))
    ensures Searchable(g, top, r, Deleted(t, key))
    ensures var f := Found(t, key);
            Sound(g, top, r, Deleted(t, key), if f.Leaf? || f.id >= |h| then kids else Expelled(kids, f.id, h[f.id].hParent))
            == HasNoKids(kids, f)
  {
    hide Shape;
    DeletedIds(t, key);
    DeletedOrdered(t, key, 0);
    var f := Found(t, key);
    if f.Leaf? {
      HierFrame(h, g, Ids(t), kids);
    } else {
      HierIff(g, Ids(t) - {f.id}, Expelled(kids, f.id, h[f.id].hParent), f.id, kids[f.id]);
    }
  }

  const KEYS: seq<int> := [2, 1, 5, 4, 3]

  /** The tree after n of these five insertions into an empty one. */
  function Grow(n: nat): Tree
    requires n <= 5
  {
    if n == 0 then Leaf else Inserted(Grow(n - 1), KEYS[n - 1], n)
  }

  lemma GrownTree()
    ensures var t := Grow(5);
            t == Branch(Branch(Leaf, 2, 1, Leaf), 1, 2, Branch(Branch(Branch(Leaf, 5, 3, Leaf), 4, 4, Leaf), 3, 5, Leaf))
  {
    assert Grow(1) == Branch(Leaf, 1, 2, Leaf);
    assert Grow(2) == Branch(Branch(Leaf, 2, 1, Leaf), 1, 2, Leaf);
    assert Grow(3) == Branch(Branch(Leaf, 2, 1, Leaf), 1, 2, Branch(Leaf, 3, 5, Leaf));
    assert Grow(4) == Branch(Branch(Leaf, 2, 1, Leaf), 1, 2, Branch(Branch(Leaf, 4, 4, Leaf), 3, 5, Leaf));
  }

  lemma {:induction false} GrowIds(n: nat)
    requires n <= 5
    ensures forall i: nat :: i in Ids(Grow(n)) ==> 1 <= i <= n
  {
    if n > 0 {
      GrowIds(n - 1);
      InsertedIds(Grow(n - 1), KEYS[n - 1], n);
    }
  }

  /** A heap that five insertions build. */
  method FiveEntries() returns (h: HTree, root: nat, ghost kids: map<nat, seq<nat>>)
    ensures fresh(h) && fresh(h.nodes) && Sound(h.nodes[..], h.top, root, Grow(5), kids)
  {
    h := new HTree(5);
    root, kids := 0, map[];
    ghost var t := Grow(0);
    var n := 0;
    hide Sound, Inserted, WithKid;
    while n < 5
      invariant n <= 5 && h.top <= n + 1 && h.nodes.Length == 6 && fresh(h) && fresh(h.nodes)
      invariant t == Grow(n) && h.top == n + 1 && Sound(h.nodes[..], h.top, root, t, kids)
    {
      root, t, kids := h.InsertEntry(root, KEYS[n], 0, t, kids);
      GrowsOn(n);
      n := n + 1;
    }
  }

  lemma GrowsOn(n: nat)
    requires n < 5
    ensures Grow(n + 1) != Grow(n)
  {
    GrowIds(n);
    GrownIds(n + 1);
  }

  lemma GrownIds(n: nat)
    requires 0 < n <= 5
    ensures n in Ids(Grow(n))
  {
    GrownTree();
  }

  /** From such a heap the deletion of the root, a deep node, leaves no tree. */
  method DeletionLosesTheTree(h: HTree, root: nat, ghost kids: map<nat, seq<nat>>) returns (r: nat)
    requires Sound(h.nodes[..], h.top, root, Grow(5), kids)
    modifies h.nodes, h`destroyed
    ensures Found(Grow(5), 2) == Grow(5) && Deep(Grow(5)) && NoTree(h.nodes[..], r)
  {
    GrownTree();
    hide Sound, Grow, NoTree;
    ghost var u, left;
    r, u, left := h.DeleteEntry(root, 2, Grow(5), kids);
  }

  /** s with q written over it from at on. */
  function Filled(s: seq<int>, at: nat, q: seq<int>): seq<int>
    requires at + |q| <= |s|
  {
    s[..at] + q + s[at + |q|..]
  }

  lemma FilledSlots(s: seq<int>, o: seq<int>, at: nat, t: Tree)
    requires at + Count(t) <= |s| == |o|
    requires if t.Leaf? then o == s else o == Filled(s, at, [t.data] + PreOrder(t.left) + PreOrder(t.right))
    ensures o == Filled(s, at, PreOrder(t)) && (t.Branch? ==> o[at] == t.data)
    ensures t.Branch? && Ordered(t) ==>
              && (forall k :: at < k <= at + Count(t.left) ==> o[k] < t.data)
              && (forall k :: at + Count(t.left) < k < at + Count(t) ==> o[k] > t.data)
    ensures forall k :: 0 <= k < |s| && !(at <= k < at + Count(t)) ==> o[k] == s[k]
  {
    PreOrderOf(t);
    FilledAt(s, at, PreOrder(t));
    hide PreOrder, Filled;
    if t.Branch? {
      assert o[at] == PreOrder(t)[0];
      if Ordered(t) { FilledSides(s, o, at, t); }
    }
  }

  lemma PreOrderOf(t: Tree)
    ensures if t.Leaf? then PreOrder(t) == [] else PreOrder(t) == [t.data] + PreOrder(t.left) + PreOrder(t.right)
  {
  }

  lemma FilledAt(s: seq<int>, at: nat, q: seq<int>)
    requires at + |q| <= |s|
    ensures var o := Filled(s, at, q);
            && |o| == |s| && (q == [] ==> o == s)
            && forall k :: 0 <= k < |s| ==> o[k] == if at <= k < at + |q| then q[k - at] else s[k]
  {
  }

  lemma FilledSides(s: seq<int>, o: seq<int>, at: nat, t: Tree)
    requires at + Count(t) <= |s| == |o| && t.Branch? && Ordered(t)
    requires forall k :: 0 <= k < |s| ==> o[k] == if at <= k < at + Count(t) then PreOrder(t)[k - at] else s[k]
    ensures forall k :: at < k <= at + Count(t.left) ==> o[k] < t.data
    ensures forall k :: at + Count(t.left) < k < at + Count(t) ==> o[k] > t.data
  {
    PreOrderSlots(t);
    hide PreOrder, Ordered;
    var n := Count(t.left);
    assert Count(t) == 1 + n + Count(t.right);
  }

  lemma FilledThrice(s: seq<int>, at: nat, d: int, a: seq<int>, b: seq<int>)
    requires at + 1 + |a| + |b| <= |s|
    ensures Filled(Filled(s[at := d], at + 1, a), at + 1 + |a|, b) == Filled(s, at, [d] + a + b)
  {
    var u := Filled(s[at := d], at + 1, a);
    assert u[..at + 1 + |a|] == s[..at] + [d] + a;
    assert u[at + 1 + |a| + |b|..] == s[at + 1 + |a| + |b|..];
  }
}
