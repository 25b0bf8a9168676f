/**
 Cluster chains in one file allocation table, on values: following links, freeing what is
 reachable, and the invariant that the chains of all files share the table without meeting.
 The table has the two reserved entries and one entry for each data cluster.
 */
module FatChains {

  const EOC: nat := 0x0FFF_FFF8    // FAT_CLUSTER_END_OF_CHAIN
  const EOC2: nat := 0x0FFF_FFFF   // FAT_CLUSTER_END_OF_CHAIN2
  const FREE: nat := 0

  type Fat = t: seq<nat> | 2 <= |t| < EOC witness [0, 0]

  predicate ValidCluster(t: Fat, c: nat) {
    2 <= c < |t|
  }

  predicate IsEOC(c: nat) {
    c == EOC || c == EOC2
  }

  /** fat_table_get_next_cluster: whatever is out of range counts as the end of the chain. */
  function Next(t: Fat, c: nat): (n: nat)
    requires c < |t|
    ensures n == EOC || ValidCluster(t, n)
  {
    if ValidCluster(t, t[c]) then t[c] else EOC
  }

  // ---- freeing from a cluster on ----------------------------------------------------------------

  /** The entries still in use. */
  function Used(t: Fat): set<nat> {
    set c: nat | c < |t| && t[c] != FREE
  }

  /** The clusters that the freeing loop visits from c on, in order, as it frees them. The second
      visit of a cluster, on a cyclic table, finds it free and is the last. */
  function Trail(t: Fat, c: nat): (q: seq<nat>)
    requires c < |t| || c == EOC
    ensures forall x :: x in q ==> x < |t|
    decreases Used(t)
  {
    if c == EOC then [] else
    var n := Next(t, c);
    if n == EOC then [c]
    else
      assert c in Used(t) && Used(t[c := FREE]) == Used(t) - {c};
      [c] + Trail(t[c := FREE], n)
  }

  /** The table with the clusters of s free. */
  function Cleared(t: Fat, s: set<nat>): (r: Fat)
    ensures |r| == |t|
  {
    seq(|t|, c requires 0 <= c < |t| => if c in s then FREE else t[c])
  }

  function Elements(q: seq<nat>): set<nat> {
    set x | x in q
  }

  /** The cluster n links after c, EOC from the end of the chain on. */
  function After(t: Fat, c: nat, n: nat): (r: nat)
    requires c < |t| || c == EOC
    ensures r < |t| || r == EOC
    decreases n
  {
    if n == 0 || c == EOC then c else After(t, Next(t, c), n - 1)
  }

  ghost predicate Reachable(t: Fat, c: nat, x: nat)
    requires c < |t| || c == EOC
  {
    x != EOC && exists n: nat :: After(t, c, n) == x
  }

  lemma {:induction false} AfterAfter(t: Fat, c: nat, n: nat)
    requires c < |t|
    ensures After(t, c, n + 1) == if After(t, c, n) == EOC then EOC else Next(t, After(t, c, n))
    decreases n
  {
    if n > 0 && Next(t, c) != EOC { AfterAfter(t, Next(t, c), n - 1); }
    if n == 0 { assert After(t, Next(t, c), 0) == Next(t, c); }
  }

  /** From a freed cluster nothing more is reached. */
  lemma {:induction false} AfterFreed(t: Fat, c: nat, d: nat, n: nat)
    requires c < |t| && (d < |t| || d == EOC)
    ensures After(t[c := FREE], d, n) == After(t, d, n) || After(t[c := FREE], d, n) == EOC
    decreases n
  {
    if n > 0 && d != EOC && d != c {
      AfterFreed(t, c, Next(t, d), n - 1);
      assert Next(t[c := FREE], d) == Next(t, d);
    } else if n > 0 && d == c {
      assert Next(t[c := FREE], d) == EOC;
    }
  }

  /** A way from d that does not pass c is still there once c is free. */
  lemma {:induction false} AfterAvoids(t: Fat, c: nat, d: nat, n: nat)
    requires c < |t| && (d < |t| || d == EOC)
    requires forall m: nat :: m < n ==> After(t, d, m) != c
    ensures After(t[c := FREE], d, n) == After(t, d, n)
    decreases n
  {
    if n > 0 && d != EOC {
      assert After(t, d, 0) == d;
      assert Next(t[c := FREE], d) == Next(t, d);
      forall m: nat | m < n - 1 ensures After(t, Next(t, d), m) != c {
        assert After(t, d, m + 1) == After(t, Next(t, d), m);
      }
      AfterAvoids(t, c, Next(t, d), n - 1);
    }
  }

  /** The loop visits nothing that is not reachable. */
  lemma {:induction false} TrailReachable(t: Fat, c: nat, x: nat)
    requires c < |t| && x in Trail(t, c)
    ensures Reachable(t, c, x)
    decreases Used(t)
  {
    if x == c {
      assert After(t, c, 0) == x;
    } else {
      var n := Next(t, c);
      assert c in Used(t) && Used(t[c := FREE]) == Used(t) - {c};
      TrailReachable(t[c := FREE], n, x);
      var k: nat :| After(t[c := FREE], n, k) == x;
      AfterFreed(t, c, n, k);
      assert After(t, c, k + 1) == x;
    }
  }

  /** It visits everything that is. */
  lemma {:induction false} ReachableInTrail(t: Fat, c: nat, n: nat)
    requires c < |t| && After(t, c, n) != EOC
    ensures After(t, c, n) in Trail(t, c)
    decreases n, Used(t)
  {
    var x := After(t, c, n);
    if x != c {
      var d := Next(t, c);
      assert n > 0 && x == After(t, d, n - 1);
      assert d != EOC by { EndIsEnd(t, d, n - 1); }
      if m: nat :| m < n - 1 && After(t, d, m) == c {
        hide After, Trail;
        SplitAfter(t, d, m, n - 1 - m);
        ReachableInTrail(t, c, n - 1 - m);
      } else {
        FreedFirst(t, c);
        hide After, Trail;
        AfterAvoids(t, c, d, n - 1);
        ReachableInTrail(t[c := FREE], d, n - 1);
      }
    }
  }

  lemma EndIsEnd(t: Fat, c: nat, n: nat)
    requires c < |t| || c == EOC
    ensures c == EOC ==> After(t, c, n) == EOC
  {
  }

  /** The first turn of the freeing loop. */
  lemma FreedFirst(t: Fat, c: nat)
    requires c < |t| && Next(t, c) != EOC
    ensures c in Used(t) && Used(t[c := FREE]) == Used(t) - {c}
    ensures Trail(t, c) == [c] + Trail(t[c := FREE], Next(t, c))
  {
  }

  lemma {:induction false} SplitAfter(t: Fat, c: nat, m: nat, n: nat)
    requires c < |t| || c == EOC
    ensures After(t, c, m + n) == After(t, After(t, c, m), n)
    decreases m
  {
    if m > 0 && c != EOC { SplitAfter(t, Next(t, c), m - 1, n); }
    if c == EOC { assert After(t, c, m) == EOC; }
  }

  /** On every table, cyclic or not, the loop frees exactly the clusters reachable from c. */
  lemma TrailIsReachable(t: Fat, c: nat, x: nat)
    requires c < |t|
    ensures x in Trail(t, c) <==> Reachable(t, c, x)
  {
    if x in Trail(t, c) { TrailReachable(t, c, x); }
    if Reachable(t, c, x) {
      var n: nat :| After(t, c, n) == x;
      ReachableInTrail(t, c, n);
    }
  }

  // ---- the chains of a volume ---------------------------------------------------------------------

  /** Where a cluster is: free, or in position k of the chain of file id. */
  datatype Spot = Unowned | In(id: nat, k: nat)

  /** Position k of a chain. */
  ghost predicate SpotAt(t: Fat, q: seq<nat>, own: seq<Spot>, id: nat, k: nat)
    requires |own| == |t| && k < |q|
  {
    && ValidCluster(t, q[k]) && own[q[k]] == In(id, k) && t[q[k]] != FREE
    && Next(t, q[k]) == if k + 1 < |q| then q[k + 1] else EOC
  }

  ghost predicate ChainAt(t: Fat, q: seq<nat>, own: seq<Spot>, id: nat)
    requires |own| == |t|
  {
    q != [] && forall k: nat {:trigger SpotAt(t, q, own, id, k)} :: k < |q| ==> SpotAt(t, q, own, id, k)
  }

  ghost predicate OwnAt(t: Fat, chains: map<nat, seq<nat>>, own: seq<Spot>, c: nat)
    requires |own| == |t| && ValidCluster(t, c)
  {
    match own[c]
    case Unowned => t[c] == FREE
    case In(id, k) => id in chains && k < |chains[id]| && chains[id][k] == c
  }

  /** Every cluster is free or in one place of one chain; each chain is linked to its end. */
  ghost predicate Volume(t: Fat, chains: map<nat, seq<nat>>, own: seq<Spot>) {
    && |own| == |t|
    && (forall id: nat :: id in chains ==> ChainAt(t, chains[id], own, id))
    && (forall c: nat {:trigger OwnAt(t, chains, own, c)} :: ValidCluster(t, c) ==> OwnAt(t, chains, own, c))
  }

  /** No chain meets itself or another one. */
  lemma ChainsApart(t: Fat, chains: map<nat, seq<nat>>, own: seq<Spot>, id: nat, k: nat, jd: nat, l: nat)
    requires Volume(t, chains, own) && id in chains && jd in chains && k < |chains[id]| && l < |chains[jd]|
    requires chains[id][k] == chains[jd][l]
    ensures id == jd && k == l
  {
    assert SpotAt(t, chains[id], own, id, k) && SpotAt(t, chains[jd], own, jd, l);
  }

  /** From position k of a chain the links lead through its rest. */
  lemma {:induction false} AfterInChain(t: Fat, q: seq<nat>, own: seq<Spot>, id: nat, k: nat, n: nat)
    requires |own| == |t| && ChainAt(t, q, own, id) && k < |q|
    ensures q[k] < |t|
    ensures After(t, q[k], n) == if k + n < |q| then q[k + n] else EOC
    decreases n
  {
    assert SpotAt(t, q, own, id, k);
    if n > 0 {
      if k + 1 < |q| { AfterInChain(t, q, own, id, k + 1, n - 1); }
      else { assert After(t, EOC, n - 1) == EOC; }
    }
  }

  /** Position k of a linked list of clusters. */
  ghost predicate LinkAt(t: Fat, q: seq<nat>, k: nat)
    requires k < |q|
  {
    ValidCluster(t, q[k]) && Next(t, q[k]) == if k + 1 < |q| then q[k + 1] else EOC
  }

  /** Freeing from position k of a chain on visits the rest of the chain, in order. */
  lemma {:induction false} TrailInChain(t: Fat, q: seq<nat>, k: nat)
    requires k < |q| && (forall i, j :: k <= i < j < |q| ==> q[i] != q[j])
    requires forall i: nat {:trigger LinkAt(t, q, i)} :: k <= i < |q| ==> LinkAt(t, q, i)
    ensures q[k] < |t| && Trail(t, q[k]) == q[k..]
    decreases |q| - k
  {
    assert LinkAt(t, q, k);
    if k + 1 < |q| {
      var u := t[q[k] := FREE];
      forall i: nat | k + 1 <= i < |q| ensures LinkAt(u, q, i) {
        assert LinkAt(t, q, i);
      }
      TrailInChain(u, q, k + 1);
      assert q[k..] == [q[k]] + q[k + 1..];
    }
  }

  // ---- freeing and taking on a volume -------------------------------------------------------------

  lemma TrailOfFile(t: Fat, chains: map<nat, seq<nat>>, own: seq<Spot>, id: nat, k: nat)
    requires Volume(t, chains, own) && id in chains && k < |chains[id]|
    ensures chains[id][k] < |t| && Trail(t, chains[id][k]) == chains[id][k..]
  {
    var q := chains[id];
    forall i: nat | k <= i < |q| ensures LinkAt(t, q, i) {
      assert SpotAt(t, q, own, id, i);
    }
    forall i: nat, j: nat | k <= i < j < |q| ensures q[i] != q[j] {
      assert SpotAt(t, q, own, id, i) && SpotAt(t, q, own, id, j);
    }
    TrailInChain(t, q, k);
  }

  /** The ownership when file id keeps its first n clusters only. */
  function Shorten(own: seq<Spot>, id: nat, n: nat): (r: seq<Spot>)
    ensures |r| == |own|
  {
    seq(|own|, c requires 0 <= c < |own| => if own[c].In? && own[c].id == id && own[c].k >= n then Unowned else own[c])
  }

  /** Removing a whole file: its clusters are free, every other chain is as before. */
  lemma UnlinkKeeps(t: Fat, chains: map<nat, seq<nat>>, own: seq<Spot>, id: nat)
    requires Volume(t, chains, own) && id in chains
    ensures Volume(Cleared(t, Elements(chains[id])), chains - {id}, Shorten(own, id, 0))
  {
    var u, rest, own' := Cleared(t, Elements(chains[id])), chains - {id}, Shorten(own, id, 0);
    forall jd: nat | jd in rest ensures ChainAt(u, rest[jd], own', jd) {
      assert ChainAt(t, chains[jd], own, jd);
      forall k: nat | k < |rest[jd]| ensures SpotAt(u, rest[jd], own', jd, k) {
        assert SpotAt(t, chains[jd], own, jd, k);
        NotInOther(t, chains, own, id, jd, k);
      }
    }
    forall c: nat | ValidCluster(u, c) ensures OwnAt(u, rest, own', c) {
      assert OwnAt(t, chains, own, c);
    }
  }

  lemma NotInOther(t: Fat, chains: map<nat, seq<nat>>, own: seq<Spot>, id: nat, jd: nat, k: nat)
    requires Volume(t, chains, own) && id in chains && jd in chains && jd != id && k < |chains[jd]|
    ensures chains[jd][k] !in chains[id]
  {
    if l: nat :| l < |chains[id]| && chains[id][l] == chains[jd][k] {
      ChainsApart(t, chains, own, id, l, jd, k);
    }
  }

  /** Cutting a file after n clusters: those stay linked, the rest is free, nothing else changes. */
  lemma CutKeeps(t: Fat, chains: map<nat, seq<nat>>, own: seq<Spot>, id: nat, n: nat)
    requires Volume(t, chains, own) && id in chains && 0 < n <= |chains[id]|
    ensures chains[id][n - 1] < |t|
    ensures var q := chains[id];
            Volume(Cleared(t[q[n - 1] := EOC], Elements(q[n..])), chains[id := q[..n]], Shorten(own, id, n))
  {
    var q := chains[id];
    assert SpotAt(t, q, own, id, n - 1);
    var u, less, own' := Cleared(t[q[n - 1] := EOC], Elements(q[n..])), chains[id := q[..n]], Shorten(own, id, n);
    forall jd: nat | jd in less ensures ChainAt(u, less[jd], own', jd) {
      assert ChainAt(t, chains[jd], own, jd);
      forall k: nat | k < |less[jd]| ensures SpotAt(u, less[jd], own', jd, k) {
        assert SpotAt(t, chains[jd], own, jd, k);
        assert k + 1 < |chains[jd]| ==> SpotAt(t, chains[jd], own, jd, k + 1);
        if l: nat :| n <= l < |q| && q[l] == chains[jd][k] {
          ChainsApart(t, chains, own, id, l, jd, k);
        }
        if chains[jd][k] == q[n - 1] { ChainsApart(t, chains, own, id, n - 1, jd, k); }
      }
    }
    forall c: nat | ValidCluster(u, c) ensures OwnAt(u, less, own', c) {
      assert OwnAt(t, chains, own, c);
      if own[c].In? && own[c].id == id && own[c].k >= n { assert q[n..][own[c].k - n] == c; }
      if c in q[n..] {
        var l: nat :| l < |q[n..]| && q[n..][l] == c;
        assert SpotAt(t, q, own, id, n + l);
      }
    }
  }

  /** A new one-cluster file. */
  lemma TakeKeeps(t: Fat, chains: map<nat, seq<nat>>, own: seq<Spot>, id: nat, c: nat)
    requires Volume(t, chains, own) && id !in chains && ValidCluster(t, c) && t[c] == FREE
    ensures Volume(t[c := EOC], chains[id := [c]], own[c := In(id, 0)])
  {
    var u, more, own' := t[c := EOC], chains[id := [c]], own[c := In(id, 0)];
    forall jd: nat | jd in more ensures ChainAt(u, more[jd], own', jd) {
      if jd == id {
        forall k: nat | k < |[c]| ensures SpotAt(u, [c], own', id, k) {}
      } else {
        assert ChainAt(t, chains[jd], own, jd);
        forall k: nat | k < |more[jd]| ensures SpotAt(u, more[jd], own', jd, k) {
          assert SpotAt(t, chains[jd], own, jd, k);
        }
      }
    }
    assert OwnAt(t, chains, own, c);
    forall d: nat | ValidCluster(u, d) ensures OwnAt(u, more, own', d) {
      assert OwnAt(t, chains, own, d);
    }
  }
}
