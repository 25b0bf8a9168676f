/**
 The operations of fat_table.c and fat_file.c on the table and the data clusters of a volume.
 bpc is the cluster size; a cluster's bytes are data[c].
 */
module FatVolume {
  import opened FatChains
  import opened Basics

  // ---- positions and clusters -------------------------------------------------------------------

  /** offset >> cluster_order: the place in the chain of the cluster that holds a position. */
  function Place(p: nat, b: nat): nat
    requires b > 0
  {
    p / b
  }

  /** fat_table_mask_offset: the position inside the cluster. */
  function Inside(p: nat, b: nat): (r: nat)
    requires b > 0
    ensures r < b
  {
    p % b
  }

  function Capacity(n: nat, b: nat): nat {
    n * b
  }

  /** In plain numbers. */
  lemma InNumbers(p: nat, n: nat, b: nat)
    requires b > 0
    ensures Place(p, b) == p / b && Inside(p, b) == p % b && Capacity(n, b) == n * b && ClustersFor(p, b) == (p + (b - 1)) / b
  {
  }

  lemma {:induction false} CapacityOrder(x: nat, y: nat, b: nat)
    requires x < y
    ensures Capacity(x, b) + b <= Capacity(y, b)
    decreases y
  {
    assert Capacity(y, b) == Capacity(y - 1, b) + b;
    if x < y - 1 { CapacityOrder(x, y - 1, b); }
  }

  lemma Split(p: nat, b: nat)
    requires b > 0
    ensures p == Capacity(Place(p, b), b) + Inside(p, b)
  {
  }

  /** The place and the position inside are unique. */
  lemma PlaceIs(p: nat, k: nat, r: nat, b: nat)
    requires b > 0 && p == Capacity(k, b) + r && r < b
    ensures Place(p, b) == k && Inside(p, b) == r
  {
    Split(p, b);
    hide Capacity, Place, Inside;
    if Place(p, b) < k { CapacityOrder(Place(p, b), k, b); }
    if Place(p, b) > k { CapacityOrder(k, Place(p, b), b); }
  }

  lemma PlaceInside(p: nat, m: nat, b: nat)
    requires b > 0 && Inside(p, b) + m < b
    ensures Place(p + m, b) == Place(p, b) && Inside(p + m, b) == Inside(p, b) + m
  {
    hide Capacity, Place, Inside;
    Split(p, b);
    PlaceIs(p + m, Place(p, b), Inside(p, b) + m, b);
  }

  lemma PlaceNext(p: nat, m: nat, b: nat)
    requires b > 0 && Inside(p, b) + m == b
    ensures Place(p + m, b) == Place(p, b) + 1 && Inside(p + m, b) == 0
  {
    Split(p, b);
    CapacityNext(Place(p, b), b);
    hide Capacity, Place, Inside;
    PlaceIs(p + m, Place(p, b) + 1, 0, b);
  }

  lemma CapacityNext(n: nat, b: nat)
    ensures Capacity(n + 1, b) == Capacity(n, b) + b
  {
  }

  lemma PlaceBelow(p: nat, n: nat, b: nat)
    requires b > 0
    ensures Place(p, b) < n <==> p < Capacity(n, b)
  {
    Split(p, b);
    hide Capacity, Place, Inside;
    if Place(p, b) < n { CapacityOrder(Place(p, b), n, b); }
    if n < Place(p, b) { CapacityOrder(n, Place(p, b), b); }
  }

  /** fat_table_get_clusters_for_size. */
  function ClustersFor(size: nat, b: nat): (n: nat)
    requires b > 0
  {
    Place(size + (b - 1), b)
  }

  /** It is the least number of clusters that hold the size. */
  lemma ClustersForLeast(size: nat, b: nat, n: nat)
    requires b > 0
    ensures ClustersFor(size, b) <= n <==> size <= Capacity(n, b)
  {
    hide Capacity, Place;
    PlaceBelow(size + (b - 1), n + 1, b);
    CapacityNext(n, b);
  }

  // ---- content ----------------------------------------------------------------------------------

  /** The clusters of a chain hold b bytes each. */
  predicate Fits(data: seq<seq<bv8>>, q: seq<nat>, b: nat) {
    b > 0 && forall i {:trigger q[i]} :: 0 <= i < |q| ==> q[i] < |data| && |data[q[i]]| == b
  }

  /** The byte at position p of the clusters of a chain. */
  function FileByte(data: seq<seq<bv8>>, q: seq<nat>, b: nat, p: nat): bv8
    requires Fits(data, q, b) && Place(p, b) < |q|
  {
    data[q[Place(p, b)]][Inside(p, b)]
  }

  function Content(data: seq<seq<bv8>>, q: seq<nat>, b: nat, size: nat): (s: seq<bv8>)
    requires Fits(data, q, b) && size <= Capacity(|q|, b)
    ensures |s| == size
  {
    seq(size, p requires 0 <= p < size => (PlaceBelow(p, |q|, b); FileByte(data, q, b, p)))
  }

  /** Bytes off.. are s, the others as before, and clusters outside the chain are untouched. */
  ghost predicate Wrote(data: seq<seq<bv8>>, e: seq<seq<bv8>>, q: seq<nat>, b: nat, off: nat, s: seq<bv8>)
    requires Fits(data, q, b) && Fits(e, q, b)
  {
    && |e| == |data|
    && (forall p: nat {:trigger FileByte(e, q, b, p)} :: Place(p, b) < |q| ==>
          FileByte(e, q, b, p) == if off <= p < off + |s| then s[p - off] else FileByte(data, q, b, p))
    && (forall c :: 0 <= c < |data| && c !in q ==> e[c] == data[c])
  }

  lemma ContentWrote(data: seq<seq<bv8>>, e: seq<seq<bv8>>, q: seq<nat>, b: nat, off: nat, s: seq<bv8>, size: nat)
    requires Fits(data, q, b) && Fits(e, q, b) && Wrote(data, e, q, b, off, s)
    requires off <= size <= Capacity(|q|, b) && off + |s| <= Capacity(|q|, b)
    ensures var to := if off + |s| > size then off + |s| else size;
            Content(e, q, b, to) == Replaced(Content(data, q, b, size), off, s)
  {
    hide Capacity, Place, Inside;
    var to := if off + |s| > size then off + |s| else size;
    var c, r := Content(e, q, b, to), Replaced(Content(data, q, b, size), off, s);
    forall p: nat | p < to ensures c[p] == r[p] {
      PlaceBelow(p, |q|, b);
      assert c[p] == FileByte(e, q, b, p);
      assert p < size ==> Content(data, q, b, size)[p] == FileByte(data, q, b, p);
    }
  }

  /** Writing inside the cluster of position off. */
  lemma OverlayWrites(data: seq<seq<bv8>>, q: seq<nat>, b: nat, off: nat, s: seq<bv8>)
    requires Fits(data, q, b) && Place(off, b) < |q| && Inside(off, b) + |s| <= b
    requires Distinct(q)
    ensures var e := data[q[Place(off, b)] := Overlay(data[q[Place(off, b)]], Inside(off, b), s)];
            Fits(e, q, b) && Wrote(data, e, q, b, off, s)
  {
    hide Capacity, Place, Inside;
    var e := data[q[Place(off, b)] := Overlay(data[q[Place(off, b)]], Inside(off, b), s)];
    forall p: nat | Place(p, b) < |q|
      ensures FileByte(e, q, b, p) == if off <= p < off + |s| then s[p - off] else FileByte(data, q, b, p)
    {
      SameCluster(off, p, |s|, b);
      assert Place(p, b) != Place(off, b) ==> q[Place(p, b)] != q[Place(off, b)];
    }
  }

  /** Positions in a range inside one cluster. */
  lemma SameCluster(off: nat, p: nat, m: nat, b: nat)
    requires b > 0 && Inside(off, b) + m <= b
    ensures off <= p < off + m ==> Place(p, b) == Place(off, b)
    ensures Place(p, b) == Place(off, b) ==> p - off == Inside(p, b) - Inside(off, b)
  {
    hide Capacity, Place, Inside;
    Split(p, b);
    Split(off, b);
    if off <= p < off + m { PlaceInside(off, p - off, b); }
  }

  lemma WroteThen(d: seq<seq<bv8>>, e: seq<seq<bv8>>, f: seq<seq<bv8>>, q: seq<nat>, b: nat, off: nat, s: seq<bv8>, t: seq<bv8>)
    requires Fits(d, q, b) && Fits(e, q, b) && Fits(f, q, b)
    requires Wrote(d, e, q, b, off, s) && Wrote(e, f, q, b, off + |s|, t)
    ensures Wrote(d, f, q, b, off, s + t)
  {
    hide Capacity, Place, Inside;
    forall p: nat | Place(p, b) < |q|
      ensures FileByte(f, q, b, p) == if off <= p < off + |s + t| then (s + t)[p - off] else FileByte(d, q, b, p)
    {
      assert FileByte(e, q, b, p) == if off <= p < off + |s| then s[p - off] else FileByte(d, q, b, p);
    }
  }
}
