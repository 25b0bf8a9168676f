/** What several of the modules need about sequences and sets. */
module Basics {

  datatype Option<T> = None | Some(value: T)

  predicate Distinct<T(==)>(q: seq<T>) {
    forall i, j :: 0 <= i < j < |q| ==> q[i] != q[j]
  }

  /** The numbers below n. */
  function Below(n: nat): (s: set<nat>)
    ensures |s| == n && forall k: nat :: k in s <==> k < n
  {
    if n == 0 then {} else Below(n - 1) + {n - 1}
  }

  /** A sequence without repetitions over a set is no longer than the set is large. */
  lemma {:induction false} Pigeonhole(q: seq<nat>, s: set<nat>)
    requires Distinct(q) && forall i :: 0 <= i < |q| ==> q[i] in s
    ensures |q| <= |s|
  {
    if q != [] {
      Pigeonhole(q[1..], s - {q[0]});
    }
  }

  /** A subset has no more elements. */
  lemma SubsetSize(a: set<nat>, b: set<nat>)
    requires a <= b
    ensures |a| <= |b|
  {
    assert a + (b - a) == b;
  }

  /** The sequence without the occurrences of x. */
  function Without(q: seq<nat>, x: nat): (r: seq<nat>)
    ensures forall y :: y in r <==> y in q && y != x
  {
    if q == [] then [] else (if q[0] == x then [] else [q[0]]) + Without(q[1..], x)
  }

  lemma {:induction false} WithoutNone(q: seq<nat>, x: nat)
    requires x !in q
    ensures Without(q, x) == q
  {
    if q != [] { WithoutNone(q[1..], x); }
  }

  /** An element that occurs once is cut out. */
  lemma {:induction false} WithoutAt(q: seq<nat>, x: nat, i: nat)
    requires i < |q| && q[i] == x && Distinct(q)
    ensures Without(q, x) == q[..i] + q[i + 1..]
  {
    if i == 0 {
      WithoutNone(q[1..], x);
    } else {
      WithoutAt(q[1..], x, i - 1);
      assert q[..i] == [q[0]] + q[1..][..i - 1] && q[i + 1..] == q[1..][i..];
    }
  }

  /** x with s in place of what it has from o on. */
  function Overlay(x: seq<bv8>, o: nat, s: seq<bv8>): (r: seq<bv8>)
    requires o + |s| <= |x|
    ensures |r| == |x|
  {
    x[..o] + s + x[o + |s|..]
  }

  /** c with s written over it from off on: replaced in place, longer if need be. */
  function Replaced(c: seq<bv8>, off: nat, s: seq<bv8>): (r: seq<bv8>)
    requires off <= |c|
    ensures |r| == if off + |s| > |c| then off + |s| else |c|
  {
    if off + |s| > |c| then c[..off] + s else c[..off] + s + c[off + |s|..]
  }

  lemma ReplacedAt(c: seq<bv8>, off: nat, s: seq<bv8>, k: nat)
    requires off <= |c| && k < |Replaced(c, off, s)|
    ensures off <= k < off + |s| || k < |c|
    ensures Replaced(c, off, s)[k] == if off <= k < off + |s| then s[k - off] else c[k]
  {
  }

  lemma ReplacedTwice(c: seq<bv8>, off: nat, s: seq<bv8>, t: seq<bv8>)
    requires off <= |c|
    ensures Replaced(Replaced(c, off, s), off + |s|, t) == Replaced(c, off, s + t)
  {
    hide Replaced;
    var d := Replaced(c, off, s);
    var x, y := Replaced(d, off + |s|, t), Replaced(c, off, s + t);
    forall k: nat | k < |x| ensures x[k] == y[k] {
      ReplacedAt(d, off + |s|, t, k);
      ReplacedAt(c, off, s + t, k);
      if k < |d| { ReplacedAt(c, off, s, k); }
    }
  }

  lemma SlicesJoin(q: seq<bv8>, a: nat, b: nat, c: nat)
    requires a <= b <= c <= |q|
    ensures q[a..b] + q[b..c] == q[a..c]
  {
  }
}
