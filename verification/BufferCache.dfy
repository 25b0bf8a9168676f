/**
 bcache of bio.c: the buffers in one doubly linked ring through prev and next, with the head at
 index HEAD. order is the list as a sequence, and CacheProtocol gives the meaning of the
 operations on it.
 */
module BufferCache {
  import opened CacheProtocol
  import opened Basics

  const HEAD: nat := NBUF

  // ---- the ring -------------------------------------------------------------------------------

  /** The node at position i of the ring; the head is at both ends. */
  function NodeAt(order: seq<nat>, i: nat): nat
    requires i <= |order| + 1
  {
    if i == 0 || i == |order| + 1 then HEAD else order[i - 1]
  }

  ghost predicate LinkAt(next: seq<nat>, prev: seq<nat>, order: seq<nat>, i: nat)
    requires |next| == |prev| == NBUF + 1 && i <= |order|
  {
    var a, b := NodeAt(order, i), NodeAt(order, i + 1);
    a <= NBUF && b <= NBUF && next[a] == b && prev[b] == a
  }

  ghost predicate Ring(next: seq<nat>, prev: seq<nat>, order: seq<nat>) {
    && |next| == |prev| == NBUF + 1
    && (forall i :: 0 <= i < |order| ==> order[i] < NBUF)
    && Distinct(order)
    && (forall i: nat {:trigger LinkAt(next, prev, order, i)} :: i <= |order| ==> LinkAt(next, prev, order, i))
  }

  /** Putting b behind the head. */
  lemma InsertFront(next: seq<nat>, prev: seq<nat>, order: seq<nat>, b: nat)
    requires Ring(next, prev, order) && b < NBUF && b !in order
    ensures var n1 := next[b := next[HEAD]];
            var p1 := prev[b := HEAD];
            next[HEAD] <= NBUF && Ring(n1[HEAD := b], p1[next[HEAD] := b], [b] + order)
  {
    assert LinkAt(next, prev, order, 0);
    var o := [b] + order;
    var n2, p2 := next[b := next[HEAD]][HEAD := b], prev[b := HEAD][next[HEAD] := b];
    forall i: nat | i <= |o| ensures LinkAt(n2, p2, o, i) {
      if i >= 1 {
        assert LinkAt(next, prev, order, i - 1);
        assert NodeAt(o, i + 1) == NodeAt(order, i);
        assert i >= 2 ==> NodeAt(o, i) == NodeAt(order, i - 1);
      }
    }
  }

  /** Unlinking the node at position i + 1. */
  lemma Unlink(next: seq<nat>, prev: seq<nat>, order: seq<nat>, i: nat)
    requires Ring(next, prev, order) && i < |order|
    ensures var b := order[i];
            next[b] <= NBUF && prev[b] <= NBUF
            && Ring(next[prev[b] := next[b]], prev[next[b] := prev[b]], order[..i] + order[i + 1..])
  {
    var b := order[i];
    assert LinkAt(next, prev, order, i) && LinkAt(next, prev, order, i + 1);
    assert NodeAt(order, i + 1) == b;
    var o := order[..i] + order[i + 1..];
    var n1, p1 := next[prev[b] := next[b]], prev[next[b] := prev[b]];
    forall j: nat | j <= |o| ensures LinkAt(n1, p1, o, j) {
      if j < i {
        assert LinkAt(next, prev, order, j);
        assert NodeAt(o, j) == NodeAt(order, j) && NodeAt(o, j + 1) == NodeAt(order, j + 1);
      } else if j == i {
        assert NodeAt(o, j) == NodeAt(order, j) && NodeAt(o, j + 1) == NodeAt(order, j + 2);
      } else {
        assert LinkAt(next, prev, order, j + 1);
        assert NodeAt(o, j) == NodeAt(order, j + 1) && NodeAt(o, j + 1) == NodeAt(order, j + 2);
      }
    }
  }

  /** The whole of the move in brelse. */
  lemma MoveToFront(next: seq<nat>, prev: seq<nat>, order: seq<nat>, b: nat)
    requires Ring(next, prev, order) && b in order && b < NBUF
    ensures next[b] <= NBUF && prev[b] <= NBUF
    ensures var n1, p1 := next[prev[b] := next[b]], prev[next[b] := prev[b]];
            var n2, p2 := n1[b := n1[HEAD]], p1[b := HEAD];
            n1[HEAD] <= NBUF && Ring(n2[HEAD := b], p2[n1[HEAD] := b], ToFront(order, b))
  {
    var i: nat :| i < |order| && order[i] == b;
    Unlink(next, prev, order, i);
    WithoutAt(order, b, i);
    hide Ring, Without;
    assert Without(order, b) == order[..i] + order[i + 1..];
    InsertFront(next[prev[b] := next[b]], prev[next[b] := prev[b]], Without(order, b), b) by {
      assert forall x :: x in Without(order, b) ==> x != b;
    }
  }

  // ---- bcache ---------------------------------------------------------------------------------

  class Bcache {
    const bufs: array<Buf>
    const next: array<nat>
    const prev: array<nat>
    ghost var order: seq<nat>

    ghost predicate Valid()
      reads this, bufs, next, prev
    {
      bufs.Length == NBUF && next != prev && Ring(next[..], prev[..], order) && Permutation(order)
    }

    ghost function Value(): Cache
      reads this, bufs
    {
      Cache(bufs[..], order)
    }

    /** binit. */
    constructor ()
      ensures Valid() && fresh(bufs) && fresh(next) && fresh(prev)
      ensures Value() == Cache(seq(NBUF, _ => EMPTYBUF), seq(NBUF, i requires 0 <= i < NBUF => NBUF - 1 - i))
    {
      bufs := new Buf[NBUF](_ => EMPTYBUF);
      next := new nat[NBUF + 1](_ => HEAD);
      prev := new nat[NBUF + 1](_ => HEAD);
      order := [];
      new;
      assert LinkAt(next[..], prev[..], order, 0);
      var b := 0;
      while b < NBUF
        invariant b <= NBUF && Ring(next[..], prev[..], order) && |order| == b
        invariant forall i :: 0 <= i < b ==> order[i] == b - 1 - i
        modifies next, prev, this`order
      {
        ghost var n: seq<nat>, p: seq<nat> := next[..], prev[..];
        InsertFront(n, p, order, b);
        next[b] := next[HEAD];
        prev[b] := HEAD;
        prev[next[HEAD]] := b;
        next[HEAD] := b;
        assert next[..] == n[b := n[HEAD]][HEAD := b] && prev[..] == p[b := HEAD][n[HEAD] := b];
        order := [b] + order;
        b := b + 1;
      }
      assert bufs[..] == seq(NBUF, _ => EMPTYBUF);
    }

    /** The forward scan of bget; NBUF when it comes back to the head. */
    method Cached(key: Key) returns (b: nat)
      requires Valid()
      ensures CacheSized(Value()) && b == Hit(Value(), key, 0)
    {
      hide Ring, Permutation;
      ListSized(next[..], prev[..], bufs[..], order);
      Follow(next[..], prev[..], order, 0);
      b := next[HEAD];
      ghost var i: nat := 0;
      while b != HEAD
        invariant i <= NBUF && b == NodeAt(order, i + 1)
        invariant Hit(Value(), key, 0) == Hit(Value(), key, i)
        decreases NBUF - i
      {
        assert b == order[i];
        if bufs[b].key == key { return b; }
        Follow(next[..], prev[..], order, i + 1);
        b := next[b];
        i := i + 1;
      }
      assert i == NBUF by { NotHead(next[..], prev[..], order, i); }
    }

    /** The backward scan of bget; NBUF when it comes back to the head. */
    method Oldest() returns (b: nat)
      requires Valid()
      ensures CacheSized(Value()) && b == Lru(Value(), NBUF)
    {
      hide Ring, Permutation;
      ListSized(next[..], prev[..], bufs[..], order);
      Follow(next[..], prev[..], order, NBUF);
      b := prev[HEAD];
      ghost var i: nat := NBUF;
      while b != HEAD
        invariant i <= NBUF && b == NodeAt(order, i)
        invariant Lru(Value(), NBUF) == Lru(Value(), i)
        decreases i
      {
        assert b == order[i - 1];
        if bufs[b].refcnt == 0 { return b; }
        Follow(next[..], prev[..], order, i - 1);
        b := prev[b];
        i := i - 1;
      }
      assert i == 0;
    }

    /** bget under bcache.lock; None where it panics. */
    method Bget(key: Key) returns (r: Option<nat>)
      requires Valid()
      modifies bufs
      ensures Valid()
      ensures match Get(old(Value()), key)
              case None => r == None && Value() == old(Value())
              case Some((b, c)) => r == Some(b) && Value() == c
    {
      hide Ring, Permutation, Hit, Lru;
      var b := Cached(key);
      if b != HEAD {
        bufs[b] := bufs[b].(refcnt := bufs[b].refcnt + 1);
        return Some(b);
      }
      b := Oldest();
      if b != HEAD {
        bufs[b] := Buf(key, false, 1, bufs[b].data);
        return Some(b);
      }
      return None;
    }

    method Bread(key: Key, disk: map<Key, Block>) returns (r: Option<nat>)
      requires Valid()
      modifies bufs
      ensures Valid()
      ensures Get(old(Value()), key).None? ==> r == None && Value() == old(Value())
      ensures Get(old(Value()), key).Some? ==>
                var (b, c) := Get(old(Value()), key).value;
                b < NBUF == |c.bufs| && r == Some(b)
                && Value() == if c.bufs[b].valid then c else SetBuf(c, b, c.bufs[b].(valid := true, data := At(disk, c.bufs[b].key)))
      ensures r.Some? ==>
                && r.value < NBUF
                && var was, b := old(bufs[..])[r.value], bufs[r.value];
                   && b.key == key && b.valid
                   && (b.data == if was.valid && was.key == key then was.data else if key in disk then disk[key] else [])
                   && forall a :: 0 <= a < NBUF && a != r.value ==> bufs[a] == old(bufs[..])[a]
    {
      assert CacheSized(Value()) by { ListSized(next[..], prev[..], bufs[..], order); }
      GetMeans(Value(), key);
      hide Ring, Permutation, Hit, Lru;
      r := Bget(key);
      if r.Some? {
        var b := r.value;
        if !bufs[b].valid {
          bufs[b] := bufs[b].(valid := true, data := At(disk, bufs[b].key));
        }
      }
    }

    /** The part of brelse under bcache.lock. */
    method Brelse(b: nat)
      requires Valid() && b < NBUF && bufs[b].refcnt > 0
      modifies this`order, bufs, next, prev
      ensures Valid() && Value() == Drop(old(Value()), b)
      ensures bufs[..] == old(bufs[..])[b := old(bufs[b]).(refcnt := old(bufs[b]).refcnt - 1)]
      ensures if old(bufs[b]).refcnt > 1 then order == old(order)
              else exists i :: 0 <= i < |old(order)| && old(order)[i] == b && order == [b] + old(order)[..i] + old(order)[i + 1..]
    {
      assert CacheSized(Value()) by { ListSized(next[..], prev[..], bufs[..], order); }
      DropMeans(Value(), b);
      bufs[b] := bufs[b].(refcnt := bufs[b].refcnt - 1);
      if bufs[b].refcnt == 0 {
        ghost var n: seq<nat>, p: seq<nat> := next[..], prev[..];
        OnList(order, b);
        MoveToFront(n, p, order, b);
        ToFrontPermutes(order, b);
        NotSelf(n, p, order, b);
        hide Ring, Permutation;
        assert |n| == |p| == NBUF + 1;
        prev[next[b]] := prev[b];
        next[prev[b]] := next[b];
        next[b] := next[HEAD];
        prev[b] := HEAD;
        prev[next[HEAD]] := b;
        next[HEAD] := b;
        ghost var n1: seq<nat>, p1: seq<nat> := n[p[b] := n[b]], p[n[b] := p[b]];
        assert next[..] == n1[b := n1[HEAD]][HEAD := b];
        assert prev[..] == p1[b := HEAD][n1[HEAD] := b];
        order := ToFront(order, b);
      }
    }

    method Bpin(b: nat)
      requires Valid() && b < NBUF
      modifies bufs
      ensures Valid() && Value() == Ref(old(Value()), b)
      ensures bufs[..] == old(bufs[..])[b := old(bufs[b]).(refcnt := old(bufs[b]).refcnt + 1)]
    {
      bufs[b] := bufs[b].(refcnt := bufs[b].refcnt + 1);
    }

    method Bunpin(b: nat)
      requires Valid() && b < NBUF && bufs[b].refcnt > 0
      modifies bufs
      ensures Valid() && Value() == Unref(old(Value()), b)
      ensures bufs[..] == old(bufs[..])[b := old(bufs[b]).(refcnt := old(bufs[b]).refcnt - 1)]
    {
      bufs[b] := bufs[b].(refcnt := bufs[b].refcnt - 1);
    }
  }

  lemma ListSized(next: seq<nat>, prev: seq<nat>, bufs: seq<Buf>, order: seq<nat>)
    requires Ring(next, prev, order) && Permutation(order) && |bufs| == NBUF
    ensures CacheSized(Cache(bufs, order))
  {
  }

  lemma Follow(next: seq<nat>, prev: seq<nat>, order: seq<nat>, i: nat)
    requires Ring(next, prev, order) && i <= |order|
    ensures |next| == |prev| == NBUF + 1
    ensures NodeAt(order, i) <= NBUF && NodeAt(order, i + 1) <= NBUF
    ensures next[NodeAt(order, i)] == NodeAt(order, i + 1) && prev[NodeAt(order, i + 1)] == NodeAt(order, i)
  {
    assert LinkAt(next, prev, order, i);
  }

  /** No node is linked to itself. */
  lemma NotSelf(next: seq<nat>, prev: seq<nat>, order: seq<nat>, b: nat)
    requires Ring(next, prev, order) && b in order
    ensures |next| == |prev| == NBUF + 1 && b < NBUF && next[b] != b && prev[b] != b
  {
    var i: nat :| i < |order| && order[i] == b;
    Follow(next, prev, order, i);
    Follow(next, prev, order, i + 1);
  }

  /** Inside the list no node is the head. */
  lemma NotHead(next: seq<nat>, prev: seq<nat>, order: seq<nat>, i: nat)
    requires Ring(next, prev, order) && i <= |order|
    ensures NodeAt(order, i + 1) == HEAD <==> i == |order|
  {
  }
}
