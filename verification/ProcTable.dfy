/**
 The loops of proc.c over the process table, each proved to be the turns of ProcProtocol.
 */
module ProcTable {
  import opened ProcProtocol
  import opened Basics

  /** wakeup(c), called by process me: exactly the sleepers on c but me become runnable. */
  function Woken(procs: seq<Proc>, c: Chan, me: nat): (r: seq<Proc>)
    ensures |r| == |procs|
  {
    seq(|procs|, k requires 0 <= k < |procs| => WokenAt(procs, c, me, k))
  }

  function WokenAt(procs: seq<Proc>, c: Chan, me: nat, k: nat): Proc
    requires k < |procs|
  {
    if k != me && procs[k].state == SLEEPING && procs[k].chan == Some(c) then procs[k].(state := RUNNABLE) else procs[k]
  }

  /** The turns of wakeup for slots 0 to n - 1. */
  function WakeTurns(procs: seq<Proc>, c: Chan, me: nat, n: nat): (r: seq<Proc>)
    requires n <= |procs|
    ensures |r| == |procs|
  {
    if n == 0 then procs else WakeOne(WakeTurns(procs, c, me, n - 1), c, me, n - 1)
  }

  lemma {:induction false} WakeTurnsAt(procs: seq<Proc>, c: Chan, me: nat, n: nat)
    requires n <= |procs|
    ensures forall k: nat :: k < |procs| ==> WakeTurns(procs, c, me, n)[k] == if k < n then WokenAt(procs, c, me, k) else procs[k]
  {
    if n > 0 { WakeTurnsAt(procs, c, me, n - 1); }
  }

  /** What the loop of wakeup comes to when nothing happens between its turns. */
  lemma WakeTurnsAre(procs: seq<Proc>, c: Chan, me: nat)
    ensures WakeTurns(procs, c, me, |procs|) == Woken(procs, c, me)
  {
    WakeTurnsAt(procs, c, me, |procs|);
    hide WokenAt, WakeTurns;
  }

  /** The turn of reparent for slot k, by process me. */
  function ReparentOne(procs: seq<Proc>, me: nat, k: nat): (r: seq<Proc>)
    requires k < |procs|
    ensures |r| == |procs|
  {
    if procs[k].parent == Some(me) then Woken(procs[k := procs[k].(parent := Some(INIT))], WaitOf(INIT), me) else procs
  }

  /** reparent(p), called by p: the turns for slots 0 to n - 1. */
  function Reparented(procs: seq<Proc>, p: nat, n: nat): (r: seq<Proc>)
    requires n <= |procs|
    ensures |r| == |procs|
  {
    if n == 0 then procs else ReparentOne(Reparented(procs, p, n - 1), p, n - 1)
  }

  predicate HasChild(procs: seq<Proc>, p: nat, n: nat)
    requires n <= |procs|
  {
    exists k :: 0 <= k < n && procs[k].parent == Some(p)
  }

  lemma HasChildTurn(procs: seq<Proc>, p: nat, k: nat)
    requires k < |procs|
    ensures !HasChild(procs, p, 0)
    ensures HasChild(procs, p, k + 1) <==> HasChild(procs, p, k) || procs[k].parent == Some(p)
  {
  }

  /** p's children among the first n slots go to initproc, which is woken if there are any; nothing
      else changes. */
  function Adopted(procs: seq<Proc>, p: nat, n: nat): (r: seq<Proc>)
    requires n <= |procs|
    ensures |r| == |procs|
  {
    var woken := if HasChild(procs, p, n) then Woken(procs, WaitOf(INIT), p) else procs;
    seq(|procs|, k requires 0 <= k < |procs| =>
      if k < n && procs[k].parent == Some(p) then woken[k].(parent := Some(INIT)) else woken[k])
  }

  lemma AdoptOne(procs: seq<Proc>, p: nat, n: nat)
    requires 0 < n <= |procs| && p != INIT && procs[n - 1].parent == Some(p)
    ensures ReparentOne(Adopted(procs, p, n - 1), p, n - 1) == Adopted(procs, p, n)
  {
    var a, woken := Adopted(procs, p, n - 1), Woken(procs, WaitOf(INIT), p);
    assert HasChild(procs, p, n);
    var r := Woken(a[n - 1 := a[n - 1].(parent := Some(INIT))], WaitOf(INIT), p);
    forall k: nat | k < |procs| ensures r[k] == Adopted(procs, p, n)[k] {
      assert a[k].state == procs[k].state || a[k].state == woken[k].state;
    }
  }

  /** What the loop of reparent comes to. */
  lemma {:induction false} ReparentedIs(procs: seq<Proc>, p: nat, n: nat)
    requires n <= |procs| && p != INIT
    ensures Reparented(procs, p, n) == Adopted(procs, p, n)
  {
    if n > 0 {
      ReparentedIs(procs, p, n - 1);
      var a := Adopted(procs, p, n - 1);
      assert a[n - 1].parent == procs[n - 1].parent;
      if procs[n - 1].parent == Some(p) {
        AdoptOne(procs, p, n);
      } else {
        assert HasChild(procs, p, n) <==> HasChild(procs, p, n - 1);
        assert a == Adopted(procs, p, n);
      }
    }
  }

  lemma AdoptedMeans(procs: seq<Proc>, p: nat)
    requires |procs| == NPROC && p != INIT
    ensures var r := Reparented(procs, p, NPROC);
            forall k :: 0 <= k < NPROC ==>
              && r[k].parent == (if procs[k].parent == Some(p) then Some(INIT) else procs[k].parent)
              && r[k].state == (if (exists j :: 0 <= j < NPROC && procs[j].parent == Some(p)) && k != p
                                   && procs[k].state == SLEEPING && procs[k].chan == Some(WaitOf(INIT))
                                then RUNNABLE else procs[k].state)
              && r[k] == procs[k].(parent := r[k].parent, state := r[k].state)
  {
    ReparentedIs(procs, p, NPROC);
    hide Reparented;
  }

  /** Slot z is the first that holds a zombie child of p. */
  predicate FirstZombie(procs: seq<Proc>, p: nat, z: nat)
    requires z < |procs|
  {
    && procs[z].parent == Some(p) && procs[z].state == ZOMBIE
    && forall k :: 0 <= k < z ==> !(procs[k].parent == Some(p) && procs[k].state == ZOMBIE)
  }

  /** How a call of wait goes on after one scan. */
  datatype Outcome = Reaped(pid: nat, status: int) | CopyFailed | NoChildren | KilledWaiting | MustSleep

  class Table {
    const procs: array<Proc>
    var nextpid: nat

    constructor ()
      ensures procs.Length == NPROC && nextpid == 1 && fresh(procs)
      ensures forall k :: 0 <= k < NPROC ==> procs[k] == FREEPROC
    {
      procs := new Proc[NPROC](_ => FREEPROC);
      nextpid := 1;
    }

    method Wakeup(chan: Chan, me: nat)
      requires procs.Length == NPROC
      modifies procs
      ensures procs[..] == Woken(old(procs[..]), chan, me)
      ensures forall k :: 0 <= k < NPROC ==>
                procs[k] == if k != me && old(procs[k]).state == SLEEPING && old(procs[k]).chan == Some(chan)
                            then old(procs[k]).(state := RUNNABLE) else old(procs[k])
    {
      var k := 0;
      while k < NPROC
        invariant k <= NPROC && procs[..] == WakeTurns(old(procs[..]), chan, me, k)
      {
        ghost var was := procs[..];
        if k != me && procs[k].state == SLEEPING && procs[k].chan == Some(chan) {
          procs[k] := procs[k].(state := RUNNABLE);
        }
        assert procs[..] == WakeOne(was, chan, me, k);
        k := k + 1;
      }
      WakeTurnsAre(old(procs[..]), chan, me);
    }

    method Reparent(p: nat)
      requires procs.Length == NPROC && p < NPROC
      modifies procs
      ensures procs[..] == Reparented(old(procs[..]), p, NPROC)
      ensures p != INIT ==>
                forall k :: 0 <= k < NPROC ==>
                  && procs[k].parent == (if old(procs[k]).parent == Some(p) then Some(INIT) else old(procs[k]).parent)
                  && procs[k].state == (if (exists j :: 0 <= j < NPROC && old(procs[j]).parent == Some(p)) && k != p
                                           && old(procs[k]).state == SLEEPING && old(procs[k]).chan == Some(WaitOf(INIT))
                                        then RUNNABLE else old(procs[k]).state)
                  && procs[k] == old(procs[k]).(parent := procs[k].parent, state := procs[k].state)
    {
      var k := 0;
      while k < NPROC
        invariant k <= NPROC && procs[..] == Reparented(old(procs[..]), p, k)
      {
        ghost var was := procs[..];
        if procs[k].parent == Some(p) {
          procs[k] := procs[k].(parent := Some(INIT));
          assert procs[..] == was[k := was[k].(parent := Some(INIT))];
          Wakeup(WaitOf(INIT), p);
        }
        assert procs[..] == ReparentOne(was, p, k);
        k := k + 1;
      }
      if p != INIT { AdoptedMeans(old(procs[..]), p); }
    }

    method Freeproc(p: nat)
      requires p < procs.Length
      modifies procs
      ensures procs[..] == old(procs[..])[p := Proc(UNUSED, None, None, false, 0, 0)]
    {
      procs[p] := FREEPROC;
    }

    /** allocproc, with room for its pages or without; it takes the first unused slot. */
    method Allocproc(memory: bool) returns (np: Option<nat>)
      requires procs.Length == NPROC
      modifies procs, this`nextpid
      ensures (forall k :: 0 <= k < NPROC ==> old(procs[k]).state != UNUSED) ==>
                np == None && procs[..] == old(procs[..]) && nextpid == old(nextpid)
      ensures (exists k :: 0 <= k < NPROC && old(procs[k]).state == UNUSED) ==> nextpid == old(nextpid) + 1 && np.Some? == memory
      ensures np.Some? ==>
                && np.value < NPROC && old(procs[np.value]).state == UNUSED
                && (forall k :: 0 <= k < np.value ==> old(procs[k]).state != UNUSED)
                && procs[..] == old(procs[..])[np.value := old(procs[np.value]).(pid := old(nextpid), state := USED)]
      ensures np.None? ==>
                forall k :: 0 <= k < NPROC ==>
                  procs[k] == if old(procs[k]).state == UNUSED && forall j :: 0 <= j < k ==> old(procs[j]).state != UNUSED
                              then Proc(UNUSED, None, None, false, 0, 0) else old(procs[k])
    {
      var p := 0;
      while p < NPROC
        invariant p <= NPROC && procs[..] == old(procs[..]) && nextpid == old(nextpid)
        invariant forall k :: 0 <= k < p ==> procs[k].state != UNUSED
      {
        if procs[p].state == UNUSED {
          procs[p] := procs[p].(pid := nextpid, state := USED);
          nextpid := nextpid + 1;
          if !memory {
            Freeproc(p);
            assert procs[..] == old(procs[..])[p := FREEPROC];
            return None;
          }
          return Some(p);
        }
        p := p + 1;
      }
      return None;
    }

    /** kill: the first slot with this pid is marked, and woken from any sleep; 0 if there is one. */
    method Kill(pid: nat) returns (r: int)
      requires procs.Length == NPROC
      modifies procs
      ensures r == 0 <==> exists k :: 0 <= k < NPROC && old(procs[k]).pid == pid
      ensures r == 0 || (r == -1 && procs[..] == old(procs[..]))
      ensures r == 0 ==> forall k :: 0 <= k < NPROC ==>
                procs[k] == if old(procs[k]).pid == pid && forall j :: 0 <= j < k ==> old(procs[j]).pid != pid
                            then old(procs[k]).(killed := true,
                                                state := if old(procs[k]).state == SLEEPING then RUNNABLE else old(procs[k]).state)
                            else old(procs[k])
    {
      var k := 0;
      while k < NPROC
        invariant k <= NPROC && procs[..] == old(procs[..])
        invariant forall j :: 0 <= j < k ==> procs[j].pid != pid
      {
        if procs[k].pid == pid {
          procs[k] := procs[k].(killed := true);
          if procs[k].state == SLEEPING {
            procs[k] := procs[k].(state := RUNNABLE);
          }
          return 0;
        }
        k := k + 1;
      }
      return -1;
    }

    /** One pass of the loop of wait, by p: reap the first zombie child, else give up or sleep. */
    method WaitPass(p: nat, copied: bool) returns (out: Outcome)
      requires procs.Length == NPROC && p < NPROC
      modifies procs
      ensures var was := old(procs[..]);
              match out
              case Reaped(pid, status) =>
                copied && exists z :: 0 <= z < NPROC && FirstZombie(was, p, z) && pid == was[z].pid && status == was[z].xstate
                                      && procs[..] == was[z := Proc(UNUSED, None, None, false, 0, 0)]
              case CopyFailed => !copied && (exists z :: 0 <= z < NPROC && FirstZombie(was, p, z)) && procs[..] == was
              case NoChildren => procs[..] == was && forall k :: 0 <= k < NPROC ==> was[k].parent != Some(p)
              case KilledWaiting =>
                && procs[..] == was && was[p].killed && (exists k :: 0 <= k < NPROC && was[k].parent == Some(p))
                && forall k :: 0 <= k < NPROC ==> !(was[k].parent == Some(p) && was[k].state == ZOMBIE)
              case MustSleep =>
                && procs[..] == was[p := was[p].(state := SLEEPING, chan := Some(WaitOf(p)))]
                && !was[p].killed && (exists k :: 0 <= k < NPROC && was[k].parent == Some(p))
                && forall k :: 0 <= k < NPROC ==> !(was[k].parent == Some(p) && was[k].state == ZOMBIE)
    {
      var havekids := false;
      var k := 0;
      HasChildTurn(procs[..], p, 0);
      while k < NPROC
        invariant k <= NPROC && procs[..] == old(procs[..])
        invariant havekids == HasChild(procs[..], p, k)
        invariant forall j :: 0 <= j < k ==> !(procs[j].parent == Some(p) && procs[j].state == ZOMBIE)
      {
        HasChildTurn(procs[..], p, k);
        if procs[k].parent == Some(p) {
          havekids := true;
          if procs[k].state == ZOMBIE {
            assert FirstZombie(old(procs[..]), p, k);
            if !copied { return CopyFailed; }
            out := Reaped(procs[k].pid, procs[k].xstate);
            Freeproc(k);
            return;
          }
        }
        k := k + 1;
      }
      if !havekids { return NoChildren; }
      if procs[p].killed { return KilledWaiting; }
      procs[p] := procs[p].(state := SLEEPING, chan := Some(WaitOf(p)));
      return MustSleep;
    }
  }
}
