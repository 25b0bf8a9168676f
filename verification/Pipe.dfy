/**
 pipe.c: a ring of 512 bytes addressed by two free-running 32-bit counters.

 PipeRing has the structure itself, with the loops that run while its lock is held. Each of
 them is proved to act on the plain queue of unread bytes. PipeProtocol lets any number of
 readers and writers interleave over that queue.
 */
module PipeRing {

  const PIPESIZE: nat := 512
  const WRAP: nat := 0x1_0000_0000   // 2^32, the range of uint

  /** How a stretch of pipewrite under the lock ends. */
  datatype WriteEnd = Slept | Finished | Broken

  function Min(a: nat, b: nat): nat {
    if a <= b then a else b
  }

  /** Where the k-th unread byte lies. */
  function Slot(nread: nat, k: int): nat {
    (nread + k) % WRAP % PIPESIZE
  }

  /** The bytes between the counters, oldest first; the counters may have wrapped. */
  ghost function Unread(data: seq<char>, nread: nat, nwrite: nat): seq<char>
    requires |data| == PIPESIZE
  {
    seq((nwrite - nread) % WRAP, k requires 0 <= k => data[Slot(nread, k)])
  }

  class Pipe {
    const data: array<char>
    var nread: nat
    var nwrite: nat
    var readopen: bool
    var writeopen: bool

    ghost predicate Valid()
      reads this, data
    {
      && data.Length == PIPESIZE && nread < WRAP && nwrite < WRAP
      && (nwrite - nread) % WRAP <= PIPESIZE
    }

    ghost function Queue(): seq<char>
      requires Valid()
      reads this, data
    {
      Unread(data[..], nread, nwrite)
    }

    /** pipealloc */
    constructor ()
      ensures Valid() && Queue() == [] && readopen && writeopen
    {
      data := new char[PIPESIZE](_ => '\0');
      nread, nwrite, readopen, writeopen := 0, 0, true, true;
    }

    /** pipewrite from one acquisition of the lock to the next sleep or return; i bytes of buf
        went in before. All that fits goes in, in order. */
    method Write(buf: seq<char>, i: nat) returns (j: nat, end: WriteEnd)
      requires Valid() && i <= |buf|
      modifies `nwrite, data
      ensures Valid() && i <= j <= |buf|
      ensures !readopen && i < |buf| ==> end == Broken && j == i && Queue() == old(Queue())
      ensures readopen || i == |buf| ==>
                && Queue() == old(Queue()) + buf[i..j]
                && j - i == (if |buf| - i <= 512 - |old(Queue())| then |buf| - i else 512 - |old(Queue())|)
                && end == if j == |buf| then Finished else Slept
    {
      hide Unread, Slot;
      j := i;
      ghost var q := Queue();
      Emptiness(data[..], nread, nwrite);
      while j < |buf|
        invariant Valid() && i <= j <= |buf| && Queue() == q + buf[i..j] && |Queue()| <= PIPESIZE
        invariant i < j ==> readopen
      {
        if !readopen {
          return j, Broken;
        }
        FullMeansFull(nread, nwrite);
        Emptiness(data[..], nread, nwrite);
        if nwrite == (nread + PIPESIZE) % WRAP {
          return j, Slept;
        }
        ghost var was := data[..];
        data[nwrite % PIPESIZE] := buf[j];
        Appended(was, nread, nwrite, buf[j]);
        assert data[..] == was[nwrite % PIPESIZE := buf[j]];
        nwrite := (nwrite + 1) % WRAP;
        assert buf[i..j + 1] == buf[i..j] + [buf[j]];
        j := j + 1;
      }
      end := Finished;
    }

    /** piperead under the lock: asleep, or up to n bytes from the front of the queue. */
    method Read(n: nat) returns (asleep: bool, out: seq<char>)
      requires Valid()
      modifies `nread
      ensures Valid()
      ensures asleep <==> old(Queue()) == [] && writeopen
      ensures |out| == (if n <= |old(Queue())| then n else |old(Queue())|) && old(Queue()) == out + Queue()
    {
      hide Unread;
      out := [];
      ghost var q := Queue();
      Emptiness(data[..], nread, nwrite);
      if nread == nwrite && writeopen {
        return true, [];
      }
      asleep := false;
      while |out| < n
        invariant Valid() && |out| <= n && q == out + Queue()
      {
        Emptiness(data[..], nread, nwrite);
        if nread == nwrite {
          break;
        }
        var ch := data[nread % PIPESIZE];
        Taken(data[..], nread, nwrite);
        ghost var rest := Unread(data[..], (nread + 1) % WRAP, nwrite);
        assert out + ([ch] + rest) == (out + [ch]) + rest;
        out := out + [ch];
        nread := (nread + 1) % WRAP;
      }
    }

    /** pipeclose: one end; the structure is freed when both are closed. */
    method Close(writable: bool) returns (free: bool)
      requires Valid()
      modifies `readopen, `writeopen
      ensures Valid() && Queue() == old(Queue())
      ensures writeopen == (old(writeopen) && !writable) && readopen == (old(readopen) && writable)
      ensures free <==> !readopen && !writeopen
    {
      if writable {
        writeopen := false;
      } else {
        readopen := false;
      }
      free := !readopen && !writeopen;
    }
  }

  lemma Emptiness(data: seq<char>, nread: nat, nwrite: nat)
    requires |data| == PIPESIZE && nread < WRAP && nwrite < WRAP
    ensures |Unread(data, nread, nwrite)| == (nwrite - nread) % WRAP
    ensures nread == nwrite <==> Unread(data, nread, nwrite) == []
  {
  }

  /** The source's test for a full ring, across any wrap of the counters. */
  lemma FullMeansFull(nread: nat, nwrite: nat)
    requires nread < WRAP && nwrite < WRAP && (nwrite - nread) % WRAP <= PIPESIZE
    ensures nwrite == (nread + PIPESIZE) % WRAP <==> (nwrite - nread) % WRAP == PIPESIZE
  {
  }

  /** Since PIPESIZE divides 2^32, a wrapped counter still names the right slot. */
  lemma SlotSurvivesWrap(x: nat)
    ensures x % WRAP % PIPESIZE == x % PIPESIZE
  {
    assert x == x / WRAP * WRAP + x % WRAP;
    assert x / WRAP * WRAP == PIPESIZE * (x / WRAP * 0x80_0000);
    ModPlusMultiple(x % WRAP, x / WRAP * 0x80_0000);
  }

  lemma {:induction false} ModPlusMultiple(a: nat, k: nat)
    ensures (PIPESIZE * k + a) % PIPESIZE == a % PIPESIZE
  {
    if k > 0 {
      ModPlusMultiple(a, k - 1);
      assert PIPESIZE * k + a == PIPESIZE * (k - 1) + a + PIPESIZE;
    }
  }

  lemma Distance(nread: nat, nwrite: nat)
    requires nread < WRAP && nwrite < WRAP
    ensures (nwrite - nread) % WRAP == if nwrite >= nread then nwrite - nread else nwrite + WRAP - nread
    ensures (nread + (nwrite - nread) % WRAP) % WRAP == nwrite
  {
  }

  lemma Appended(data: seq<char>, nread: nat, nwrite: nat, c: char)
    requires |data| == PIPESIZE && nread < WRAP && nwrite < WRAP && (nwrite - nread) % WRAP < PIPESIZE
    ensures ((nwrite + 1) % WRAP - nread) % WRAP == (nwrite - nread) % WRAP + 1
    ensures Unread(data[nwrite % PIPESIZE := c], nread, (nwrite + 1) % WRAP) == Unread(data, nread, nwrite) + [c]
  {
    var n := (nwrite - nread) % WRAP;
    Distance(nread, nwrite);
    Distance(nread, (nwrite + 1) % WRAP);
    forall k: nat | k < n
      ensures Slot(nread, k) != nwrite % PIPESIZE
    {
      SlotSurvivesWrap(nread + k);
      SlotSurvivesWrap(nread + n);
      SlotsDiffer(nread + k, n - k);
    }
  }

  lemma SlotsDiffer(a: nat, d: nat)
    requires 0 < d < PIPESIZE
    ensures (a + d) % PIPESIZE != a % PIPESIZE
  {
  }

  lemma NextSlot(nread: nat, k: nat)
    requires nread < WRAP && 0 < k < WRAP
    ensures Slot(nread, k) == Slot((nread + 1) % WRAP, k - 1)
  {
  }

  lemma Taken(data: seq<char>, nread: nat, nwrite: nat)
    requires |data| == PIPESIZE && nread < WRAP && nwrite < WRAP && nread != nwrite
    ensures ((nwrite - (nread + 1) % WRAP) % WRAP) == (nwrite - nread) % WRAP - 1
    ensures Unread(data, nread, nwrite) == [data[nread % PIPESIZE]] + Unread(data, (nread + 1) % WRAP, nwrite)
  {
    var n := (nwrite - nread) % WRAP;
    Distance(nread, nwrite);
    Distance((nread + 1) % WRAP, nwrite);
    forall k: nat | 0 < k < n
      ensures Slot(nread, k) == Slot((nread + 1) % WRAP, k - 1)
    {
      NextSlot(nread, k);
    }
  }
}

/**
 Readers and writers of one pipe, interleaved. A step is what one process does between taking
 the pipe's lock and giving it up; sleep gives it up and marks the process asleep in one go,
 because wakeup needs the process lock that sleep already holds. No process is killed and no
 user copy fails.
 */
module PipeProtocol {
  import opened PipeRing

  /** A process inside pipewrite, call number id of all (i bytes of buf are in), or piperead. */
  datatype Proc = Writer(id: nat, buf: seq<char>, i: nat, asleep: bool) | Reader(n: nat, asleep: bool)

  /** A call of piperead that has come back: the bytes asked for, and what it got. */
  datatype Got = Got(n: nat, bytes: seq<char>)

  /** The rest is history. written and taken are all bytes put in and taken out so far, tags says for
      each byte written by which call of pipewrite; bufs are the buffers that the calls were handed,
      ended says of those that came back whether all of it went in, and gets is what came out. */
  datatype State = State(queue: seq<char>, readopen: bool, writeopen: bool, procs: map<nat, Proc>,
                         written: seq<char>, taken: seq<char>, tags: seq<nat>,
                         bufs: seq<seq<char>>, ended: map<nat, bool>, gets: seq<Got>)

  /** wakeup(&nread) and wakeup(&nwrite) */
  function WakeReaders(procs: map<nat, Proc>): map<nat, Proc> {
    map p | p in procs :: if procs[p].Reader? then Reader(procs[p].n, false) else procs[p]
  }

  function WakeWriters(procs: map<nat, Proc>): map<nat, Proc> {
    map p | p in procs :: if procs[p].Writer? then Writer(procs[p].id, procs[p].buf, procs[p].i, false) else procs[p]
  }

  predicate Awake(s: State, p: nat) {
    p in s.procs && !s.procs[p].asleep && (s.readopen || s.writeopen)
  }

  ghost predicate StartWrite(s: State, t: State, p: nat, buf: seq<char>) {
    p !in s.procs && t == s.(procs := s.procs[p := Writer(|s.bufs|, buf, 0, false)], bufs := s.bufs + [buf])
  }

  ghost predicate StartRead(s: State, t: State, p: nat, n: nat) {
    p !in s.procs && t == s.(procs := s.procs[p := Reader(n, false)])
  }

  ghost predicate RunWriter(s: State, t: State, p: nat) {
    && Awake(s, p) && s.procs[p].Writer? && s.procs[p].i <= |s.procs[p].buf|
    && var w := s.procs[p];
       if w.i < |w.buf| && !s.readopen then
         t == s.(procs := s.procs - {p}, ended := s.ended[w.id := false])
       else
         // Min is not negative: a queue is never longer than PIPESIZE
         var j := w.i + (if |s.queue| <= PIPESIZE then Min(|w.buf| - w.i, PIPESIZE - |s.queue|) else 0);
         t == s.(queue := s.queue + w.buf[w.i..j], written := s.written + w.buf[w.i..j],
                 tags := s.tags + seq(j - w.i, _ => w.id),
                 ended := if j == |w.buf| then s.ended[w.id := true] else s.ended,
                 procs := if j == |w.buf| then WakeReaders(s.procs) - {p}
                          else WakeReaders(s.procs)[p := Writer(w.id, w.buf, j, true)])
  }

  ghost predicate RunReader(s: State, t: State, p: nat) {
    && Awake(s, p) && s.procs[p].Reader?
    && if s.queue == [] && s.writeopen then
         t == s.(procs := s.procs[p := Reader(s.procs[p].n, true)])
       else
         var m := Min(s.procs[p].n, |s.queue|);
         t == s.(queue := s.queue[m..], taken := s.taken + s.queue[..m], procs := WakeWriters(s.procs) - {p},
                 gets := s.gets + [Got(s.procs[p].n, s.queue[..m])])
  }

  ghost predicate Close(s: State, t: State, writable: bool) {
    && (s.readopen || s.writeopen)
    && t == if writable then s.(writeopen := false, procs := WakeReaders(s.procs))
            else s.(readopen := false, procs := WakeWriters(s.procs))
  }

  ghost predicate Step(s: State, t: State) {
    || (exists p, buf :: StartWrite(s, t, p, buf))
    || (exists p, n :: StartRead(s, t, p, n))
    || (exists p :: RunWriter(s, t, p))
    || (exists p :: RunReader(s, t, p))
    || (exists b :: Close(s, t, b))
  }

  ghost predicate Init(s: State) {
    s == State([], true, true, map[], [], [], [], [], map[], [])
  }

  /** The stream, and why each sleeper sleeps. */
  ghost predicate Inv(s: State) {
    && s.written == s.taken + s.queue && |s.queue| <= PIPESIZE
    && (forall p :: p in s.procs && s.procs[p].Writer? ==> s.procs[p].i <= |s.procs[p].buf|)
    && (forall p :: p in s.procs && s.procs[p].asleep ==>
          if s.procs[p].Reader? then s.queue == [] && s.writeopen
          else |s.queue| == PIPESIZE && s.readopen && s.procs[p].i < |s.procs[p].buf|)
  }

  lemma WriterKeeps(s: State, t: State, p: nat)
    requires Inv(s) && RunWriter(s, t, p)
    ensures Inv(t)
  {
    var w := s.procs[p];
    if w.i == |w.buf| || s.readopen {
      var j := w.i + Min(|w.buf| - w.i, PIPESIZE - |s.queue|);
      assert s.taken + (s.queue + w.buf[w.i..j]) == (s.taken + s.queue) + w.buf[w.i..j];
      if w.i == j {
        assert s.queue + w.buf[w.i..j] == s.queue;
      } else {
        assert forall q :: q in s.procs && s.procs[q].asleep ==> s.procs[q].Reader?;
      }
    }
  }

  lemma ReaderKeeps(s: State, t: State, p: nat)
    requires Inv(s) && RunReader(s, t, p)
    ensures Inv(t)
  {
    if s.queue != [] || !s.writeopen {
      var m := Min(s.procs[p].n, |s.queue|);
      assert s.taken + s.queue == (s.taken + s.queue[..m]) + s.queue[m..];
      if s.queue == [] {
        assert s.queue[m..] == s.queue;
      }
    }
  }

  lemma OthersKeep(s: State, t: State)
    requires Inv(s) && ((exists p, buf :: StartWrite(s, t, p, buf)) || (exists p, n :: StartRead(s, t, p, n)) || exists b :: Close(s, t, b))
    ensures Inv(t)
  {
  }

  lemma StepKeeps(s: State, t: State)
    requires Inv(s) && Step(s, t)
    ensures Inv(t)
  {
    hide Inv, RunWriter, RunReader, StartWrite, StartRead, Close;
    if p :| RunWriter(s, t, p) {
      WriterKeeps(s, t, p);
    } else if p :| RunReader(s, t, p) {
      ReaderKeeps(s, t, p);
    } else {
      OthersKeep(s, t);
    }
  }

  ghost predicate StepAt(run: seq<State>, k: nat)
    requires k + 1 < |run|
  {
    Step(run[k], run[k + 1])
  }

  ghost predicate IsRun(run: seq<State>) {
    run != [] && Init(run[0]) && forall k :: 0 <= k < |run| - 1 ==> StepAt(run, k)
  }

  lemma {:induction false} RunKeeps(run: seq<State>, k: nat)
    requires IsRun(run) && k < |run|
    ensures Inv(run[k])
  {
    if k > 0 {
      RunKeeps(run, k - 1);
      assert StepAt(run, k - 1);
      StepKeeps(run[k - 1], run[k]);
    }
  }

  /** What was read is a prefix of what was written, at most PIPESIZE bytes behind. A sleeping
      reader has nothing to read and may still get something; a sleeping writer finds the pipe
      full and someone may still read. So nobody sleeps through a wakeup, and a reader and a
      writer never sleep at the same time. */
  lemma Stream(run: seq<State>, k: nat)
    requires IsRun(run) && k < |run|
    ensures var s := run[k];
            && s.taken <= s.written && |s.written| - |s.taken| <= PIPESIZE
            && (forall p :: p in s.procs && s.procs[p].asleep && s.procs[p].Reader? ==> s.taken == s.written && s.writeopen)
            && (forall p :: p in s.procs && s.procs[p].asleep && s.procs[p].Writer? ==>
                  |s.written| == |s.taken| + PIPESIZE && s.readopen)
            && (forall p, q :: p in s.procs && q in s.procs && s.procs[p].asleep && s.procs[q].asleep ==>
                  (s.procs[p].Reader? <==> s.procs[q].Reader?))
  {
    RunKeeps(run, k);
    var s := run[k];
    forall p | p in s.procs && s.procs[p].asleep && s.procs[p].Reader?
      ensures s.taken == s.written
    {
      assert s.taken + [] == s.taken;
    }
  }

  /** Bytes are neither lost nor reordered from any moment to any later one. */
  lemma {:induction false} HistoryGrows(run: seq<State>, j: nat, k: nat)
    requires IsRun(run) && j <= k < |run|
    ensures run[j].written <= run[k].written && run[j].taken <= run[k].taken
    decreases k
  {
    if j < k {
      HistoryGrows(run, j, k - 1);
      assert StepAt(run, k - 1);
      StepGrows(run[k - 1], run[k]);
    }
  }

  lemma StepGrows(s: State, t: State)
    requires Step(s, t)
    ensures s.written <= t.written && s.taken <= t.taken
  {
    if p :| RunWriter(s, t, p) {
    } else if p :| RunReader(s, t, p) {
    }
  }

  // ---- what the callers handed in and got back ------------------------------------------------------

  /** The bytes of a history that carry the tag. */
  function Tagged(bytes: seq<char>, tags: seq<nat>, id: nat): (r: seq<char>)
    requires |bytes| == |tags|
  {
    if bytes == [] then [] else
      Tagged(bytes[..|bytes| - 1], tags[..|tags| - 1], id) + if tags[|tags| - 1] == id then [bytes[|bytes| - 1]] else []
  }

  lemma {:induction false} TaggedMore(bytes: seq<char>, tags: seq<nat>, more: seq<char>, tag: nat, id: nat)
    requires |bytes| == |tags|
    ensures |tags + seq(|more|, _ => tag)| == |bytes + more|
    ensures Tagged(bytes + more, tags + seq(|more|, _ => tag), id) == Tagged(bytes, tags, id) + if tag == id then more else []
    decreases |more|
  {
    var b, t := bytes + more, tags + seq(|more|, _ => tag);
    if more == [] {
      assert b == bytes && t == tags;
    } else {
      var m := more[..|more| - 1];
      assert b[..|b| - 1] == bytes + m && t[..|t| - 1] == tags + seq(|m|, _ => tag);
      TaggedMore(bytes, tags, m, tag, id);
    }
  }

  /** What call id of pipewrite has put in, and whether it is under way. */
  ghost predicate CallAt(s: State, id: nat)
    requires |s.tags| == |s.written| && id < |s.bufs|
  {
    var put := Tagged(s.written, s.tags, id);
    && put <= s.bufs[id]
    && (id in s.ended && s.ended[id] ==> put == s.bufs[id])
    && (forall p {:trigger s.procs[p]} :: p in s.procs && s.procs[p].Writer? && s.procs[p].id == id ==>
          id !in s.ended && s.procs[p].buf == s.bufs[id] && s.procs[p].i == |put|)
    && (id !in s.ended ==> exists p :: p in s.procs && s.procs[p].Writer? && s.procs[p].id == id)
  }

  ghost predicate Calls(s: State) {
    && |s.tags| == |s.written|
    && (forall id: nat {:trigger CallAt(s, id)} :: id < |s.bufs| ==> CallAt(s, id))
    && (forall id :: id in s.ended ==> id < |s.bufs|)
    && (forall p :: p in s.procs && s.procs[p].Writer? ==> s.procs[p].id < |s.bufs|)
    && (forall p, q :: p in s.procs && q in s.procs && p != q && s.procs[p].Writer? && s.procs[q].Writer? ==>
          s.procs[p].id != s.procs[q].id)
    && (forall i :: 0 <= i < |s.tags| ==> s.tags[i] < |s.bufs|)
  }

  /** No byte carries a tag that nobody has. */
  lemma {:induction false} TaggedNone(bytes: seq<char>, tags: seq<nat>, id: nat)
    requires |bytes| == |tags| && forall i :: 0 <= i < |tags| ==> tags[i] != id
    ensures Tagged(bytes, tags, id) == []
    decreases |bytes|
  {
    if bytes != [] { TaggedNone(bytes[..|bytes| - 1], tags[..|tags| - 1], id); }
  }

  lemma StartCalls(s: State, t: State, p: nat, buf: seq<char>)
    requires Calls(s) && StartWrite(s, t, p, buf)
    ensures Calls(t)
  {
    forall id: nat | id < |t.bufs| ensures CallAt(t, id) {
      if id < |s.bufs| {
        assert CallAt(s, id);
        if id !in s.ended {
          var q :| q in s.procs && s.procs[q].Writer? && s.procs[q].id == id;
          assert q in t.procs && t.procs[q] == s.procs[q];
        }
      } else {
        TaggedNone(s.written, s.tags, id);
        assert t.procs[p].id == id;
      }
    }
  }

  /** The same call, as far. */
  predicate SameCall(v: Proc, w: Proc) {
    v.Writer? == w.Writer? && (v.Writer? ==> v.id == w.id && v.buf == w.buf && v.i == w.i)
  }

  /** Writer p has put in m bytes more, and is still there or has ended. */
  ghost predicate Advances(s: State, t: State, p: nat, m: nat) {
    && p in s.procs && s.procs[p].Writer?
    && var w := s.procs[p];
       && w.i + m <= |w.buf| && t.bufs == s.bufs && |s.tags| == |s.written|
       && t.written == s.written + w.buf[w.i..w.i + m] && t.tags == s.tags + seq(m, _ => w.id)
       && t.procs.Keys - {p} == s.procs.Keys - {p}
       && (forall q {:trigger t.procs[q]} :: q in t.procs && q != p ==> q in s.procs && SameCall(t.procs[q], s.procs[q]))
       && if p in t.procs then
            t.ended == s.ended && t.procs[p].Writer? && t.procs[p].id == w.id && t.procs[p].buf == w.buf && t.procs[p].i == w.i + m
          else w.id in t.ended && t.ended == s.ended[w.id := t.ended[w.id]] && (t.ended[w.id] ==> w.i + m == |w.buf|)
  }

  lemma WriterAdvances(s: State, t: State, p: nat) returns (m: nat)
    requires Calls(s) && RunWriter(s, t, p)
    ensures Advances(s, t, p, m)
  {
    hide CallAt;
    var w := s.procs[p];
    if w.i < |w.buf| && !s.readopen {
      m := 0;
      assert w.buf[w.i..w.i + 0] == [] && seq(0, _ => w.id) == [];
    } else {
      m := if |s.queue| <= PIPESIZE then Min(|w.buf| - w.i, PIPESIZE - |s.queue|) else 0;
    }
  }

  /** The history of the call that writes. */
  lemma AdvanceOwn(s: State, t: State, p: nat, m: nat)
    requires Calls(s) && Advances(s, t, p, m)
    ensures |t.tags| == |t.written| && s.procs[p].id < |t.bufs| && CallAt(t, s.procs[p].id)
  {
    hide Tagged;
    var w := s.procs[p];
    assert CallAt(s, w.id) && w.i == |Tagged(s.written, s.tags, w.id)|;
    var more := w.buf[w.i..w.i + m];
    assert |more| == m;
    TaggedMore(s.written, s.tags, more, w.id, w.id);
    assert w.buf[..w.i] + more == w.buf[..w.i + m];
  }

  /** The history of any other call. */
  lemma AdvanceOther(s: State, t: State, p: nat, m: nat, id: nat)
    requires Calls(s) && Advances(s, t, p, m) && id < |s.bufs| && id != s.procs[p].id
    ensures |t.tags| == |t.written| && CallAt(t, id)
  {
    hide Tagged;
    var w := s.procs[p];
    assert CallAt(s, id);
    TaggedMore(s.written, s.tags, w.buf[w.i..w.i + m], w.id, id);
    if id !in t.ended {
      var q :| q in s.procs && s.procs[q].Writer? && s.procs[q].id == id;
      assert q in t.procs.Keys - {p} && SameCall(t.procs[q], s.procs[q]);
    }
  }

  lemma WriteCalls(s: State, t: State, p: nat)
    requires Calls(s) && RunWriter(s, t, p)
    ensures Calls(t)
  {
    var m := WriterAdvances(s, t, p);
    hide RunWriter, CallAt;
    forall id: nat | id < |t.bufs| ensures |t.tags| == |t.written| && CallAt(t, id) {
      if id == s.procs[p].id { AdvanceOwn(s, t, p, m); } else { AdvanceOther(s, t, p, m, id); }
    }
  }

  lemma OtherCalls(s: State, t: State)
    requires Calls(s) && t.written == s.written && t.tags == s.tags && t.bufs == s.bufs && t.ended == s.ended
    requires forall q {:trigger s.procs[q]} :: q in s.procs && s.procs[q].Writer? ==> q in t.procs && SameCall(t.procs[q], s.procs[q])
    requires forall q {:trigger t.procs[q]} :: q in t.procs && t.procs[q].Writer? ==> q in s.procs && s.procs[q].Writer?
    ensures Calls(t)
  {
    forall id: nat | id < |t.bufs| ensures CallAt(t, id) {
      assert CallAt(s, id);
      if id !in s.ended {
        var q :| q in s.procs && s.procs[q].Writer? && s.procs[q].id == id;
        assert q in t.procs && t.procs[q].Writer? && t.procs[q].id == id;
      }
    }
  }

  lemma StepCalls(s: State, t: State)
    requires Calls(s) && Step(s, t)
    ensures Calls(t)
  {
    hide Calls;
    if p, buf :| StartWrite(s, t, p, buf) {
      StartCalls(s, t, p, buf);
    } else if p :| RunWriter(s, t, p) {
      WriteCalls(s, t, p);
    } else {
      OtherCalls(s, t);
    }
  }

  lemma {:induction false} RunCalls(run: seq<State>, k: nat)
    requires IsRun(run) && k < |run|
    ensures Calls(run[k])
  {
    if k > 0 {
      hide Step, Calls;
      RunCalls(run, k - 1);
      assert StepAt(run, k - 1);
      StepCalls(run[k - 1], run[k]);
    }
  }

  /** Whoever writes meanwhile, the bytes of one call of pipewrite in the stream are a first part of the
      buffer it was handed, in order: so much as it counts while it is under way, all of it once it has
      come back complete. */
  lemma CallsInOrder(run: seq<State>, k: nat, id: nat)
    requires IsRun(run) && k < |run| && id < |run[k].bufs|
    ensures var s := run[k];
            && |s.tags| == |s.written|
            && (forall p :: p in s.procs && s.procs[p].Writer? ==> s.procs[p].i <= |s.procs[p].buf|)
            && var put := Tagged(s.written, s.tags, id);
               && put <= s.bufs[id]
               && (forall p :: p in s.procs && s.procs[p].Writer? && s.procs[p].id == id ==>
                     s.procs[p].i <= |s.bufs[id]| && put == s.bufs[id][..s.procs[p].i])
               && (id in s.ended && s.ended[id] ==> put == s.bufs[id])
               && (id in s.ended || exists p :: p in s.procs && s.procs[p].Writer? && s.procs[p].id == id)
  {
    RunCalls(run, k);
    RunKeeps(run, k);
    assert CallAt(run[k], id);
  }

  /** A write comes back incomplete only when nobody can read any more. */
  lemma {:induction false} BrokenMeansClosed(run: seq<State>, k: nat, id: nat)
    requires IsRun(run) && k < |run| && id in run[k].ended && !run[k].ended[id]
    ensures !run[k].readopen
  {
    if k > 0 {
      assert StepAt(run, k - 1);
      if id in run[k - 1].ended && !run[k - 1].ended[id] {
        BrokenMeansClosed(run, k - 1, id);
      }
    }
  }

  lemma {:induction false} TaggedAll(bytes: seq<char>, tags: seq<nat>, id: nat)
    requires |bytes| == |tags| && forall i :: 0 <= i < |tags| ==> tags[i] == id
    ensures Tagged(bytes, tags, id) == bytes
    decreases |bytes|
  {
    if bytes != [] {
      TaggedAll(bytes[..|bytes| - 1], tags[..|tags| - 1], id);
    }
  }

  /** With one write in the run, the stream is what it was handed, as far as it has come. */
  lemma OneWriter(run: seq<State>, k: nat)
    requires IsRun(run) && k < |run| && |run[k].bufs| == 1
    ensures run[k].written <= run[k].bufs[0]
    ensures forall p :: p in run[k].procs && run[k].procs[p].Writer? ==>
              run[k].procs[p].i <= |run[k].bufs[0]| && run[k].written == run[k].bufs[0][..run[k].procs[p].i]
    ensures 0 in run[k].ended && run[k].ended[0] ==> run[k].written == run[k].bufs[0]
  {
    RunCalls(run, k);
    CallsInOrder(run, k, 0);
    TaggedAll(run[k].written, run[k].tags, 0);
  }

  /** All that reads returned, one after the other. */
  function Joined(gets: seq<Got>): seq<char> {
    if gets == [] then [] else Joined(gets[..|gets| - 1]) + gets[|gets| - 1].bytes
  }

  /** Readers get the stream: what the calls of piperead returned, in the order in which they came back,
      is what was taken, none of them more than it asked for. */
  lemma {:induction false} ReadsAreTheStream(run: seq<State>, k: nat)
    requires IsRun(run) && k < |run|
    ensures Joined(run[k].gets) == run[k].taken && run[k].taken <= run[k].written
    ensures forall i :: 0 <= i < |run[k].gets| ==> |run[k].gets[i].bytes| <= run[k].gets[i].n
  {
    RunKeeps(run, k);
    if k > 0 {
      ReadsAreTheStream(run, k - 1);
      assert StepAt(run, k - 1);
      StepReads(run[k - 1], run[k]);
    }
  }

  lemma JoinedMore(gets: seq<Got>, g: Got)
    ensures Joined(gets + [g]) == Joined(gets) + g.bytes
  {
    assert (gets + [g])[..|gets|] == gets;
  }

  lemma StepReads(s: State, t: State)
    requires Step(s, t) && Joined(s.gets) == s.taken
    ensures Joined(t.gets) == t.taken
    ensures t.gets == s.gets || exists g: Got :: t.gets == s.gets + [g] && |g.bytes| <= g.n
  {
    hide Joined;
    if p :| RunReader(s, t, p) {
      hide RunWriter, StartWrite, StartRead, Close, WakeWriters, WakeReaders;
      if t.gets != s.gets {
        JoinedMore(s.gets, t.gets[|s.gets|]);
        assert |t.gets[|s.gets|].bytes| <= t.gets[|s.gets|].n;
      }
    }
  }

  /** A read that comes back takes as much as was asked for and is there. */
  lemma ReadTakesAll(run: seq<State>, k: nat, p: nat)
    requires IsRun(run) && k + 1 < |run| && RunReader(run[k], run[k + 1], p) && p !in run[k + 1].procs
    ensures var s, t := run[k], run[k + 1]; var there := |s.written| - |s.taken|;
            && |t.taken| - |s.taken| == (if s.procs[p].n <= there then s.procs[p].n else there)
            && t.taken <= s.written && |t.gets| == |s.gets| + 1 && t.taken == s.taken + t.gets[|s.gets|].bytes
  {
    RunKeeps(run, k);
    var s := run[k];
    var m := Min(s.procs[p].n, |s.queue|);
    assert s.taken + s.queue == (s.taken + s.queue[..m]) + s.queue[m..];
  }

  /** End of file: a read of n > 0 bytes comes back empty-handed only when the write end is
      closed and all that was ever written has been read. */
  lemma EndOfFile(run: seq<State>, k: nat, p: nat)
    requires IsRun(run) && k + 1 < |run|
    requires RunReader(run[k], run[k + 1], p) && p !in run[k + 1].procs && run[k].procs[p].n > 0
    ensures run[k + 1].taken == run[k].taken <==> !run[k].writeopen && run[k].taken == run[k].written
  {
    RunKeeps(run, k);
    var s := run[k];
    var m := Min(s.procs[p].n, |s.queue|);
    assert |run[k + 1].taken| == |s.taken| + m;
    assert s.queue == [] ==> s.taken + s.queue == s.taken && s.queue[..m] == [];
  }
}
