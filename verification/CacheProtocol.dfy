/**
 The buffer cache of bio.c and its users as a state machine: bget and brelse under bcache.lock,
 the sleep-lock of each buffer, pins by the log, and disk transfers by the holder of a buffer.
 plain is the store that the users would see without any cache.
 */
module CacheProtocol {
  import opened Basics

  const NBUF: nat := 30

  type Block = seq<bv8>

  datatype Key = Key(dev: nat, blockno: nat)

  datatype Buf = Buf(key: Key, valid: bool, refcnt: nat, data: Block)

  const EMPTYBUF: Buf := Buf(Key(0, 0), false, 0, [])

  /** order is the list from bcache.head.next on: most recently used first. */
  datatype Cache = Cache(bufs: seq<Buf>, order: seq<nat>)

  // ---- the list -------------------------------------------------------------------------------

  ghost predicate Permutation(order: seq<nat>) {
    && |order| == NBUF
    && (forall i :: 0 <= i < NBUF ==> order[i] < NBUF)
    && Distinct(order)
  }

  predicate CacheSized(c: Cache) {
    |c.bufs| == NBUF && |c.order| == NBUF && forall i :: 0 <= i < NBUF ==> c.order[i] < NBUF
  }

  /** The forward scan of bget from position i: the buffer of the block, NBUF if there is none. */
  function Hit(c: Cache, key: Key, i: nat): (b: nat)
    requires CacheSized(c) && i <= NBUF
    ensures b <= NBUF && (b < NBUF ==> c.bufs[b].key == key)
    decreases NBUF - i
  {
    if i == NBUF then NBUF else if c.bufs[c.order[i]].key == key then c.order[i] else Hit(c, key, i + 1)
  }

  /** The backward scan from position n - 1: the least recently used buffer without references. */
  function Lru(c: Cache, n: nat): (b: nat)
    requires CacheSized(c) && n <= NBUF
    ensures b <= NBUF && (b < NBUF ==> c.bufs[b].refcnt == 0)
  {
    if n == 0 then NBUF else if c.bufs[c.order[n - 1]].refcnt == 0 then c.order[n - 1] else Lru(c, n - 1)
  }

  lemma {:induction false} HitNone(c: Cache, key: Key, i: nat)
    requires CacheSized(c) && i <= NBUF && Hit(c, key, i) == NBUF
    ensures forall j :: i <= j < NBUF ==> c.bufs[c.order[j]].key != key
    decreases NBUF - i
  {
    if i < NBUF { HitNone(c, key, i + 1); }
  }

  /** Every buffer is on the list. */
  lemma OnList(order: seq<nat>, b: nat)
    requires Permutation(order) && b < NBUF
    ensures b in order
  {
    hide Below;
    if b !in order {
      Pigeonhole(order, Below(NBUF) - {b});
    }
  }

  /** Buffer b at the front, the others in their order. */
  function ToFront(order: seq<nat>, b: nat): (r: seq<nat>) {
    [b] + Without(order, b)
  }

  lemma ToFrontPermutes(order: seq<nat>, b: nat)
    requires Permutation(order) && b < NBUF
    ensures Permutation(ToFront(order, b))
  {
    OnList(order, b);
    var i: nat :| i < NBUF && order[i] == b;
    WithoutAt(order, b, i);
    hide Without;
  }

  // ---- operations under bcache.lock -----------------------------------------------------------

  function Ref(c: Cache, b: nat): Cache
    requires b < |c.bufs|
  {
    c.(bufs := c.bufs[b := c.bufs[b].(refcnt := c.bufs[b].refcnt + 1)])
  }

  function Recycle(c: Cache, b: nat, key: Key): Cache
    requires b < |c.bufs|
  {
    c.(bufs := c.bufs[b := Buf(key, false, 1, c.bufs[b].data)])
  }

  /** bget: the buffer and the new cache, None where it panics. */
  function Get(c: Cache, key: Key): Option<(nat, Cache)>
    requires CacheSized(c)
  {
    var b := Hit(c, key, 0);
    if b < NBUF then Some((b, Ref(c, b)))
    else
      var l := Lru(c, NBUF);
      if l < NBUF then Some((l, Recycle(c, l, key))) else None
  }

  /** bunpin. */
  function Unref(c: Cache, b: nat): Cache
    requires b < |c.bufs| && c.bufs[b].refcnt > 0
  {
    c.(bufs := c.bufs[b := c.bufs[b].(refcnt := c.bufs[b].refcnt - 1)])
  }

  /** The part of brelse under bcache.lock. */
  function Drop(c: Cache, b: nat): Cache
    requires b < |c.bufs| && c.bufs[b].refcnt > 0
  {
    var d := Unref(c, b);
    if d.bufs[b].refcnt == 0 then d.(order := ToFront(d.order, b)) else d
  }

  // ---- states and steps -----------------------------------------------------------------------

  datatype Stage = Wants | Holds | Releases

  /** One use of a buffer, from bget to the end of brelse. */
  datatype Use = Use(b: nat, stage: Stage)

  datatype State = State(
    cache: Cache, disk: map<Key, Block>, locked: seq<Option<nat>>, uses: map<nat, Use>, users: seq<set<nat>>,
    pinned: set<nat>, plain: map<Key, Block>)

  function At(store: map<Key, Block>, key: Key): Block {
    if key in store then store[key] else []
  }

  ghost predicate Shape(s: State) {
    CacheSized(s.cache) && Permutation(s.cache.order) && |s.locked| == NBUF && |s.users| == NBUF
  }

  /** Use h holds the lock of its buffer. */
  ghost predicate Held(s: State, h: nat) {
    Shape(s) && h in s.uses && s.uses[h].b < NBUF && s.uses[h].stage == Holds
  }

  ghost predicate Gets(s: State, t: State, h: nat, key: Key) {
    && Shape(s) && h !in s.uses && key.dev != 0 && Get(s.cache, key).Some?
    && var (b, c) := Get(s.cache, key).value;
       b < NBUF
       && t == s.(cache := c, uses := s.uses[h := Use(b, Wants)], users := s.users[b := s.users[b] + {h}])
  }

  ghost predicate Locks(s: State, t: State, h: nat) {
    && Shape(s) && h in s.uses && s.uses[h].b < NBUF && s.uses[h].stage == Wants && s.locked[s.uses[h].b] == None
    && t == s.(uses := s.uses[h := Use(s.uses[h].b, Holds)], locked := s.locked[s.uses[h].b := Some(h)])
  }

  function SetBuf(c: Cache, b: nat, buf: Buf): Cache
    requires b < |c.bufs|
  {
    c.(bufs := c.bufs[b := buf])
  }

  /** bread, on a buffer not valid yet. */
  ghost predicate Fills(s: State, t: State, h: nat) {
    && Held(s, h)
    && var b := s.uses[h].b;
       && !s.cache.bufs[b].valid
       && t == s.(cache := SetBuf(s.cache, b, s.cache.bufs[b].(valid := true, data := At(s.disk, s.cache.bufs[b].key))))
  }

  /** The holder changes the data. */
  ghost predicate Modifies(s: State, t: State, h: nat, data: Block) {
    && Held(s, h)
    && var b := s.uses[h].b;
       && s.cache.bufs[b].valid
       && t == s.(cache := SetBuf(s.cache, b, s.cache.bufs[b].(data := data)),
                  plain := s.plain[s.cache.bufs[b].key := data])
  }

  ghost predicate Writes(s: State, t: State, h: nat) {
    && Held(s, h)
    && var b := s.uses[h].b;
       && s.cache.bufs[b].valid
       && t == s.(disk := s.disk[s.cache.bufs[b].key := s.cache.bufs[b].data])
  }

  /** log_write pins a block that is not yet in the log. */
  ghost predicate Pins(s: State, t: State, h: nat) {
    && Held(s, h) && s.cache.bufs[s.uses[h].b].valid && s.uses[h].b !in s.pinned
    && t == s.(cache := Ref(s.cache, s.uses[h].b), pinned := s.pinned + {s.uses[h].b})
  }

  /** install_trans unpins after it has written the block home. */
  ghost predicate Unpins(s: State, t: State, h: nat) {
    && Held(s, h)
    && var b := s.uses[h].b;
       && b in s.pinned && s.cache.bufs[b].refcnt > 0 && s.cache.bufs[b].data == At(s.disk, s.cache.bufs[b].key)
       && t == s.(cache := Unref(s.cache, b), pinned := s.pinned - {b})
  }

  /** The first half of brelse: a changed block must have gone to the log or to the disk. */
  ghost predicate Unlocks(s: State, t: State, h: nat) {
    && Held(s, h)
    && var b := s.uses[h].b;
       && (s.cache.bufs[b].valid ==> b in s.pinned || s.cache.bufs[b].data == At(s.disk, s.cache.bufs[b].key))
       && t == s.(uses := s.uses[h := Use(b, Releases)], locked := s.locked[b := None])
  }

  /** The second half of brelse. */
  ghost predicate Drops(s: State, t: State, h: nat) {
    && Shape(s) && h in s.uses && s.uses[h].b < NBUF && s.uses[h].stage == Releases && s.cache.bufs[s.uses[h].b].refcnt > 0
    && var b := s.uses[h].b;
       t == s.(cache := Drop(s.cache, b), uses := s.uses - {h}, users := s.users[b := s.users[b] - {h}])
  }

  ghost predicate Step(s: State, t: State) {
    || (exists h, key :: Gets(s, t, h, key))
    || (exists h :: Locks(s, t, h) || Fills(s, t, h) || Writes(s, t, h) || Pins(s, t, h))
    || (exists h, data :: Modifies(s, t, h, data))
    || (exists h :: Unpins(s, t, h) || Unlocks(s, t, h) || Drops(s, t, h))
  }

  /** After binit, with whatever is on the disk. */
  ghost predicate Init(s: State) {
    && Shape(s) && s.uses == map[] && s.pinned == {} && s.plain == s.disk
    && (forall b :: 0 <= b < NBUF ==> s.cache.bufs[b] == EMPTYBUF && s.locked[b] == None && s.users[b] == {})
  }

  // ---- the invariant --------------------------------------------------------------------------

  /** At most one buffer for a block. */
  ghost predicate Unique(s: State)
    requires Shape(s)
  {
    forall a, b :: 0 <= a < b < NBUF && s.cache.bufs[a].key.dev != 0 ==> s.cache.bufs[a].key != s.cache.bufs[b].key
  }

  ghost predicate CountAt(s: State, b: nat)
    requires Shape(s) && b < NBUF
  {
    && s.cache.bufs[b].refcnt == |s.users[b]| + (if b in s.pinned then 1 else 0)
    && (forall h :: h in s.users[b] ==> h in s.uses && s.uses[h].b == b)
    && (s.locked[b].Some? ==> s.locked[b].value in s.users[b])
  }

  ghost predicate UseAt(s: State, h: nat)
    requires Shape(s) && h in s.uses
  {
    && s.uses[h].b < NBUF && h in s.users[s.uses[h].b]
    && s.cache.bufs[s.uses[h].b].key.dev != 0
    && (s.uses[h].stage == Holds <==> s.locked[s.uses[h].b] == Some(h))
  }

  /** A valid buffer that is neither locked nor pinned equals its disk block. */
  ghost predicate CleanAt(s: State, b: nat)
    requires Shape(s) && b < NBUF
  {
    var buf := s.cache.bufs[b];
    && (b in s.pinned ==> buf.valid)
    && (buf.valid ==> buf.key.dev != 0 && buf.data == At(s.plain, buf.key))
    && (buf.valid && s.locked[b] == None && b !in s.pinned ==> buf.data == At(s.disk, buf.key))
  }

  /** A block without a valid buffer is on the disk as the users know it. */
  ghost predicate PlainAt(s: State, key: Key)
    requires Shape(s)
  {
    At(s.plain, key) == At(s.disk, key) || exists b :: 0 <= b < NBUF && s.cache.bufs[b].valid && s.cache.bufs[b].key == key
  }

  ghost predicate Inv(s: State) {
    && Shape(s) && Unique(s)
    && (forall b: nat :: b < NBUF ==> CountAt(s, b))
    && (forall h: nat :: h in s.uses ==> UseAt(s, h))
    && (forall b: nat :: b < NBUF ==> CleanAt(s, b))
    && (forall key :: PlainAt(s, key))
  }

  lemma InitInv(s: State)
    requires Init(s)
    ensures Inv(s)
  {
  }

  // ---- bget -----------------------------------------------------------------------------------

  /** When the scan misses, no buffer has the block. */
  lemma MissedMeansAbsent(c: Cache, key: Key)
    requires CacheSized(c) && Permutation(c.order) && Hit(c, key, 0) == NBUF
    ensures forall b: nat :: b < NBUF ==> c.bufs[b].key != key
  {
    HitNone(c, key, 0);
    forall b: nat | b < NBUF ensures c.bufs[b].key != key {
      OnList(c.order, b);
    }
  }

  /** A new use of buffer b. */
  ghost predicate Joins(s: State, t: State, h: nat, b: nat) {
    && Shape(s) && Shape(t) && b < NBUF && h !in s.uses
    && t.uses == s.uses[h := Use(b, Wants)] && t.users == s.users[b := s.users[b] + {h}]
    && t.locked == s.locked && t.pinned == s.pinned && t.disk == s.disk && t.plain == s.plain
    && t.cache.bufs == s.cache.bufs[b := t.cache.bufs[b]]
    && t.cache.bufs[b].refcnt == s.cache.bufs[b].refcnt + 1 && t.cache.bufs[b].key.dev != 0
  }

  lemma JoinsKeeps(s: State, t: State, h: nat, b: nat)
    requires Inv(s) && Joins(s, t, h, b)
    ensures forall c: nat :: c < NBUF ==> CountAt(t, c)
    ensures forall g: nat :: g in t.uses ==> UseAt(t, g)
  {
    hide Permutation;
    assert CountAt(s, b);
    assert h !in s.users[b];
    forall c: nat | c < NBUF ensures CountAt(t, c) { assert CountAt(s, c); }
    forall g: nat | g in t.uses ensures UseAt(t, g) { if g != h { assert UseAt(s, g); } }
  }

  lemma HitKeeps(s: State, t: State, h: nat, key: Key)
    requires Inv(s) && Gets(s, t, h, key) && Hit(s.cache, key, 0) < NBUF
    ensures Inv(t)
  {
    hide Hit, Lru, Permutation;
    JoinsKeeps(s, t, h, t.uses[h].b);
    hide CountAt, UseAt;
    forall b: nat | b < NBUF ensures CleanAt(t, b) { assert CleanAt(s, b); }
    forall k ensures PlainAt(t, k) { assert PlainAt(s, k); SameKeys(s, t, k); }
  }

  /** The same valid buffers. */
  lemma SameKeys(s: State, t: State, key: Key)
    requires Shape(s) && Shape(t) && PlainAt(s, key) && At(t.plain, key) == At(s.plain, key) && At(t.disk, key) == At(s.disk, key)
    requires forall b: nat :: b < NBUF && s.cache.bufs[b].valid ==> t.cache.bufs[b].valid && t.cache.bufs[b].key == s.cache.bufs[b].key
    ensures PlainAt(t, key)
  {
    if b: nat :| b < NBUF && s.cache.bufs[b].valid && s.cache.bufs[b].key == key {
      assert t.cache.bufs[b].valid;
    }
  }

  lemma MissKeeps(s: State, t: State, h: nat, key: Key)
    requires Inv(s) && Gets(s, t, h, key) && Hit(s.cache, key, 0) == NBUF
    ensures Inv(t)
  {
    MissedMeansAbsent(s.cache, key);
    var b := t.uses[h].b;
    hide Hit, Lru, Permutation;
    assert CountAt(s, b) && CleanAt(s, b);
    assert s.users[b] == {};
    JoinsKeeps(s, t, h, b);
    MissClean(s, t, h, b);
    hide CountAt, UseAt, CleanAt, PlainAt;
    forall a, c | 0 <= a < c < NBUF && t.cache.bufs[a].key.dev != 0 ensures t.cache.bufs[a].key != t.cache.bufs[c].key {}
  }

  /** Recycling a clean buffer loses nothing. */
  lemma MissClean(s: State, t: State, h: nat, b: nat)
    requires Inv(s) && Joins(s, t, h, b) && !t.cache.bufs[b].valid && b !in s.pinned && s.locked[b] == None
    ensures forall c: nat :: c < NBUF ==> CleanAt(t, c)
    ensures forall k :: PlainAt(t, k)
  {
    hide Permutation, CountAt, UseAt, Unique;
    assert CleanAt(s, b);
    forall c: nat | c < NBUF ensures CleanAt(t, c) { assert CleanAt(s, c); }
    forall k ensures PlainAt(t, k) {
      assert PlainAt(s, k);
      if c: nat :| c < NBUF && s.cache.bufs[c].valid && s.cache.bufs[c].key == k {
        if c != b { assert t.cache.bufs[c].valid; }
      }
    }
  }

  // ---- the holder -----------------------------------------------------------------------------

  lemma LocksKeeps(s: State, t: State, h: nat)
    requires Inv(s) && Locks(s, t, h)
    ensures Inv(t)
  {
    hide Permutation, PlainAt;
    assert UseAt(s, h);
    forall b: nat | b < NBUF ensures CountAt(t, b) { assert CountAt(s, b); }
    forall g: nat | g in t.uses ensures UseAt(t, g) { assert UseAt(s, g); }
    forall b: nat | b < NBUF ensures CleanAt(t, b) { assert CleanAt(s, b); }
    SamePlain(s, t);
  }

  lemma SamePlain(s: State, t: State)
    requires Shape(s) && Shape(t) && t.cache == s.cache && t.plain == s.plain && t.disk == s.disk
    requires forall k :: PlainAt(s, k)
    ensures forall k :: PlainAt(t, k)
  {
    hide Permutation;
    forall k ensures PlainAt(t, k) { assert PlainAt(s, k); SameKeys(s, t, k); }
  }

  lemma FillsKeeps(s: State, t: State, h: nat)
    requires Inv(s) && Fills(s, t, h)
    ensures Inv(t)
  {
    hide Permutation;
    assert UseAt(s, h);
    var b := s.uses[h].b;
    forall c: nat | c < NBUF ensures CountAt(t, c) { assert CountAt(s, c); }
    forall g: nat | g in t.uses ensures UseAt(t, g) { assert UseAt(s, g); }
    NotElsewhere(s, b);
    forall c: nat | c < NBUF ensures CleanAt(t, c) { assert CleanAt(s, c); }
    forall k ensures PlainAt(t, k) { assert PlainAt(s, k); SameKeys(s, t, k); }
  }

  /** A referenced buffer that is not valid yet: the users' block is on the disk. */
  lemma NotElsewhere(s: State, b: nat)
    requires Inv(s) && b < NBUF && s.cache.bufs[b].key.dev != 0 && !s.cache.bufs[b].valid
    ensures At(s.plain, s.cache.bufs[b].key) == At(s.disk, s.cache.bufs[b].key)
  {
    var key := s.cache.bufs[b].key;
    assert PlainAt(s, key);
    forall c: nat | c < NBUF && s.cache.bufs[c].key == key ensures c == b {}
  }

  lemma ModifiesKeeps(s: State, t: State, h: nat, data: Block)
    requires Inv(s) && Modifies(s, t, h, data)
    ensures Inv(t)
  {
    hide Permutation;
    assert UseAt(s, h);
    var b := s.uses[h].b;
    var key := s.cache.bufs[b].key;
    forall c: nat | c < NBUF ensures CountAt(t, c) { assert CountAt(s, c); }
    forall g: nat | g in t.uses ensures UseAt(t, g) { assert UseAt(s, g); }
    forall c: nat | c < NBUF ensures CleanAt(t, c) { assert CleanAt(s, c); }
    forall k ensures PlainAt(t, k) {
      assert PlainAt(s, k);
      if k == key { assert t.cache.bufs[b].valid; } else { SameKeys(s, t, k); }
    }
  }

  lemma WritesKeeps(s: State, t: State, h: nat)
    requires Inv(s) && Writes(s, t, h)
    ensures Inv(t)
  {
    hide Permutation;
    assert UseAt(s, h);
    var b := s.uses[h].b;
    var key := s.cache.bufs[b].key;
    forall c: nat | c < NBUF ensures CountAt(t, c) { assert CountAt(s, c); }
    forall g: nat | g in t.uses ensures UseAt(t, g) { assert UseAt(s, g); }
    assert CleanAt(s, b);
    forall c: nat | c < NBUF ensures CleanAt(t, c) { assert CleanAt(s, c); }
    forall k ensures PlainAt(t, k) {
      assert PlainAt(s, k);
      if k == key { assert t.cache.bufs[b].valid; } else { SameKeys(s, t, k); }
    }
  }

  lemma PinsKeeps(s: State, t: State, h: nat)
    requires Inv(s) && (Pins(s, t, h) || Unpins(s, t, h))
    ensures Inv(t)
  {
    hide Permutation;
    assert UseAt(s, h);
    var b := s.uses[h].b;
    assert CleanAt(s, b) && CountAt(s, b);
    forall c: nat | c < NBUF ensures CountAt(t, c) { assert CountAt(s, c); }
    forall g: nat | g in t.uses ensures UseAt(t, g) { assert UseAt(s, g); }
    forall c: nat | c < NBUF ensures CleanAt(t, c) { assert CleanAt(s, c); }
    forall k ensures PlainAt(t, k) { assert PlainAt(s, k); SameKeys(s, t, k); }
  }

  lemma UnlocksKeeps(s: State, t: State, h: nat)
    requires Inv(s) && Unlocks(s, t, h)
    ensures Inv(t)
  {
    hide Permutation, PlainAt;
    assert UseAt(s, h);
    forall c: nat | c < NBUF ensures CountAt(t, c) { assert CountAt(s, c); }
    forall g: nat | g in t.uses ensures UseAt(t, g) { assert UseAt(s, g); }
    forall c: nat | c < NBUF ensures CleanAt(t, c) { assert CleanAt(s, c); }
    SamePlain(s, t);
  }

  lemma DropsKeeps(s: State, t: State, h: nat)
    requires Inv(s) && Drops(s, t, h)
    ensures Inv(t)
  {
    var b := s.uses[h].b;
    ToFrontPermutes(s.cache.order, b);
    hide Permutation, ToFront;
    assert UseAt(s, h) && CountAt(s, b);
    forall c: nat | c < NBUF ensures CountAt(t, c) { assert CountAt(s, c); }
    forall g: nat | g in t.uses ensures UseAt(t, g) { assert UseAt(s, g); }
    forall c: nat | c < NBUF ensures CleanAt(t, c) { assert CleanAt(s, c); }
    forall k ensures PlainAt(t, k) { assert PlainAt(s, k); SameKeys(s, t, k); }
  }

  lemma StepKeeps(s: State, t: State)
    requires Inv(s) && Step(s, t)
    ensures Inv(t)
  {
    hide Inv, Gets, Locks, Fills, Writes, Pins, Modifies, Unpins, Unlocks, Drops, Hit;
    if h, key :| Gets(s, t, h, key) {
      assert CacheSized(s.cache) by { GetsSized(s, t, h, key); }
      if Hit(s.cache, key, 0) < NBUF { HitKeeps(s, t, h, key); } else { MissKeeps(s, t, h, key); }
    } else if h, data :| Modifies(s, t, h, data) {
      ModifiesKeeps(s, t, h, data);
    } else if h :| Locks(s, t, h) || Fills(s, t, h) || Writes(s, t, h) || Pins(s, t, h) {
      if Locks(s, t, h) { LocksKeeps(s, t, h); }
      else if Fills(s, t, h) { FillsKeeps(s, t, h); }
      else if Writes(s, t, h) { WritesKeeps(s, t, h); }
      else { PinsKeeps(s, t, h); }
    } else {
      var h :| Unpins(s, t, h) || Unlocks(s, t, h) || Drops(s, t, h);
      if Unpins(s, t, h) { PinsKeeps(s, t, h); }
      else if Unlocks(s, t, h) { UnlocksKeeps(s, t, h); }
      else { DropsKeeps(s, t, h); }
    }
  }

  lemma GetsSized(s: State, t: State, h: nat, key: Key)
    requires Gets(s, t, h, key)
    ensures CacheSized(s.cache)
  {
  }

  // ---- every run ------------------------------------------------------------------------------

  ghost predicate StepAt(run: seq<State>, k: nat)
    requires k + 1 < |run|
  {
    Step(run[k], run[k + 1])
  }

  ghost predicate IsRun(run: seq<State>) {
    run != [] && Init(run[0]) && forall k :: 0 <= k < |run| - 1 ==> StepAt(run, k)
  }

  lemma {:induction false} RunKeeps(run: seq<State>, k: nat)
    requires IsRun(run) && k < |run|
    ensures Inv(run[k])
  {
    hide Inv, Step;
    if k == 0 {
      InitInv(run[0]);
    } else {
      RunKeeps(run, k - 1);
      assert StepAt(run, k - 1);
      StepKeeps(run[k - 1], run[k]);
    }
  }

  /** Transparency: in every run, what a holder finds in a valid buffer is what the store without
      a cache has for that block. */
  lemma ReadsAgree(run: seq<State>, k: nat, h: nat)
    requires IsRun(run) && k < |run| && h in run[k].uses && run[k].uses[h].stage == Holds
    ensures var s := run[k];
            var b := s.uses[h].b;
            && b < NBUF == |s.cache.bufs| == |s.locked| && s.locked[b] == Some(h)
            && (s.cache.bufs[b].valid ==> s.cache.bufs[b].data == At(s.plain, s.cache.bufs[b].key))
  {
    RunKeeps(run, k);
    assert UseAt(run[k], h) && CleanAt(run[k], run[k].uses[h].b);
  }

  lemma GetsKeepsKey(s: State, t: State, h: nat, key: Key, b: nat)
    requires Gets(s, t, h, key) && b < NBUF && s.cache.bufs[b].refcnt > 0
    ensures t.cache.bufs[b].key == s.cache.bufs[b].key
  {
    hide Permutation, Hit, Lru;
  }

  lemma StepKeepsKey(s: State, t: State, b: nat)
    requires Shape(s) && Shape(t) && Step(s, t) && b < NBUF && s.cache.bufs[b].refcnt > 0
    ensures t.cache.bufs[b].key == s.cache.bufs[b].key
  {
    hide Gets, Drops, Permutation;
    if h, key :| Gets(s, t, h, key) {
      GetsKeepsKey(s, t, h, key, b);
    } else if h :| Drops(s, t, h) {
      DropsKeepsKey(s, t, h, b);
    }
  }

  lemma DropsKeepsKey(s: State, t: State, h: nat, b: nat)
    requires Shape(s) && Drops(s, t, h) && b < NBUF
    ensures |t.cache.bufs| == NBUF && t.cache.bufs[b].key == s.cache.bufs[b].key
  {
    hide Permutation, ToFront;
  }

  /** A buffer with a user or a pin keeps its block: no step recycles it. */
  lemma ReferencedNotRecycled(run: seq<State>, k: nat, b: nat)
    requires IsRun(run) && k + 1 < |run| && b < NBUF && Shape(run[k])
    requires run[k].users[b] != {} || b in run[k].pinned
    ensures Shape(run[k + 1]) && run[k + 1].cache.bufs[b].key == run[k].cache.bufs[b].key
  {
    var s, t := run[k], run[k + 1];
    RunKeeps(run, k);
    RunKeeps(run, k + 1);
    assert StepAt(run, k) && CountAt(s, b);
    hide Step, Permutation;
    StepKeepsKey(s, t, b);
  }

  /** With nothing locked and nothing pinned the disk is the store. */
  lemma QuietMeansWritten(run: seq<State>, k: nat, key: Key)
    requires IsRun(run) && k < |run| && run[k].pinned == {}
    requires forall h :: h in run[k].uses ==> run[k].uses[h].stage != Holds
    ensures At(run[k].disk, key) == At(run[k].plain, key)
  {
    var s := run[k];
    RunKeeps(run, k);
    assert PlainAt(s, key);
    if b: nat :| b < NBUF && s.cache.bufs[b].valid && s.cache.bufs[b].key == key {
      assert CleanAt(s, b) && CountAt(s, b);
      if s.locked[b].Some? { assert UseAt(s, s.locked[b].value); }
    }
  }

  /** bget panics exactly when the block is in no buffer and every buffer is referenced. */
  lemma {:induction false} GetFailsIff(c: Cache, key: Key)
    requires CacheSized(c) && Permutation(c.order)
    ensures Get(c, key).None? <==> forall b: nat :: b < NBUF ==> c.bufs[b].key != key && c.bufs[b].refcnt > 0
  {
    if Hit(c, key, 0) == NBUF { MissedMeansAbsent(c, key); }
    if Lru(c, NBUF) == NBUF {
      LruNone(c, NBUF);
      forall b: nat | b < NBUF ensures c.bufs[b].refcnt > 0 { OnList(c.order, b); }
    }
  }

  lemma {:induction false} LruNone(c: Cache, n: nat)
    requires CacheSized(c) && n <= NBUF && Lru(c, n) == NBUF
    ensures forall i :: 0 <= i < n ==> c.bufs[c.order[i]].refcnt > 0
  {
    if n > 0 { LruNone(c, n - 1); }
  }

  /** The buffer recycled is the one longest unused: everything behind it on the list is in use. */
  lemma {:induction false} RecycledIsOldest(c: Cache, n: nat)
    requires CacheSized(c) && Permutation(c.order) && n <= NBUF && Lru(c, n) < NBUF
    ensures exists i :: 0 <= i < n && c.order[i] == Lru(c, n) && forall j :: i < j < n ==> c.bufs[c.order[j]].refcnt > 0
  {
    if n > 0 && c.bufs[c.order[n - 1]].refcnt > 0 {
      RecycledIsOldest(c, n - 1);
    } else {
      assert c.order[n - 1] == Lru(c, n);
    }
  }

  // ---- how many buffers are enough ----------------------------------------------------------------

  /** The buffers that bget cannot recycle. */
  ghost function Referenced(c: Cache): set<nat>
    requires |c.bufs| == NBUF
  {
    set b: nat | b < NBUF && c.bufs[b].refcnt > 0
  }

  lemma ReferencedBound(c: Cache)
    requires |c.bufs| == NBUF
    ensures |Referenced(c)| <= NBUF
    ensures |Referenced(c)| == NBUF <==> forall b: nat :: b < NBUF ==> c.bufs[b].refcnt > 0
  {
    hide Below;
    var r, all := Referenced(c), Below(NBUF);
    SubsetSize(r, all);
    if forall b: nat :: b < NBUF ==> c.bufs[b].refcnt > 0 {
      assert r == all;
    } else {
      var b: nat :| b < NBUF && c.bufs[b].refcnt == 0;
      SubsetSize(r, all - {b});
    }
  }

  /** The buffers of the uses. */
  ghost function InUse(uses: map<nat, Use>): set<nat> {
    set h | h in uses :: uses[h].b
  }

  lemma {:induction false} InUseBound(uses: map<nat, Use>)
    ensures |InUse(uses)| <= |uses|
    decreases |uses|
  {
    if h :| h in uses {
      var rest := uses - {h};
      InUseBound(rest);
      assert uses == rest[h := uses[h]];
      assert InUse(uses) == InUse(rest) + {uses[h].b};
    } else {
      assert InUse(uses) == {};
    }
  }

  /** Fewer uses and pins than buffers: bget finds one. */
  lemma EnoughBuffers(run: seq<State>, k: nat, key: Key)
    requires IsRun(run) && k < |run| && |run[k].uses| + |run[k].pinned| < NBUF
    ensures CacheSized(run[k].cache) && Get(run[k].cache, key).Some?
  {
    var s := run[k];
    RunKeeps(run, k);
    hide Below, Get;
    InUseBound(s.uses);
    var r := Referenced(s.cache);
    forall b | b in r ensures b in InUse(s.uses) + s.pinned {
      assert CountAt(s, b);
      if b !in s.pinned {
        var h :| h in s.users[b];
        assert h in s.uses;
      }
    }
    SubsetSize(r, InUse(s.uses) + s.pinned);
    ReferencedBound(s.cache);
    GetFailsIff(s.cache, key);
  }

  /** n buffers pinned and m in use, all of them different: the blocks 0 .. n + m - 1 of device 1. */
  ghost predicate Crowded(s: State, n: nat, m: nat) {
    && Inv(s) && |s.pinned| == n && |s.uses| == m && |Referenced(s.cache)| == n + m
    && (forall h :: h in s.uses ==> h < n + m)
    && (forall b: nat :: b < NBUF && s.cache.bufs[b].key.dev != 0 ==> s.cache.bufs[b].key.blockno < n + m)
  }

  lemma Extends(run: seq<State>, t: State)
    requires IsRun(run) && Step(run[|run| - 1], t)
    ensures IsRun(run + [t])
  {
    hide Step;
    var r := run + [t];
    forall k | 0 <= k < |r| - 1 ensures StepAt(r, k) {
      if k < |run| - 1 { assert StepAt(run, k); }
    }
  }

  /** bget of a block not seen before recycles a buffer without references. */
  lemma CrowdMisses(s: State, n: nat, m: nat)
    requires Crowded(s, n, m) && n + m < NBUF
    ensures var key := Key(1, n + m); var b := Lru(s.cache, NBUF);
            && Shape(s) && Hit(s.cache, key, 0) == NBUF && b < NBUF && Get(s.cache, key) == Some((b, Recycle(s.cache, b, key)))
            && s.cache.bufs[b].refcnt == 0 && b !in s.pinned && s.users[b] == {} && s.locked[b] == None
            && n + m !in s.uses
  {
    var key := Key(1, n + m);
    ReferencedBound(s.cache);
    GetFailsIff(s.cache, key);
    var b := Lru(s.cache, NBUF);
    assert Hit(s.cache, key, 0) == NBUF;
    hide Permutation, Hit, Lru, UseAt, CleanAt, PlainAt, Unique;
    assert CountAt(s, b);
  }

  /** One buffer more is referenced, and its block is the next one. */
  lemma CrowdGrows(s: State, t: State, n: nat, m: nat, b: nat)
    requires Crowded(s, n, m) && b < NBUF == |s.cache.bufs| && s.cache.bufs[b].refcnt == 0
    requires t.cache == Recycle(s.cache, b, Key(1, n + m)) && Inv(t) && t.pinned == s.pinned
    requires n + m !in s.uses && t.uses == s.uses[n + m := Use(b, Wants)]
    ensures Crowded(t, n, m + 1)
  {
    hide Inv;
    assert Referenced(t.cache) == Referenced(s.cache) + {b};
  }

  /** bget of one more block takes one more buffer. */
  lemma CrowdGets(s: State, n: nat, m: nat) returns (t: State, b: nat)
    requires Crowded(s, n, m) && n + m < NBUF
    ensures Shape(s) && Gets(s, t, n + m, Key(1, n + m)) && Crowded(t, n, m + 1)
    ensures b < NBUF && b !in s.pinned && t.uses == s.uses[n + m := Use(b, Wants)]
    ensures t.cache.bufs[b] == Buf(Key(1, n + m), false, 1, s.cache.bufs[b].data) && t.locked[b] == None
    ensures t.pinned == s.pinned
  {
    hide Crowded, Permutation, CacheSized, Hit, Lru, Get, Inv, Gets;
    var key, h := Key(1, n + m), n + m;
    CrowdedShape(s, n, m);
    CrowdMisses(s, n, m);
    b := Lru(s.cache, NBUF);
    t := GetsRecycled(s, h, key, b);
    MissKeeps(s, t, h, key);
    CrowdGrows(s, t, n, m, b);
  }

  lemma GetsRecycled(s: State, h: nat, key: Key, b: nat) returns (t: State)
    requires Shape(s) && h !in s.uses && key.dev != 0 && b < NBUF && Get(s.cache, key) == Some((b, Recycle(s.cache, b, key)))
    ensures Gets(s, t, h, key)
    ensures t == s.(cache := Recycle(s.cache, b, key), uses := s.uses[h := Use(b, Wants)], users := t.users)
  {
    hide Permutation, Hit, Lru, Get;
    t := s.(cache := Recycle(s.cache, b, key), uses := s.uses[h := Use(b, Wants)], users := s.users[b := s.users[b] + {h}]);
  }

  lemma Advance(run: seq<State>, t: State)
    requires IsRun(run) && Inv(run[|run| - 1]) && Step(run[|run| - 1], t)
    ensures IsRun(run + [t]) && Inv(t)
  {
    hide Step, Inv;
    Extends(run, t);
    StepKeeps(run[|run| - 1], t);
  }

  /** The one user of buffer b locks it, reads it, has it pinned and lets it go. */
  lemma PinsOne(run: seq<State>, h: nat, b: nat) returns (next: seq<State>)
    requires run != []
    requires var s := run[|run| - 1];
             && IsRun(run) && Inv(s) && Shape(s) && b < NBUF && s.uses == map[h := Use(b, Wants)] && s.locked[b] == None
             && !s.cache.bufs[b].valid && s.cache.bufs[b].refcnt == 1 && b !in s.pinned
    ensures IsRun(next) && next != []
    ensures var s, t := run[|run| - 1], next[|next| - 1];
            && Inv(t) && t.pinned == s.pinned + {b} && t.uses == map[] && |t.cache.bufs| == NBUF
            && t.cache.bufs == s.cache.bufs[b := t.cache.bufs[b]]
            && t.cache.bufs[b].key == s.cache.bufs[b].key && t.cache.bufs[b].refcnt == 1
  {
    hide Inv, Permutation;
    var s1 := run[|run| - 1];
    var buf := s1.cache.bufs[b];
    var s2 := s1.(uses := s1.uses[h := Use(b, Holds)], locked := s1.locked[b := Some(h)]);
    assert Locks(s1, s2, h);
    var s3 := s2.(cache := SetBuf(s2.cache, b, buf.(valid := true, data := At(s2.disk, buf.key))));
    assert Fills(s2, s3, h);
    var s4 := s3.(cache := Ref(s3.cache, b), pinned := s3.pinned + {b});
    assert Pins(s3, s4, h);
    var s5 := s4.(uses := s4.uses[h := Use(b, Releases)], locked := s4.locked[b := None]);
    assert Unlocks(s4, s5, h);
    var s6 := s5.(cache := Drop(s5.cache, b), uses := s5.uses - {h}, users := s5.users[b := s5.users[b] - {h}]);
    assert Drops(s5, s6, h);
    hide Locks, Fills, Pins, Unlocks, Drops;
    Advance(run, s2);
    Advance(run + [s2], s3);
    Advance(run + [s2] + [s3], s4);
    Advance(run + [s2] + [s3] + [s4], s5);
    Advance(run + [s2] + [s3] + [s4] + [s5], s6);
    next := run + [s2] + [s3] + [s4] + [s5] + [s6];
  }

  /** bget, and log_write keeps the buffer pinned. */
  lemma CrowdPins(run: seq<State>, n: nat) returns (next: seq<State>)
    requires IsRun(run) && run != [] && Crowded(run[|run| - 1], n, 0) && n < NBUF
    ensures IsRun(next) && next != [] && Crowded(next[|next| - 1], n + 1, 0)
  {
    hide Inv, Gets, IsRun, Crowded, Shape;
    var s0 := run[|run| - 1];
    CrowdedIdle(s0, n);
    var s1, b := CrowdGets(s0, n, 0);
    assert Step(s0, s1);
    hide Step;
    CrowdedShape(s1, n, 1);
    Advance(run, s1);
    assert s1.uses == map[n := Use(b, Wants)];
    var run1 := run + [s1];
    assert run1[|run1| - 1] == s1;
    next := PinsOne(run1, n, b);
    CrowdPinned(s1, next[|next| - 1], n, b);
  }

  lemma CrowdedShape(s: State, n: nat, m: nat)
    requires Crowded(s, n, m)
    ensures Shape(s) && Inv(s) && |s.cache.bufs| == NBUF
  {
  }

  lemma CrowdedIdle(s: State, n: nat)
    requires Crowded(s, n, 0)
    ensures s.uses == map[] && Inv(s)
  {
  }

  lemma CrowdPinned(s: State, t: State, n: nat, b: nat)
    requires Crowded(s, n, 1) && b < NBUF == |s.cache.bufs| == |t.cache.bufs| && b !in s.pinned && s.cache.bufs[b].refcnt == 1
    requires Inv(t) && t.pinned == s.pinned + {b} && t.uses == map[]
    requires t.cache.bufs == s.cache.bufs[b := t.cache.bufs[b]]
    requires t.cache.bufs[b].key == s.cache.bufs[b].key && t.cache.bufs[b].refcnt == 1
    ensures Crowded(t, n + 1, 0)
  {
    hide Inv;
    assert Referenced(t.cache) == Referenced(s.cache);
  }

  lemma CrowdUses(run: seq<State>, n: nat, m: nat) returns (next: seq<State>)
    requires IsRun(run) && run != [] && Crowded(run[|run| - 1], n, m) && n + m < NBUF
    ensures IsRun(next) && next != [] && Crowded(next[|next| - 1], n, m + 1)
  {
    hide Inv, Gets, IsRun, Crowded, Shape;
    CrowdedShape(run[|run| - 1], n, m);
    var s, b := CrowdGets(run[|run| - 1], n, m);
    assert Step(run[|run| - 1], s);
    hide Step;
    Advance(run, s);
    next := run + [s];
  }

  lemma NobodyCrowds(disk: map<Key, Block>) returns (run: seq<State>)
    ensures IsRun(run) && run != [] && Crowded(run[|run| - 1], 0, 0)
  {
    var s := State(Cache(seq(NBUF, _ => EMPTYBUF), seq(NBUF, i => i)), disk, seq(NBUF, _ => None), map[], seq(NBUF, _ => {}), {}, disk);
    assert Init(s);
    InitInv(s);
    hide Inv;
    assert Referenced(s.cache) == {};
    run := [s];
  }

  /** The bound is sharp for every share of the pins: a group that pins n blocks, and NBUF - n
      buffers in use, leave bget with none. */
  lemma NotEnoughBuffers(n: nat, disk: map<Key, Block>) returns (run: seq<State>)
    requires n <= NBUF
    ensures IsRun(run) && run != []
    ensures var s := run[|run| - 1];
            && |s.pinned| == n && |s.uses| + |s.pinned| == NBUF
            && CacheSized(s.cache) && Get(s.cache, Key(1, NBUF)).None?
  {
    hide IsRun, Crowded, Get;
    run := NobodyCrowds(disk);
    var k := 0;
    while k < n
      invariant k <= n && IsRun(run) && run != [] && Crowded(run[|run| - 1], k, 0)
    {
      run := CrowdPins(run, k);
      k := k + 1;
    }
    k := 0;
    while n + k < NBUF
      invariant n + k <= NBUF && IsRun(run) && run != [] && Crowded(run[|run| - 1], n, k)
    {
      run := CrowdUses(run, n, k);
      k := k + 1;
    }
    CrowdedOut(run[|run| - 1], n);
  }

  lemma CrowdedOut(s: State, n: nat)
    requires n <= NBUF && Crowded(s, n, NBUF - n)
    ensures |s.pinned| == n && |s.uses| == NBUF - n && CacheSized(s.cache) && Get(s.cache, Key(1, NBUF)).None?
  {
    ReferencedBound(s.cache);
    GetFailsIff(s.cache, Key(1, NBUF));
    hide Permutation;
  }

  // ---- what the operations do, said without them ---------------------------------------------------

  /** bget: the buffer of the block with one reference more; else the last buffer of the list without
      references, given to the block; else none. */
  lemma GetMeans(c: Cache, key: Key)
    requires CacheSized(c) && Permutation(c.order)
    ensures match Get(c, key)
            case None => forall b: nat :: b < NBUF ==> c.bufs[b].key != key && c.bufs[b].refcnt > 0
            case Some((b, d)) =>
              && b < NBUF && d.order == c.order
              && (if exists a: nat :: a < NBUF && c.bufs[a].key == key then
                    c.bufs[b].key == key && d.bufs == c.bufs[b := c.bufs[b].(refcnt := c.bufs[b].refcnt + 1)]
                  else
                    && c.bufs[b].refcnt == 0 && d.bufs == c.bufs[b := Buf(key, false, 1, c.bufs[b].data)]
                    && exists i :: 0 <= i < NBUF && c.order[i] == b && forall j :: i < j < NBUF ==> c.bufs[c.order[j]].refcnt > 0)
  {
    if Hit(c, key, 0) == NBUF {
      MissedMeansAbsent(c, key);
      if Lru(c, NBUF) < NBUF { RecycledIsOldest(c, NBUF); }
    }
    GetFailsIff(c, key);
    hide Permutation;
  }

  /** brelse: one reference less; and when that was the last, the buffer is the first of the list, the
      others follow in their order. */
  lemma DropMeans(c: Cache, b: nat)
    requires CacheSized(c) && Permutation(c.order) && b < NBUF && c.bufs[b].refcnt > 0
    ensures var d := Drop(c, b);
            && d.bufs == c.bufs[b := c.bufs[b].(refcnt := c.bufs[b].refcnt - 1)]
            && if c.bufs[b].refcnt > 1 then d.order == c.order
               else exists i :: 0 <= i < NBUF && c.order[i] == b && d.order == [b] + c.order[..i] + c.order[i + 1..]
  {
    OnList(c.order, b);
    var i: nat :| i < NBUF && c.order[i] == b;
    WithoutAt(c.order, b, i);
    hide Without, Permutation;
    assert [b] + (c.order[..i] + c.order[i + 1..]) == [b] + c.order[..i] + c.order[i + 1..];
  }

  // ---- least recently used ----------------------------------------------------------------------------

  /** The last moment up to k at which the count of buffer b fell to 0; 0 if it never did. */
  ghost function Released(run: seq<State>, k: nat, b: nat): (t: nat)
    requires k < |run| && forall j :: 0 <= j <= k ==> b < |run[j].cache.bufs|
    ensures t <= k
  {
    if k == 0 then 0
    else if run[k - 1].cache.bufs[b].refcnt > 0 && run[k].cache.bufs[b].refcnt == 0 then k
    else Released(run, k - 1, b)
  }

  ghost predicate SizedRun(run: seq<State>, k: nat)
    requires k < |run|
  {
    forall j :: 0 <= j <= k ==> |run[j].cache.bufs| == NBUF && CacheSized(run[j].cache)
  }

  lemma RunSized(run: seq<State>, k: nat)
    requires IsRun(run) && k < |run|
    ensures SizedRun(run, k)
  {
    forall j | 0 <= j <= k ensures |run[j].cache.bufs| == NBUF && CacheSized(run[j].cache) {
      RunKeeps(run, j);
      InvSized(run[j]);
    }
  }

  lemma InvSized(s: State)
    requires Inv(s)
    ensures CacheSized(s.cache) && |s.cache.bufs| == NBUF && Permutation(s.cache.order)
  {
  }

  /** a was released later than b, or neither ever. */
  ghost predicate NotEarlier(run: seq<State>, k: nat, a: nat, b: nat)
    requires k < |run| && a < NBUF && b < NBUF && SizedRun(run, k)
  {
    Released(run, k, a) > Released(run, k, b) || Released(run, k, a) == Released(run, k, b) == 0
  }

  /** A step that does not end a use's last reference: the list stays, and no count falls to 0. */
  lemma OthersStay(s: State, t: State)
    requires Inv(s) && Inv(t) && Step(s, t) && !(exists h :: Drops(s, t, h))
    ensures t.cache.order == s.cache.order
    ensures forall b: nat :: b < NBUF && t.cache.bufs[b].refcnt == 0 ==> s.cache.bufs[b].refcnt == 0
  {
    hide Permutation, Drops, UseAt, CleanAt, PlainAt, Unique;
    if h, key :| Gets(s, t, h, key) {
      GetsStay(s, t, h, key);
    } else if h :| Unpins(s, t, h) {
      assert CountAt(s, s.uses[h].b);
      HolderCounts(s, h);
    } else {
      hide Gets;
    }
  }

  lemma GetsStay(s: State, t: State, h: nat, key: Key)
    requires Gets(s, t, h, key)
    ensures t.cache.order == s.cache.order
    ensures forall b: nat :: b < NBUF && t.cache.bufs[b].refcnt == 0 ==> s.cache.bufs[b].refcnt == 0
  {
    hide Permutation, Hit, Lru;
  }

  /** A pinned buffer that is held has two references. */
  lemma HolderCounts(s: State, h: nat)
    requires Inv(s) && Held(s, h) && s.uses[h].b in s.pinned
    ensures s.cache.bufs[s.uses[h].b].refcnt >= 2
  {
    hide Permutation, CleanAt, PlainAt, Unique;
    assert UseAt(s, h) && CountAt(s, s.uses[h].b);
  }

  /** In every run the list has the unreferenced buffers in the order of their last release, the latest
      first. */
  lemma {:induction false} OrderIsRelease(run: seq<State>, k: nat, i: nat, j: nat)
    requires IsRun(run) && k < |run| && SizedRun(run, k) && i < j < NBUF
    requires var c := run[k].cache; c.bufs[c.order[i]].refcnt == 0 && c.bufs[c.order[j]].refcnt == 0
    ensures NotEarlier(run, k, run[k].cache.order[i], run[k].cache.order[j])
    decreases k
  {
    hide Permutation;
    if k > 0 {
      assert SizedRun(run, k - 1);
      assert StepAt(run, k - 1);
      RunKeeps(run, k - 1);
      RunKeeps(run, k);
      var s, t := run[k - 1], run[k];
      if h :| Drops(s, t, h) {
        AfterDrop(run, k, h, i, j);
      } else {
        hide Step, Inv, Drops;
        OthersStay(s, t);
        OrderIsRelease(run, k - 1, i, j);
      }
    }
  }

  lemma AfterDrop(run: seq<State>, k: nat, h: nat, i: nat, j: nat)
    requires IsRun(run) && 0 < k < |run| && SizedRun(run, k) && i < j < NBUF && Drops(run[k - 1], run[k], h) && SizedRun(run, k - 1)
    requires var c := run[k].cache; c.bufs[c.order[i]].refcnt == 0 && c.bufs[c.order[j]].refcnt == 0
    ensures NotEarlier(run, k, run[k].cache.order[i], run[k].cache.order[j])
    decreases k, 0
  {
    var s, t := run[k - 1], run[k];
    var b := s.uses[h].b;
    DropMeans(s.cache, b);
    DropMoves(s.cache, t.cache, b);
    hide Drops, IsRun, Permutation;
    if s.cache.bufs[b].refcnt > 1 {
      OrderIsRelease(run, k - 1, i, j);
    } else if i == 0 {
      assert t.cache.order[0] == b && t.cache.order[j] != b;
    } else {
      var x, y := OldPlaces(s.cache, t.cache, b, i, j);
      OrderIsRelease(run, k - 1, x, y);
    }
  }

  /** The first of the list is the buffer released, once and only there. */
  lemma DropMoves(c: Cache, d: Cache, b: nat)
    requires CacheSized(c) && Permutation(c.order) && b < NBUF && c.bufs[b].refcnt > 0 && d == Drop(c, b)
    ensures c.bufs[b].refcnt == 1 ==> |d.order| == NBUF && d.order[0] == b && forall j :: 0 < j < NBUF ==> d.order[j] != b
  {
    if c.bufs[b].refcnt == 1 { ToFrontPermutes(c.order, b); }
    hide Without;
  }

  lemma OldPlaces(c: Cache, d: Cache, b: nat, i: nat, j: nat) returns (x: nat, y: nat)
    requires CacheSized(c) && Permutation(c.order) && b < NBUF && c.bufs[b].refcnt == 1 && d == Drop(c, b)
    requires 0 < i < j < NBUF
    ensures |d.order| == NBUF && x < y < NBUF && c.order[x] == d.order[i] && c.order[y] == d.order[j]
  {
    DropMeans(c, b);
    hide Drop, Permutation;
    var m :| 0 <= m < NBUF && c.order[m] == b && d.order == [b] + c.order[..m] + c.order[m + 1..];
    x := if i <= m then i - 1 else i;
    y := if j <= m then j - 1 else j;
    FrontAt(c.order, m, i);
    FrontAt(c.order, m, j);
  }

  lemma FrontAt(q: seq<nat>, m: nat, i: nat)
    requires m < |q| && 0 < i < |q|
    ensures var r := [q[m]] + q[..m] + q[m + 1..]; |r| == |q| && r[i] == q[if i <= m then i - 1 else i]
  {
  }

  /** Least recently used: when bget has to recycle, in any run, the buffer it takes is the one whose
      last release lies furthest back. So a block stays cached while a buffer released before it is free. */
  lemma RecyclesLeastRecent(run: seq<State>, k: nat, h: nat, key: Key, a: nat)
    requires IsRun(run) && k + 1 < |run| && Gets(run[k], run[k + 1], h, key)
    requires forall b: nat :: b < |run[k].cache.bufs| ==> run[k].cache.bufs[b].key != key
    requires a < |run[k].cache.bufs| && run[k].cache.bufs[a].refcnt == 0
    ensures SizedRun(run, k) && |run[k + 1].cache.bufs| == NBUF && h in run[k + 1].uses
    ensures var b := run[k + 1].uses[h].b;
            && b < NBUF && run[k].cache.bufs[b].refcnt == 0 && Released(run, k, b) <= Released(run, k, a)
            && (a != b ==> run[k + 1].cache.bufs[a] == run[k].cache.bufs[a])
  {
    var s, t := run[k], run[k + 1];
    var c := s.cache;
    RunSized(run, k);
    RunKeeps(run, k);
    RunKeeps(run, k + 1);
    InvSized(s);
    InvSized(t);
    GetMeans(c, key);
    var b := t.uses[h].b;
    assert t.cache == Get(c, key).value.1 && b == Get(c, key).value.0;
    hide Gets, Get, Inv, IsRun;
    var i: nat :| i < NBUF && c.order[i] == b && forall j :: i < j < NBUF ==> c.bufs[c.order[j]].refcnt > 0;
    OnList(c.order, a);
    var j: nat :| j < NBUF && c.order[j] == a;
    hide Permutation;
    if j < i {
      OrderIsRelease(run, k, j, i);
    }
  }
}
