/**
 copyout, copyin and copyinstr of vm.c: bytes of user memory, through the page table, against the
 flat bytes that an address space shows. A page is a sequence of words; a byte of it is a digit
 of a word in base 256.
 */
module UserCopy {
  import opened PageTree
  import opened VirtualMemory

  type Octet = n: nat | n < 256

  // ---- bytes of a page ----------------------------------------------------------------------------

  function Digit(w: nat, k: nat): Octet {
    if k == 0 then w % 256 else Digit(w / 256, k - 1)
  }

  function SetDigit(w: nat, k: nat, b: Octet): nat {
    if k == 0 then w / 256 * 256 + b else SetDigit(w / 256, k - 1, b) * 256 + w % 256
  }

  lemma {:induction false} DigitSet(w: nat, k: nat, b: Octet, j: nat)
    ensures Digit(SetDigit(w, k, b), j) == if j == k then b else Digit(w, j)
  {
    if k == 0 {
      Shifted(w / 256, b);
    } else {
      Shifted(SetDigit(w / 256, k - 1, b), w % 256);
      if j > 0 { DigitSet(w / 256, k - 1, b, j - 1); }
    }
  }

  lemma Shifted(w: nat, b: Octet)
    ensures (w * 256 + b) / 256 == w && (w * 256 + b) % 256 == b
  {
  }

  function ByteAt(p: Page, o: nat): Octet
    requires o < PGSIZE
  {
    Digit(p[o / 8], o % 8)
  }

  function PutByte(p: Page, o: nat, b: Octet): Page
    requires o < PGSIZE
  {
    p[o / 8 := SetDigit(p[o / 8], o % 8, b)]
  }

  lemma PutByteAt(p: Page, o: nat, b: Octet, x: nat)
    requires o < PGSIZE && x < PGSIZE
    ensures ByteAt(PutByte(p, o, b), x) == if x == o then b else ByteAt(p, x)
  {
    hide Digit, SetDigit;
    DigitSet(p[o / 8], o % 8, b, x % 8);
  }

  /** The first byte of a word is its least. */
  lemma ByteOrder(p: Page, i: nat)
    requires i < NPTE
    ensures 8 * i + 2 < PGSIZE && ByteAt(p, 8 * i) == p[i] % 256
    ensures ByteAt(p, 8 * i + 1) == p[i] / 256 % 256 && ByteAt(p, 8 * i + 2) == p[i] / 65536 % 256
  {
    var w := p[i];
    assert Digit(w, 1) == Digit(w / 256, 0) && Digit(w, 2) == Digit(w / 256, 1) == Digit(w / 256 / 256, 0);
    assert w / 256 / 256 == w / 65536;
  }

  /** memmove into a page. */
  function PutBytes(p: Page, o: nat, s: seq<Octet>): Page
    requires o + |s| <= PGSIZE
    decreases |s|
  {
    if s == [] then p else PutBytes(PutByte(p, o, s[0]), o + 1, s[1..])
  }

  lemma {:induction false} PutBytesAt(p: Page, o: nat, s: seq<Octet>, x: nat)
    requires o + |s| <= PGSIZE && x < PGSIZE
    ensures ByteAt(PutBytes(p, o, s), x) == if o <= x < o + |s| then s[x - o] else ByteAt(p, x)
    decreases |s|
  {
    hide ByteAt, PutByte;
    if s != [] {
      PutByteAt(p, o, s[0], x);
      PutBytesAt(PutByte(p, o, s[0]), o + 1, s[1..], x);
    }
  }

  // ---- bytes of an address space ------------------------------------------------------------------

  /** The page of address a is there for the user. */
  predicate UserOk(m: seq<Page>, r: nat, a: nat) {
    && a < MAXVA
    && var w := Entry(m, r, a / PGSIZE);
       V(w) && w / PTE_U % 2 == 1 && 0 < Ppn(w) < |m|
  }

  function UserByte(m: seq<Page>, r: nat, a: nat): Octet
    requires UserOk(m, r, a)
  {
    ByteAt(m[Ppn(Entry(m, r, a / PGSIZE))], a % PGSIZE)
  }

  /** In plain numbers: valid, marked for the user, and not page 0. */
  lemma UserOkIs(m: seq<Page>, r: nat, a: nat)
    ensures UserOk(m, r, a) <==>
            a < 0x40_0000_0000 && var w := Entry(m, r, a / 4096); w % 2 == 1 && w / 16 % 2 == 1 && 0 < w / 1024 < |m|
    ensures UserOk(m, r, a) ==> UserByte(m, r, a) == ByteAt(m[Entry(m, r, a / 4096) / 1024], a % 4096)
  {
  }

  /** All pages there for the user are frames of its own. The kernel maps what it shares, the
      trampoline and the trap frame, without PTE_U. */
  ghost predicate Private(m: seq<Page>, use: seq<Use>, r: nat) {
    |use| == |m| && forall a: nat {:trigger UserOk(m, r, a)} :: UserOk(m, r, a) ==>
      use[Ppn(Entry(m, r, a / PGSIZE))] == Frame(r, a / PGSIZE)
  }

  /** The same pages are there, and the bytes of r from a on are s; all other bytes of all address
      spaces are as before. */
  ghost predicate Wrote(m: seq<Page>, n: seq<Page>, use: seq<Use>, r: nat, a: nat, s: seq<Octet>) {
    && |n| == |m|
    && (forall t: nat, x: nat {:trigger UserOk(n, t, x)} {:trigger UserOk(m, t, x)} :: Live(use, t) ==>
          UserOk(n, t, x) == UserOk(m, t, x))
    && (forall t: nat, x: nat {:trigger UserByte(n, t, x)} :: Live(use, t) && UserOk(n, t, x) && UserOk(m, t, x) ==>
          UserByte(n, t, x) == if t == r && a <= x < a + |s| then s[x - a] else UserByte(m, t, x))
  }

  lemma WroteNothing(m: seq<Page>, use: seq<Use>, r: nat, a: nat)
    ensures Wrote(m, m, use, r, a, [])
  {
  }

  lemma WroteThen(m: seq<Page>, n: seq<Page>, o: seq<Page>, use: seq<Use>, r: nat, a: nat, s: seq<Octet>, t: seq<Octet>)
    requires Wrote(m, n, use, r, a, s) && Wrote(n, o, use, r, a + |s|, t)
    ensures Wrote(m, o, use, r, a, s + t)
  {
    hide UserOk, UserByte;
    forall q: nat, x: nat | Live(use, q) && UserOk(o, q, x) && UserOk(m, q, x)
      ensures UserByte(o, q, x) == if q == r && a <= x < a + |s + t| then (s + t)[x - a] else UserByte(m, q, x)
    {
      assert UserOk(n, q, x);
      assert UserByte(n, q, x) == if q == r && a <= x < a + |s| then s[x - a] else UserByte(m, q, x);
    }
    forall q: nat, x: nat | Live(use, q) ensures UserOk(o, q, x) == UserOk(m, q, x) {
      assert UserOk(n, q, x) == UserOk(m, q, x);
    }
  }

  /** A piece within the page of address a. */
  lemma PieceWrites(m: seq<Page>, use: seq<Use>, r: nat, a: nat, s: seq<Octet>)
    requires TreeOk(m, use) && Live(use, r) && UserOk(m, r, a) && a % PGSIZE + |s| <= PGSIZE && Private(m, use, r)
    ensures var p := Ppn(Entry(m, r, a / PGSIZE));
            var n := m[p := PutBytes(m[p], a % PGSIZE, s)];
            SameEntries(m, n, use) ==> Wrote(m, n, use, r, a, s)
  {
    var p := Ppn(Entry(m, r, a / PGSIZE));
    var x := PutBytes(m[p], a % PGSIZE, s);
    var n := m[p := x];
    if SameEntries(m, n, use) {
      hide PutBytes, ByteAt, TreeOk, SameEntries, Private, UserOk, UserByte;
      forall t: nat | Live(use, t) ensures forall b: nat :: UserOk(n, t, b) == UserOk(m, t, b) { SameOk(m, n, use, t); }
      forall t: nat, b: nat | Live(use, t) && UserOk(m, t, b) && UserOk(n, t, b)
        ensures UserByte(n, t, b) == if t == r && a <= b < a + |s| then s[b - a] else UserByte(m, t, b)
      {
        PieceByte(m, use, r, a, s, t, b);
        ByteSame(m, n, use, t, b);
      }
    }
  }

  lemma ByteSame(m: seq<Page>, n: seq<Page>, use: seq<Use>, t: nat, b: nat)
    requires SameEntries(m, n, use) && |n| == |m| && Live(use, t) && UserOk(m, t, b) && UserOk(n, t, b)
    ensures Ppn(Entry(m, t, b / PGSIZE)) < |m|
    ensures UserByte(n, t, b) == ByteAt(n[Ppn(Entry(m, t, b / PGSIZE))], b % PGSIZE)
  {
    hide ByteAt, Entry;
  }

  lemma PieceByte(m: seq<Page>, use: seq<Use>, r: nat, a: nat, s: seq<Octet>, t: nat, b: nat)
    requires TreeOk(m, use) && Live(use, r) && UserOk(m, r, a) && a % PGSIZE + |s| <= PGSIZE && Private(m, use, r)
    requires Live(use, t) && UserOk(m, t, b)
    ensures var p := Ppn(Entry(m, r, a / PGSIZE));
            var q := Ppn(Entry(m, t, b / PGSIZE));
            p < |m| && q < |m| &&
            ByteAt(m[p := PutBytes(m[p], a % PGSIZE, s)][q], b % PGSIZE)
            == if t == r && a <= b < a + |s| then s[b - a] else UserByte(m, t, b)
  {
    hide ByteAt, PutBytes, Down, Up, Leaves, Frames;
    var p, q := Ppn(Entry(m, r, a / PGSIZE)), Ppn(Entry(m, t, b / PGSIZE));
    LeafFacts(m, use, t, b / PGSIZE);
    SamePage(a, b, |s|);
    if p == q {
      PutBytesAt(m[p], a % PGSIZE, s, b % PGSIZE);
    }
  }

  lemma SamePage(a: nat, b: nat, n: nat)
    requires a % PGSIZE + n <= PGSIZE
    ensures a <= b < a + n <==> b / PGSIZE == a / PGSIZE && a % PGSIZE <= b % PGSIZE < a % PGSIZE + n
    ensures b / PGSIZE == a / PGSIZE ==> b - a == b % PGSIZE - a % PGSIZE
  {
  }

  /** Addresses on one page are there together. */
  lemma PageOk(m: seq<Page>, r: nat, a: nat, i: nat)
    requires a % PGSIZE + i < PGSIZE
    ensures UserOk(m, r, a + i) == UserOk(m, r, a)
  {
    SamePage(a, a + i, i + 1);
    assert a < MAXVA <==> a / PGSIZE < MAXVPN;
    assert a + i < MAXVA <==> (a + i) / PGSIZE < MAXVPN;
  }

  // ---- the loops ----------------------------------------------------------------------------------

  /** The addresses a .. a + n are there for the user. */
  ghost predicate AllOk(m: seq<Page>, r: nat, a: nat, n: nat) {
    forall x: nat {:trigger UserOk(m, r, x)} :: a <= x < a + n ==> UserOk(m, r, x)
  }

  /** A copy of len bytes has come to position done, at address at: at the start of a page unless
      nothing is done yet. */
  ghost predicate Copying(m: seq<Page>, r: nat, a: nat, len: nat, done: nat, at: nat) {
    && done <= len && AllOk(m, r, a, done)
    && (done < len ==> at == a + done)
  }

  lemma CopyOn(m: seq<Page>, r: nat, a: nat, len: nat, done: nat, at: nat, n: nat)
    requires Copying(m, r, a, len, done, at) && done < len && UserOk(m, r, at)
    requires n == if PGSIZE - at % PGSIZE > len - done then len - done else PGSIZE - at % PGSIZE
    ensures 0 < n && done + n <= len && at % PGSIZE + n <= PGSIZE
    ensures Copying(m, r, a, len, done + n, PGROUNDDOWN(at) + PGSIZE)
  {
    hide UserOk;
    forall x: nat | a <= x < a + done + n ensures UserOk(m, r, x) {
      if a + done <= x { PageOk(m, r, at, x - at); }
    }
  }

  /** Where memory is not there, a copy of len bytes cannot end. */
  lemma CopyStops(m: seq<Page>, r: nat, a: nat, len: nat, done: nat, at: nat)
    requires Copying(m, r, a, len, done, at) && done < len && !UserOk(m, r, at)
    ensures !AllOk(m, r, a, len) && !UserOk(m, r, a + done)
  {
    hide UserOk;
    assert !UserOk(m, r, a + done);
  }

  lemma SameItself(m: seq<Page>, use: seq<Use>)
    ensures SameEntries(m, m, use)
  {
  }

  lemma SameThen(m: seq<Page>, n: seq<Page>, o: seq<Page>, use: seq<Use>)
    requires SameEntries(m, n, use) && SameEntries(n, o, use)
    ensures SameEntries(m, o, use)
  {
  }

  /** What is there for the user depends on the entries alone. */
  lemma SameOk(m: seq<Page>, n: seq<Page>, use: seq<Use>, r: nat)
    requires SameEntries(m, n, use) && |n| == |m| && Live(use, r)
    ensures forall a: nat :: UserOk(n, r, a) == UserOk(m, r, a)
    ensures Private(n, use, r) == Private(m, use, r)
  {
    hide Entry;
    forall a: nat ensures UserOk(n, r, a) == UserOk(m, r, a) {
      assert a < MAXVA ==> a / PGSIZE < MAXVPN;
    }
  }

  /** walkaddr finds the page exactly of the addresses that are there for the user. */
  method Lookup(k: Kernel, root: nat, va: nat) returns (pa: nat)
    requires k.Valid() && Live(k.use, root)
    modifies k
    ensures k.Valid() && k.mem == old(k.mem) && k.use == old(k.use) && k.free == old(k.free)
    ensures pa != 0 <==> UserOk(k.mem, root, va)
    ensures pa != 0 ==> pa == PA(Ppn(Entry(k.mem, root, va / PGSIZE)))
  {
    hide Down, Up, Leaves, Frames, FreeOk;
    var va0 := PGROUNDDOWN(va);
    assert va0 / PGSIZE == va / PGSIZE && (va0 < MAXVA <==> va < MAXVA);
    pa := k.WalkAddr(root, va0);
    if va < MAXVA && V(Entry(k.mem, root, va / PGSIZE)) { LeafFacts(k.mem, k.use, root, va / PGSIZE); }
  }

  /** memmove to the user page at pa, which address at is on. */
  method WritePiece(k: Kernel, root: nat, at: nat, pa: nat, s: seq<Octet>)
    requires k.Valid() && Live(k.use, root) && UserOk(k.mem, root, at) && at % PGSIZE + |s| <= PGSIZE
    requires pa == PA(Ppn(Entry(k.mem, root, at / PGSIZE)))
    modifies k
    ensures k.Valid() && k.use == old(k.use) && k.free == old(k.free) && |k.mem| == |old(k.mem)|
    ensures SameEntries(old(k.mem), k.mem, k.use)
    ensures Private(old(k.mem), k.use, root) ==> Wrote(old(k.mem), k.mem, k.use, root, at, s)
  {
    hide Down, Up, Leaves, Frames, Private, Wrote, SameEntries;
    ghost var m := k.mem;
    var p, o := pa / PGSIZE, at % PGSIZE;
    LeafFacts(m, k.use, root, at / PGSIZE);
    k.mem := k.mem[p := PutBytes(k.mem[p], o, s)];
    OutsideKeepsTree(m, k.use, k.mem, k.use);
    if Private(m, k.use, root) { PieceWrites(m, k.use, root, at, s); }
  }

  /** copyout: 0 if and only if all addresses are there; what was copied is then the first done
      bytes, up to the page that is not there, and no other byte of any address space changes. */
  method Copyout(k: Kernel, root: nat, dstva: nat, src: seq<Octet>) returns (r: int, ghost done: nat)
    requires k.Valid() && Live(k.use, root)
    modifies k
    ensures k.Valid() && k.use == old(k.use) && k.free == old(k.free)
    ensures |k.mem| == |old(k.mem)| && SameEntries(old(k.mem), k.mem, k.use)
    ensures (r == 0 || r == -1) && (r == 0 <==> AllOk(old(k.mem), root, dstva, |src|))
    ensures done <= |src| && (r == 0 ==> done == |src|)
    ensures AllOk(old(k.mem), root, dstva, done) && (r != 0 ==> done < |src| && !UserOk(old(k.mem), root, dstva + done))
    ensures Private(old(k.mem), k.use, root) ==> Wrote(old(k.mem), k.mem, k.use, root, dstva, src[..done])
  {
    hide Down, Up, Leaves, Frames, FreeOk, UserOk, Private, Wrote, SameEntries, AllOk;
    ghost var m := k.mem;
    done := 0;
    WroteNothing(m, k.use, root, dstva);
    SameItself(m, k.use);
    NoneOk(m, root, dstva);
    assert src[..0] == [];
    var left: nat, at: nat := |src|, dstva;
    while left > 0
      invariant k.Valid() && k.use == old(k.use) && k.free == old(k.free) && Live(k.use, root) && |k.mem| == |m|
      invariant SameEntries(m, k.mem, k.use) && left + done == |src| && Copying(m, root, dstva, |src|, done, at)
      invariant Private(m, k.use, root) ==> Wrote(m, k.mem, k.use, root, dstva, src[..done])
    {
      ghost var e := k.mem;
      var pa := Lookup(k, root, at);
      SameOk(m, e, k.use, root);
      if pa == 0 {
        CopyStops(m, root, dstva, |src|, done, at);
        return -1, done;
      }
      var n := if PGSIZE - at % PGSIZE > left then left else PGSIZE - at % PGSIZE;
      CopyOn(m, root, dstva, |src|, done, at, n);
      var i := |src| - left;
      WritePiece(k, root, at, pa, src[i..i + n]);
      SameThen(m, e, k.mem, k.use);
      if Private(m, k.use, root) { WroteThen(m, e, k.mem, k.use, root, dstva, src[..done], src[done..done + n]); }
      assert src[..done] + src[done..done + n] == src[..done + n];
      left := left - n;
      done := done + n;
      at := PGROUNDDOWN(at) + PGSIZE;
    }
    return 0, done;
  }

  lemma NoneOk(m: seq<Page>, r: nat, a: nat)
    ensures AllOk(m, r, a, 0)
  {
  }

  // ---- from the user ------------------------------------------------------------------------------

  /** s are the bytes of the address space from a on. */
  ghost predicate Shows(m: seq<Page>, r: nat, a: nat, s: seq<Octet>) {
    && AllOk(m, r, a, |s|)
    && forall i: nat {:trigger s[i]} :: i < |s| ==> UserOk(m, r, a + i) && s[i] == UserByte(m, r, a + i)
  }

  /** n bytes of a page from o on. */
  function BytesOf(p: Page, o: nat, n: nat): (s: seq<Octet>)
    requires o + n <= PGSIZE
    ensures |s| == n && forall i :: 0 <= i < n ==> s[i] == ByteAt(p, o + i)
  {
    seq<Octet>(n, i requires 0 <= i < n => ByteAt(p, o + i))
  }

  lemma ShowsMore(m: seq<Page>, r: nat, a: nat, s: seq<Octet>, n: nat)
    requires Shows(m, r, a, s) && UserOk(m, r, a + |s|) && (a + |s|) % PGSIZE + n <= PGSIZE
    ensures Shows(m, r, a, s + BytesOf(m[Ppn(Entry(m, r, (a + |s|) / PGSIZE))], (a + |s|) % PGSIZE, n))
  {
    hide Shows, BytesOf;
    ShowsPage(m, r, a + |s|, n);
    ShowsThen(m, r, a, s, BytesOf(m[Ppn(Entry(m, r, (a + |s|) / PGSIZE))], (a + |s|) % PGSIZE, n));
  }

  lemma ShowsPage(m: seq<Page>, r: nat, at: nat, n: nat)
    requires UserOk(m, r, at) && at % PGSIZE + n <= PGSIZE
    ensures Shows(m, r, at, BytesOf(m[Ppn(Entry(m, r, at / PGSIZE))], at % PGSIZE, n))
  {
    PageAllOk(m, r, at, n);
    OkInside(m, r, at);
    var b := BytesOf(m[Ppn(Entry(m, r, at / PGSIZE))], at % PGSIZE, n);
    hide UserOk, UserByte, ByteAt, Entry, AllOk, BytesOf;
    forall i: nat | i < n ensures UserOk(m, r, at + i) && b[i] == UserByte(m, r, at + i) {
      PageByteIs(m, r, at, n, i);
    }
  }

  lemma PageByteIs(m: seq<Page>, r: nat, at: nat, n: nat, i: nat)
    requires UserOk(m, r, at) && at % PGSIZE + n <= PGSIZE && i < n
    ensures UserOk(m, r, at + i) && at / PGSIZE < MAXVPN && Ppn(Entry(m, r, at / PGSIZE)) < |m|
    ensures BytesOf(m[Ppn(Entry(m, r, at / PGSIZE))], at % PGSIZE, n)[i] == UserByte(m, r, at + i)
  {
    PageByte(m, r, at, n, i);
    hide UserByte, ByteAt, Entry;
  }

  lemma PageAllOk(m: seq<Page>, r: nat, at: nat, n: nat)
    requires UserOk(m, r, at) && at % PGSIZE + n <= PGSIZE
    ensures AllOk(m, r, at, n)
  {
    hide UserOk;
    forall x: nat | at <= x < at + n ensures UserOk(m, r, x) { PageOk(m, r, at, x - at); }
  }

  lemma ShowsThen(m: seq<Page>, r: nat, a: nat, s: seq<Octet>, b: seq<Octet>)
    requires Shows(m, r, a, s) && Shows(m, r, a + |s|, b)
    ensures Shows(m, r, a, s + b)
  {
    hide UserOk, UserByte;
    var t := s + b;
    forall i: nat | i < |t| ensures UserOk(m, r, a + i) && t[i] == UserByte(m, r, a + i) {
      if i < |s| { assert t[i] == s[i]; } else { assert t[i] == b[i - |s|]; }
    }
  }

  lemma PageByte(m: seq<Page>, r: nat, at: nat, n: nat, i: nat)
    requires UserOk(m, r, at) && at % PGSIZE + n <= PGSIZE && i < n
    ensures UserOk(m, r, at + i) && at / PGSIZE < MAXVPN && Ppn(Entry(m, r, at / PGSIZE)) < |m|
    ensures UserByte(m, r, at + i) == ByteAt(m[Ppn(Entry(m, r, at / PGSIZE))], at % PGSIZE + i)
  {
    hide ByteAt, Entry;
    PageOk(m, r, at, i);
    SamePage(at, at + i, n);
  }

  /** copyin: 0 if and only if all addresses are there; then dst is what they show. */
  method Copyin(k: Kernel, root: nat, srcva: nat, len: nat) returns (r: int, dst: seq<Octet>)
    requires k.Valid() && Live(k.use, root)
    modifies k
    ensures k.Valid() && k.use == old(k.use) && k.free == old(k.free) && k.mem == old(k.mem)
    ensures (r == 0 || r == -1) && (r == 0 <==> AllOk(k.mem, root, srcva, len))
    ensures Shows(k.mem, root, srcva, dst) && |dst| <= len
    ensures if r == 0 then |dst| == len else |dst| < len && !UserOk(k.mem, root, srcva + |dst|)
  {
    hide Down, Up, Leaves, Frames, FreeOk, UserOk, AllOk, Shows;
    ghost var m := k.mem;
    dst := [];
    ShowsNothing(m, root, srcva);
    NoneOk(m, root, srcva);
    var left: nat, at: nat := len, srcva;
    while left > 0
      invariant k.Valid() && k.use == old(k.use) && k.free == old(k.free) && Live(k.use, root) && k.mem == m
      invariant left + |dst| == len && Copying(m, root, srcva, len, |dst|, at) && Shows(m, root, srcva, dst)
    {
      var pa := Lookup(k, root, at);
      if pa == 0 {
        CopyStops(m, root, srcva, len, |dst|, at);
        return -1, dst;
      }
      var n := if PGSIZE - at % PGSIZE > left then left else PGSIZE - at % PGSIZE;
      CopyOn(m, root, srcva, len, |dst|, at, n);
      OkInside(m, root, at);
      ShowsMore(m, root, srcva, dst, n);
      dst := dst + BytesOf(k.mem[pa / PGSIZE], at % PGSIZE, n);
      left := left - n;
      at := PGROUNDDOWN(at) + PGSIZE;
    }
    return 0, dst;
  }

  lemma OkInside(m: seq<Page>, r: nat, a: nat)
    requires UserOk(m, r, a)
    ensures a / PGSIZE < MAXVPN && Ppn(Entry(m, r, a / PGSIZE)) < |m|
  {
  }

  lemma ShowsNothing(m: seq<Page>, r: nat, a: nat)
    ensures Shows(m, r, a, [])
  {
  }

  /** The string at a, its NUL included, is s. */
  ghost predicate StringAt(m: seq<Page>, r: nat, a: nat, s: seq<Octet>) {
    Shows(m, r, a, s) && s != [] && s[|s| - 1] == 0 && 0 !in s[..|s| - 1]
  }

  /** The inner loop of copyinstr: bytes of page p from o on, up to a NUL or n of them. */
  method CopyChars(p: Page, o: nat, n: nat) returns (t: seq<Octet>, gotNull: bool)
    requires o + n <= PGSIZE
    ensures |t| <= n && t == BytesOf(p, o, |t|)
    ensures if gotNull then t != [] && t[|t| - 1] == 0 && 0 !in t[..|t| - 1] else |t| == n && 0 !in t
  {
    hide ByteAt;
    t, gotNull := [], false;
    while |t| < n
      invariant |t| <= n && t == BytesOf(p, o, |t|) && 0 !in t
      decreases n - |t|
    {
      var b := ByteAt(p, o + |t|);
      ghost var was := t;
      t := t + [b];
      assert t[..|t| - 1] == was;
      if b == 0 {
        return t, true;
      }
    }
  }

  /** copyinstr: 0 if and only if a string of at most max bytes is there, its NUL included; then
      dst is that string. */
  method Copyinstr(k: Kernel, root: nat, srcva: nat, max: nat) returns (r: int, dst: seq<Octet>)
    requires k.Valid() && Live(k.use, root)
    modifies k
    ensures k.Valid() && k.use == old(k.use) && k.free == old(k.free) && k.mem == old(k.mem)
    ensures r == 0 || r == -1
    ensures r == 0 <==> exists s: seq<Octet> :: |s| <= max && StringAt(k.mem, root, srcva, s)
    ensures r == 0 ==> |dst| <= max && StringAt(k.mem, root, srcva, dst)
  {
    hide Down, Up, Leaves, Frames, FreeOk, UserOk, AllOk, Shows;
    ghost var m := k.mem;
    dst := [];
    ShowsNothing(m, root, srcva);
    NoneOk(m, root, srcva);
    var left: nat, at: nat, gotNull := max, srcva, false;
    while !gotNull && left > 0
      invariant k.Valid() && k.use == old(k.use) && k.free == old(k.free) && Live(k.use, root) && k.mem == m
      invariant Shows(m, root, srcva, dst) && |dst| <= max
      invariant if gotNull then StringAt(m, root, srcva, dst) else left + |dst| == max && 0 !in dst
      invariant !gotNull ==> Copying(m, root, srcva, max, |dst|, at)
      decreases if gotNull then 0 else 1, left
    {
      var pa := Lookup(k, root, at);
      if pa == 0 {
        CopyStops(m, root, srcva, max, |dst|, at);
        NoString(m, root, srcva, dst, max);
        return -1, dst;
      }
      var n := if PGSIZE - at % PGSIZE > left then left else PGSIZE - at % PGSIZE;
      CopyOn(m, root, srcva, max, |dst|, at, n);
      OkInside(m, root, at);
      var t;
      t, gotNull := CopyChars(k.mem[pa / PGSIZE], at % PGSIZE, n);
      ShowsMore(m, root, srcva, dst, |t|);
      assert t != [] ==> (dst + t)[..|dst + t| - 1] == dst + t[..|t| - 1];
      dst := dst + t;
      if !gotNull { left := left - n; }
      at := PGROUNDDOWN(at) + PGSIZE;
    }
    if !gotNull { NoString(m, root, srcva, dst, max); }
    r := if gotNull then 0 else -1;
  }

  lemma ShowsAgree(m: seq<Page>, r: nat, a: nat, s: seq<Octet>, t: seq<Octet>)
    requires Shows(m, r, a, s) && Shows(m, r, a, t)
    ensures forall i :: 0 <= i < |s| && i < |t| ==> s[i] == t[i]
  {
    hide UserOk, UserByte;
    forall i: nat | i < |s| && i < |t| ensures s[i] == t[i] {
      assert s[i] == UserByte(m, r, a + i) && t[i] == UserByte(m, r, a + i);
    }
  }

  /** Without a NUL among the bytes that could be read there is no string. */
  lemma NoString(m: seq<Page>, r: nat, a: nat, t: seq<Octet>, max: nat)
    requires Shows(m, r, a, t) && 0 !in t && (|t| >= max || !UserOk(m, r, a + |t|))
    ensures forall s: seq<Octet> :: |s| <= max ==> !StringAt(m, r, a, s)
  {
    hide UserOk, UserByte;
    forall s: seq<Octet> | StringAt(m, r, a, s) ensures |s| > max {
      ShowsAgree(m, r, a, s, t);
      assert |s| - 1 >= |t|;
    }
  }

  /** What is copied out can be copied in again. */
  method OutAndIn(k: Kernel, root: nat, va: nat, s: seq<Octet>) returns (out: int, inn: int, t: seq<Octet>)
    requires k.Valid() && Live(k.use, root) && Private(k.mem, k.use, root)
    modifies k
    ensures out == 0 ==> inn == 0 && t == s
    ensures out == -1 <==> inn == -1
  {
    hide Kernel.Valid, UserOk, UserByte, Private, SameEntries;
    ghost var m := k.mem;
    ghost var done;
    out, done := Copyout(k, root, va, s);
    SameOk(m, k.mem, k.use, root);
    inn, t := Copyin(k, root, va, |s|);
    if out == 0 {
      forall i: nat | i < |s| ensures t[i] == s[i] {
        assert UserOk(m, root, va + i) && UserOk(k.mem, root, va + i);
        assert t[i] == UserByte(k.mem, root, va + i);
      }
    }
  }

  // ---- what a user finds in new memory --------------------------------------------------------------

  lemma ZeroWord(k: nat)
    ensures Digit(0, k) == 0
  {
  }

  /** A page of zero words has zero bytes. */
  lemma ZeroByte(p: Page, o: nat)
    requires o < PGSIZE && forall k :: 0 <= k < 512 ==> p[k] == 0
    ensures ByteAt(p, o) == 0
  {
    ZeroWord(o % 8);
  }

  /** Memory added by uvmalloc reads as zeros, wherever the read begins and ends in it. */
  method GrownReadsZero(k: Kernel, root: nat, oldsz: nat, newsz: nat, xperm: nat, a: nat, len: nat)
    returns (sz: nat, r: int, dst: seq<Octet>)
    requires k.Valid() && Live(k.use, root) && oldsz <= newsz <= MAXVA && xperm in {0, PTE_W, PTE_X, PTE_W + PTE_X}
    requires forall v :: Pages(oldsz) <= v < Pages(newsz) ==> !V(Entry(k.mem, root, v))
    requires (oldsz + 4095) / 4096 * 4096 <= a && a + len <= (newsz + 4095) / 4096 * 4096 && 0 < newsz
    modifies k
    ensures sz != 0 ==> sz == newsz && r == 0 && |dst| == len && forall i :: 0 <= i < len ==> dst[i] == 0
  {
    hide Down, Up, Leaves, Frames, FreeOk, Filled, UserByte, ByteAt, Flags, RangeCleared, TreeGrew;
    ghost var m, u := k.mem, k.use;
    ghost var ok, stop;
    sz, ok, stop := k.UvmAlloc(root, oldsz, newsz, xperm);
    if sz == 0 { return sz, -1, []; }
    assert Live(k.use, root) by { StillLive(m, u, k.mem, k.use, root, oldsz, newsz, xperm); }
    forall x: nat | a <= x < a + len ensures UserOk(k.mem, root, x) && UserByte(k.mem, root, x) == 0 {
      var v := x / PGSIZE;
      assert Pages(oldsz) <= v < Pages(newsz);
      UserFlag(Entry(k.mem, root, v), xperm);
      FrameNotNull(k, root, v);
      ZeroUserByte(k.mem, root, x);
    }
    r, dst := Copyin(k, root, a, len);
    forall i: nat | i < len ensures dst[i] == 0 { assert dst[i] == UserByte(k.mem, root, a + i); }
  }

  lemma StillLive(m: seq<Page>, use: seq<Use>, n: seq<Page>, new': seq<Use>, root: nat, oldsz: nat, newsz: nat, xperm: nat)
    requires Live(use, root) && oldsz <= newsz
    requires Filled(m, use, n, new', root, Pages(oldsz), Pages(newsz), Zeros(Pages(newsz) - Pages(oldsz)),
                    Same(PTE_V + PTE_R + PTE_U + xperm, Pages(newsz) - Pages(oldsz)))
    ensures Live(new', root)
  {
  }

  lemma UserFlag(w: nat, xperm: nat)
    requires Flags(w) == 19 + xperm && xperm in {0, PTE_W, PTE_X, PTE_W + PTE_X}
    ensures w / PTE_U % 2 == 1
  {
    UserBit(w);
  }

  lemma Quotient(q: nat, r: nat)
    ensures (1024 * q + r) / 16 == 64 * q + r / 16
  {
  }

  lemma EvenMore(q: nat, r: nat)
    ensures (64 * q + r) % 2 == r % 2
  {
  }

  /** The flag for users is one of the flags. */
  lemma UserBit(w: nat)
    ensures w / PTE_U % 2 == Flags(w) / PTE_U % 2
  {
    Quotient(w / 1024, w % 1024);
    EvenMore(w / 1024, w % 1024 / 16);
  }

  lemma FrameNotNull(k: Kernel, root: nat, v: nat)
    requires k.Valid() && v < MAXVPN && Ppn(Entry(k.mem, root, v)) < |k.mem|
    requires k.use[Ppn(Entry(k.mem, root, v))] == Frame(root, v)
    ensures Ppn(Entry(k.mem, root, v)) != 0
  {
  }

  lemma ZeroUserByte(m: seq<Page>, root: nat, x: nat)
    requires x < MAXVA && V(Entry(m, root, x / PGSIZE)) && Entry(m, root, x / PGSIZE) / PTE_U % 2 == 1
    requires 0 < Ppn(Entry(m, root, x / PGSIZE)) < |m|
    requires forall k :: 0 <= k < 512 ==> m[Ppn(Entry(m, root, x / PGSIZE))][k] == 0
    ensures UserOk(m, root, x) && UserByte(m, root, x) == 0
  {
    hide ByteAt;
    ZeroByte(m[Ppn(Entry(m, root, x / PGSIZE))], x % PGSIZE);
  }

  /** After fork's uvmcopy the child reads in its memory what the parent reads there. */
  method ChildReadsTheSame(k: Kernel, parent: nat, child: nat, sz: nat, a: nat, len: nat)
    returns (ok: bool, r1: int, s: seq<Octet>, r2: int, t: seq<Octet>)
    requires k.Valid() && Live(k.use, parent) && Live(k.use, child) && parent != child && sz <= MAXVA
    requires forall v :: 0 <= v < Pages(sz) ==> V(Entry(k.mem, parent, v)) && !V(Entry(k.mem, child, v))
    requires a + len <= (sz + 4095) / 4096 * 4096
    modifies k
    ensures ok && r1 == 0 ==> r2 == 0 && t == s
  {
    hide Down, Up, Leaves, Frames, FreeOk, Filled, UserByte, UserOk, ByteAt, Flags, RangeCleared, TreeGrew, Private, OldPages, OldFlags, Pages;
    ghost var m, u := k.mem, k.use;
    ghost var stop;
    ok, stop := k.UvmCopy(parent, child, sz);
    if !ok { return false, -1, [], -1, []; }
    assert Live(k.use, parent) && Live(k.use, child) by { BothLive(m, u, k.mem, k.use, parent, child, sz); }
    r1, s := Copyin(k, parent, a, len);
    r2, t := Copyin(k, child, a, len);
    if r1 == 0 {
      forall x: nat | a <= x < a + len ensures UserOk(k.mem, child, x) && UserOk(k.mem, parent, x) && UserByte(k.mem, child, x) == UserByte(k.mem, parent, x) {
        assert x / PGSIZE < Pages(sz) by { PagesReach(x, sz); }
        assert UserOk(k.mem, parent, x);
        FlagsCopy(k, parent, child, x, sz);
      }
      assert AllOk(k.mem, child, a, len);
      forall i: nat | i < len ensures t[i] == s[i] {
        assert t[i] == UserByte(k.mem, child, a + i) && s[i] == UserByte(k.mem, parent, a + i);
      }
    }
  }

  lemma PagesReach(x: nat, sz: nat)
    requires x < (sz + 4095) / 4096 * 4096
    ensures x / PGSIZE < Pages(sz)
  {
  }

  lemma BothLive(m: seq<Page>, use: seq<Use>, n: seq<Page>, new': seq<Use>, parent: nat, child: nat, sz: nat)
    requires Live(use, parent) && Live(use, child) && sz <= MAXVA
    requires Filled(m, use, n, new', child, 0, Pages(sz), OldPages(m, parent, Pages(sz)), OldFlags(m, parent, Pages(sz)))
    ensures Live(new', parent) && Live(new', child)
  {
    hide OldPages, OldFlags;
  }

  /** Equal flags and equal words make an address of the child show what it shows in the parent. */
  lemma FlagsCopy(k: Kernel, parent: nat, child: nat, x: nat, sz: nat)
    requires x < MAXVA && k.Valid() && UserOk(k.mem, parent, x) && x / PGSIZE < Pages(sz)
    requires var n := k.mem;
             var there, here := Entry(n, parent, x / PGSIZE), Entry(n, child, x / PGSIZE);
             && V(here) && Flags(here) == Flags(there) && Ppn(there) < |n| && Ppn(here) < |n|
             && k.use[Ppn(here)] == Frame(child, x / PGSIZE)
             && forall j :: 0 <= j < 512 ==> n[Ppn(here)][j] == n[Ppn(there)][j]
    ensures UserOk(k.mem, child, x) && UserByte(k.mem, child, x) == UserByte(k.mem, parent, x)
  {
    hide ByteAt;
    var n := k.mem;
    var there, here := Entry(n, parent, x / PGSIZE), Entry(n, child, x / PGSIZE);
    FrameNotNull(k, child, x / PGSIZE);
    SameUserFlag(there, here);
    assert n[Ppn(here)] == n[Ppn(there)];
  }

  lemma SameUserFlag(v: nat, w: nat)
    requires Flags(v) == Flags(w)
    ensures v / PTE_U % 2 == w / PTE_U % 2
  {
    UserBit(v);
    UserBit(w);
  }
}
