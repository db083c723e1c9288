/** walkaddr, copyout and copyin of kernel/vm.c: the kernel reads and writes
    user memory, page by page, through the user's page table. */
module VmUser {
  import opened Counting
  import opened PageAllocator
  import opened PageTables
  import opened Vm

  type Byte = x: int | 0 <= x < 256

  // ---------- bytes of a page ----------

  // Byte k of a little-endian word.
  function Digit(w: nat, k: nat): Byte {
    if k == 0 then w % 256 else Digit(w / 256, k - 1)
  }

  function Compose(bs: seq<Byte>): nat {
    if bs == [] then 0 else bs[0] + 256 * Compose(bs[1..])
  }

  lemma {:induction false} DigitOfCompose(bs: seq<Byte>, k: nat)
    requires k < |bs|
    ensures Digit(Compose(bs), k) == bs[k]
  {
    if k > 0 {
      assert Compose(bs) / 256 == Compose(bs[1..]);
      DigitOfCompose(bs[1..], k - 1);
    }
  }

  function ByteOf(page: Page, i: nat): Byte
    requires i < PGSIZE
  {
    Digit(page[i / 8], i % 8)
  }

  // Byte i of the page after memmove of src to off.
  function NewByte(page: Page, off: nat, src: seq<Byte>, i: nat): Byte
    requires off + |src| <= PGSIZE && i < PGSIZE
  {
    if off <= i < off + |src| then src[i - off] else ByteOf(page, i)
  }

  function NewWord(page: Page, off: nat, src: seq<Byte>, j: nat): nat
    requires off + |src| <= PGSIZE && j < 512
  {
    Compose(NewBytes(page, off, src, j))
  }

  function NewBytes(page: Page, off: nat, src: seq<Byte>, j: nat): (bs: seq<Byte>)
    requires off + |src| <= PGSIZE && j < 512
    ensures |bs| == 8 && forall k :: 0 <= k < 8 ==> bs[k] == NewByte(page, off, src, 8 * j + k)
  {
    [NewByte(page, off, src, 8 * j), NewByte(page, off, src, 8 * j + 1), NewByte(page, off, src, 8 * j + 2),
     NewByte(page, off, src, 8 * j + 3), NewByte(page, off, src, 8 * j + 4), NewByte(page, off, src, 8 * j + 5),
     NewByte(page, off, src, 8 * j + 6), NewByte(page, off, src, 8 * j + 7)]
  }

  function MemMove(page: Page, off: nat, src: seq<Byte>): Page
    requires off + |src| <= PGSIZE
  {
    seq(512, j requires 0 <= j < 512 => NewWord(page, off, src, j))
  }

  lemma MovedByte(page: Page, off: nat, src: seq<Byte>, i: nat)
    requires off + |src| <= PGSIZE && i < PGSIZE
    ensures ByteOf(MemMove(page, off, src), i) == NewByte(page, off, src, i)
  {
    var j, k := i / 8, i % 8;
    assert MemMove(page, off, src)[j] == Compose(NewBytes(page, off, src, j));
    DigitOfCompose(NewBytes(page, off, src, j), k);
    assert 8 * j + k == i;
  }

  // ---------- user memory ----------

  predicate IsUser(e: nat) {
    IsValid(e) && e / PTE_U % 2 == 1
  }

  // Address va can be used by the kernel on behalf of the user.
  ghost predicate Accessible(mem: Mem, t: Tree, va: nat)
    requires Wf(mem, t)
  {
    va < MAXVA && IsUser(Lookup(mem, t, va / PGSIZE))
  }

  // User pages are different allocated pages and not tables.
  ghost predicate UserImage(mem: Mem, t: Tree, free: seq<nat>, end: nat) {
    && Wf(mem, t) && end > 0
    && (forall v: nat :: IsUser(Lookup(mem, t, v)) ==> GoodFrame(Frame(mem, t, v), t, free, end) && Frame(mem, t, v) in mem)
    && (forall v: nat, w: nat :: v < w && IsUser(Lookup(mem, t, v)) && IsUser(Lookup(mem, t, w)) ==>
          Frame(mem, t, v) != Frame(mem, t, w))
  }

  // The memory that uvmalloc and uvmcopy build is such an image.
  lemma ImageOfFrames(mem: Mem, t: Tree, free: seq<nat>, end: nat, n: nat)
    requires FramesOk(mem, t, free, end, 0, n) && end > 0 && forall v: nat :: v >= n ==> !IsUser(Lookup(mem, t, v))
    requires forall p: nat :: end <= p * PGSIZE < PHYSTOP ==> p in mem
    ensures UserImage(mem, t, free, end)
  {
    hide Wf, Lookup, IsUser, Frame, Tables;
  }

  ghost function UserByte(mem: Mem, t: Tree, va: nat): Byte
    requires Wf(mem, t) && Frame(mem, t, va / PGSIZE) in mem
  {
    ByteOf(mem[Frame(mem, t, va / PGSIZE)], va % PGSIZE)
  }

  // From mem0 to mem the bytes of src have been written at va, and nothing
  // else in user memory, in the tables or elsewhere has changed.
  ghost predicate Wrote(mem0: Mem, mem: Mem, t: Tree, va: nat, src: seq<Byte>) {
    && SameMap(mem0, t, mem, t) && mem.Keys == mem0.Keys
    && (forall a: nat :: Accessible(mem0, t, a) ==>
          Frame(mem0, t, a / PGSIZE) in mem &&
          UserByte(mem, t, a) == if va <= a < va + |src| then src[a - va] else UserByte(mem0, t, a))
    && (forall p :: p in mem0 && mem[p] != mem0[p] ==> exists v: nat :: IsUser(Lookup(mem0, t, v)) && Frame(mem0, t, v) == p)
  }

  lemma WroteNothing(mem: Mem, t: Tree, va: nat, end: nat, free: seq<nat>)
    requires UserImage(mem, t, free, end)
    ensures Wrote(mem, mem, t, va, [])
  {
    hide Wf, Lookup, GoodFrame, IsUser, Frame, ByteOf;
  }

  lemma WroteSame(mem: Mem, t: Tree, f: nat, page: Page)
    requires Wf(mem, t) && f in mem && f !in Tables(t)
    ensures SameMap(mem, t, mem[f := page], t)
  {
    TablesInMem(mem, t);
    TreeFrame(mem, mem[f := page], t);
  }

  lemma ImageStays(mem: Mem, mem': Mem, t: Tree, free: seq<nat>, end: nat)
    requires UserImage(mem, t, free, end) && SameMap(mem, t, mem', t) && mem'.Keys == mem.Keys
    ensures UserImage(mem', t, free, end)
  {
    hide Wf, Lookup, IsUser, GoodFrame;
  }

  lemma ByteAfter(mem: Mem, t: Tree, free: seq<nat>, end: nat, va: nat, chunk: seq<Byte>, mem': Mem, a: nat)
    requires UserImage(mem, t, free, end) && Accessible(mem, t, va) && va % PGSIZE + |chunk| <= PGSIZE
    requires Frame(mem, t, va / PGSIZE) in mem && SameMap(mem, t, mem', t) && Accessible(mem, t, a)
    requires var f := Frame(mem, t, va / PGSIZE); mem' == mem[f := MemMove(mem[f], va % PGSIZE, chunk)]
    ensures Frame(mem, t, a / PGSIZE) in mem
    ensures UserByte(mem', t, a) == if va <= a < va + |chunk| then chunk[a - va] else UserByte(mem, t, a)
  {
    hide Wf, Lookup, IsUser, MemMove, ByteOf, GoodFrame;
    if a / PGSIZE == va / PGSIZE {
      MovedByte(mem[Frame(mem, t, va / PGSIZE)], va % PGSIZE, chunk, a % PGSIZE);
      SamePage(va, |chunk|, a);
    } else {
      OtherPage(va, |chunk|, a);
      OtherFrame(mem, t, free, end, va / PGSIZE, a / PGSIZE);
    }
  }

  // One iteration of copyout.
  lemma ChunkWrote(mem: Mem, t: Tree, free: seq<nat>, end: nat, va: nat, chunk: seq<Byte>)
    requires UserImage(mem, t, free, end) && Accessible(mem, t, va) && va % PGSIZE + |chunk| <= PGSIZE
    requires Frame(mem, t, va / PGSIZE) in mem
    ensures var f := Frame(mem, t, va / PGSIZE);
      var mem' := mem[f := MemMove(mem[f], va % PGSIZE, chunk)];
      Wrote(mem, mem', t, va, chunk) && UserImage(mem', t, free, end)
  {
    hide Wf, Lookup, IsUser, MemMove, ByteOf, Frame, UserByte, GoodFrame;
    var f := Frame(mem, t, va / PGSIZE);
    var page := MemMove(mem[f], va % PGSIZE, chunk);
    var mem' := mem[f := page];
    NotATable(mem, t, free, end, va / PGSIZE);
    WroteSame(mem, t, f, page);
    ImageStays(mem, mem', t, free, end);
    forall a: nat | Accessible(mem, t, a)
      ensures Frame(mem, t, a / PGSIZE) in mem' && Frame(mem', t, a / PGSIZE) in mem'
      ensures UserByte(mem', t, a) == if va <= a < va + |chunk| then chunk[a - va] else UserByte(mem, t, a)
    {
      SameFrame(mem, mem', t, a / PGSIZE);
      ByteAfter(mem, t, free, end, va, chunk, mem', a);
    }
  }

  lemma NotATable(mem: Mem, t: Tree, free: seq<nat>, end: nat, v: nat)
    requires UserImage(mem, t, free, end) && IsUser(Lookup(mem, t, v))
    ensures Frame(mem, t, v) !in Tables(t)
  {
    hide Wf, Lookup, IsUser;
  }

  lemma SameFrame(mem: Mem, mem': Mem, t: Tree, v: nat)
    requires SameMap(mem, t, mem', t)
    ensures Frame(mem', t, v) == Frame(mem, t, v)
  {
    hide Wf, Lookup;
  }

  lemma SamePage(va: nat, n: nat, a: nat)
    requires va % PGSIZE + n <= PGSIZE && a / PGSIZE == va / PGSIZE
    ensures va <= a < va + n <==> va % PGSIZE <= a % PGSIZE < va % PGSIZE + n
    ensures a - va == a % PGSIZE - va % PGSIZE
  {
  }

  lemma OtherPage(va: nat, n: nat, a: nat)
    requires va % PGSIZE + n <= PGSIZE && a / PGSIZE != va / PGSIZE
    ensures !(va <= a < va + n)
  {
  }

  lemma OtherFrame(mem: Mem, t: Tree, free: seq<nat>, end: nat, v: nat, w: nat)
    requires UserImage(mem, t, free, end) && v != w && IsUser(Lookup(mem, t, v)) && IsUser(Lookup(mem, t, w))
    ensures Frame(mem, t, v) != Frame(mem, t, w) && Frame(mem, t, w) in mem
  {
    hide Wf, Lookup, IsUser, GoodFrame;
    if v < w { } else { assert w < v; }
  }

  lemma WroteTwice(mem0: Mem, mem1: Mem, mem2: Mem, t: Tree, va: nat, s1: seq<Byte>, s2: seq<Byte>)
    requires Wrote(mem0, mem1, t, va, s1) && Wrote(mem1, mem2, t, va + |s1|, s2)
    ensures Wrote(mem0, mem2, t, va, s1 + s2)
  {
    hide Wf, Lookup, IsUser, ByteOf;
  }

  // walkaddr: 0 unless the address is the user's.
  method WalkAddr(machine: Machine, root: nat, va: nat, ghost t: Tree) returns (pa: nat)
    requires machine.ram.Valid() && Owned(machine.ram.mem, t, machine.ram.free) && t.root == root
    requires UserImage(machine.ram.mem, t, machine.ram.free, machine.ram.end)
    modifies machine.ram
    ensures machine.ram.Valid() && machine.ram.mem == old(machine.ram.mem) && machine.ram.free == old(machine.ram.free)
    ensures pa != 0 <==> Accessible(machine.ram.mem, t, va)
    ensures pa != 0 ==> pa == Frame(machine.ram.mem, t, va / PGSIZE) * PGSIZE
  {
    hide Allocator.Valid, Wf, Tables, Elems, Walking, Reached;
    if va >= MAXVA {
      return 0;
    }
    var found, page, index;
    ghost var t';
    found, page, index, t' := machine.Walk(root, va, false, t);
    if !found {
      NotFound(machine.ram.mem, t, va / PGSIZE);
      return 0;
    }
    EntryThere(machine.ram.mem, t, va / PGSIZE, page, index);
    var e := machine.ram.mem[page][index];
    if !IsValid(e) {
      return 0;
    }
    if e / PTE_U % 2 == 0 {
      return 0;
    }
    UserFrame(machine.ram.mem, t, machine.ram.free, machine.ram.end, va / PGSIZE);
    pa := PageOf(e) * PGSIZE;
  }

  lemma NotFound(mem: Mem, t: Tree, vpn: nat)
    requires Wf(mem, t) && Pair(vpn) !in t.low
    ensures !IsUser(Lookup(mem, t, vpn))
  {
  }

  lemma EntryThere(mem: Mem, t: Tree, vpn: nat, page: nat, index: nat)
    requires Wf(mem, t) && Reached(t, vpn, 0, page) && index == vpn % 512
    ensures page in mem && index < 512 && mem[page][index] == Lookup(mem, t, vpn)
  {
    ReachedEntry(mem, t, vpn, page);
  }

  lemma UserFrame(mem: Mem, t: Tree, free: seq<nat>, end: nat, vpn: nat)
    requires UserImage(mem, t, free, end) && IsUser(Lookup(mem, t, vpn))
    ensures Frame(mem, t, vpn) > 0 && Frame(mem, t, vpn) in mem && Frame(mem, t, vpn) !in free
  {
    hide Wf, Lookup, IsUser;
    assert GoodFrame(Frame(mem, t, vpn), t, free, end);
  }

  // Every address of [va, va + n) is the user's.
  ghost predicate AllAccessible(mem: Mem, t: Tree, va: nat, n: nat)
    requires Wf(mem, t)
  {
    forall a: nat :: va <= a < va + n ==> Accessible(mem, t, a)
  }

  lemma PageAccessible(mem: Mem, t: Tree, va: nat, n: nat, m: nat)
    requires Wf(mem, t) && AllAccessible(mem, t, va, n) && Accessible(mem, t, va + n) && (va + n) % PGSIZE + m <= PGSIZE
    ensures AllAccessible(mem, t, va, n + m)
  {
    hide Lookup, IsUser;
    forall a: nat | va + n <= a < va + n + m ensures Accessible(mem, t, a) { }
  }

  lemma StillAccessible(mem0: Mem, mem: Mem, t: Tree, va: nat)
    requires SameMap(mem0, t, mem, t)
    ensures Accessible(mem, t, va) <==> Accessible(mem0, t, va)
  {
    hide Wf, Lookup, IsUser;
  }

  // PGROUNDDOWN stays in the page.
  lemma PageStart(mem: Mem, t: Tree, va: nat)
    requires Wf(mem, t)
    ensures (va - va % PGSIZE) / PGSIZE == va / PGSIZE && (Accessible(mem, t, va - va % PGSIZE) <==> Accessible(mem, t, va))
  {
    hide Lookup, IsUser;
    assert MAXVA == 0x400_0000 * PGSIZE;
    assert va - va % PGSIZE == va / PGSIZE * PGSIZE;
  }

  lemma NoneAccessible(mem: Mem, t: Tree, va: nat)
    requires Wf(mem, t)
    ensures AllAccessible(mem, t, va, 0)
  {
  }

  lemma WroteMaps(mem0: Mem, mem: Mem, t: Tree, va: nat, src: seq<Byte>)
    requires Wrote(mem0, mem, t, va, src)
    ensures SameMap(mem0, t, mem, t) && Wf(mem, t)
  {
  }

  function Min(a: nat, b: nat): nat {
    if a < b then a else b
  }

  // memmove into the page at pa0.
  method PutChunk(machine: Machine, pa0: nat, va: nat, chunk: seq<Byte>, ghost t: Tree)
    requires machine.ram.Valid() && Owned(machine.ram.mem, t, machine.ram.free) && va % PGSIZE + |chunk| <= PGSIZE
    requires UserImage(machine.ram.mem, t, machine.ram.free, machine.ram.end) && Accessible(machine.ram.mem, t, va)
    requires pa0 == Frame(machine.ram.mem, t, va / PGSIZE) * PGSIZE
    modifies machine.ram
    ensures machine.ram.Valid() && Owned(machine.ram.mem, t, machine.ram.free) && machine.ram.free == old(machine.ram.free)
    ensures UserImage(machine.ram.mem, t, machine.ram.free, machine.ram.end)
    ensures Wrote(old(machine.ram.mem), machine.ram.mem, t, va, chunk)
  {
    hide Allocator.Valid, Wf, Tables, Elems, UserImage, Wrote, Lookup, MemMove, SameMap, IsUser;
    UserFrame(machine.ram.mem, t, machine.ram.free, machine.ram.end, va / PGSIZE);
    ChunkWrote(machine.ram.mem, t, machine.ram.free, machine.ram.end, va, chunk);
    var f := pa0 / PGSIZE;
    machine.ram.Store(f, MemMove(machine.ram.mem[f], va % PGSIZE, chunk));
    WroteMaps(old(machine.ram.mem), machine.ram.mem, t, va, chunk);
  }

  // copyout. n bytes have been written: all of them, or as many as come
  // before the first page that is not the user's.
  method CopyOut(machine: Machine, root: nat, dstva: nat, src: seq<Byte>, ghost t: Tree) returns (ok: bool, ghost n: nat)
    requires machine.ram.Valid() && Owned(machine.ram.mem, t, machine.ram.free) && t.root == root
    requires UserImage(machine.ram.mem, t, machine.ram.free, machine.ram.end)
    modifies machine.ram
    ensures machine.ram.Valid() && Owned(machine.ram.mem, t, machine.ram.free) && machine.ram.free == old(machine.ram.free)
    ensures UserImage(machine.ram.mem, t, machine.ram.free, machine.ram.end)
    ensures n <= |src| && Wrote(old(machine.ram.mem), machine.ram.mem, t, dstva, src[..n])
    ensures AllAccessible(old(machine.ram.mem), t, dstva, n)
    ensures if ok then n == |src| else n < |src| && !Accessible(old(machine.ram.mem), t, dstva + n)
  {
    hide Allocator.Valid, Wf, Tables, Elems, UserImage, Wrote, Accessible, AllAccessible, Lookup, MemMove, SameMap;
    ghost var mem0 := machine.ram.mem;
    n := 0;
    WroteNothing(mem0, t, dstva, machine.ram.end, machine.ram.free);
    NoneAccessible(mem0, t, dstva);
    var va, len, from := dstva, |src|, 0;
    while len > 0
      invariant from == n && len == |src| - n && n <= |src| && (len > 0 ==> va == dstva + n)
      invariant machine.ram.Valid() && Owned(machine.ram.mem, t, machine.ram.free) && machine.ram.free == old(machine.ram.free)
      invariant UserImage(machine.ram.mem, t, machine.ram.free, machine.ram.end)
      invariant Wrote(mem0, machine.ram.mem, t, dstva, src[..n]) && AllAccessible(mem0, t, dstva, n)
    {
      WroteMaps(mem0, machine.ram.mem, t, dstva, src[..n]);
      StillAccessible(mem0, machine.ram.mem, t, va);
      var va0 := va - va % PGSIZE;
      PageStart(machine.ram.mem, t, va);
      var pa0 := WalkAddr(machine, root, va0, t);
      if pa0 == 0 {
        return false, n;
      }
      var m := Min(PGSIZE - (va - va0), len);
      ghost var mem1 := machine.ram.mem;
      PutChunk(machine, pa0, va, src[from..from + m], t);
      WroteTwice(mem0, mem1, machine.ram.mem, t, dstva, src[..n], src[from..from + m]);
      assert src[..n] + src[from..from + m] == src[..n + m];
      PageAccessible(mem0, t, dstva, n, m);
      n := n + m;
      len, from := len - m, from + m;
      va := va0 + PGSIZE;
    }
    ok := true;
  }

  // b is the byte of user memory at va.
  ghost predicate IsByte(mem: Mem, t: Tree, va: nat, b: Byte)
    requires Wf(mem, t)
  {
    Accessible(mem, t, va) && Frame(mem, t, va / PGSIZE) in mem && b == UserByte(mem, t, va)
  }

  // dst are bytes of user memory from va on.
  ghost predicate ReadFrom(mem: Mem, t: Tree, va: nat, dst: seq<Byte>) {
    Wf(mem, t) && forall i :: 0 <= i < |dst| ==> IsByte(mem, t, va + i, dst[i])
  }

  // copyin. dst are the bytes read: all of them, or as many as come before the
  // first page that is not the user's.
  method CopyIn(machine: Machine, root: nat, srcva: nat, len0: nat, ghost t: Tree) returns (ok: bool, dst: seq<Byte>)
    requires machine.ram.Valid() && Owned(machine.ram.mem, t, machine.ram.free) && t.root == root
    requires UserImage(machine.ram.mem, t, machine.ram.free, machine.ram.end)
    modifies machine.ram
    ensures machine.ram.Valid() && machine.ram.mem == old(machine.ram.mem) && machine.ram.free == old(machine.ram.free)
    ensures ReadFrom(machine.ram.mem, t, srcva, dst)
    ensures if ok then |dst| == len0 else |dst| < len0 && !Accessible(machine.ram.mem, t, srcva + |dst|)
  {
    hide Allocator.Valid, Wf, Tables, Elems, UserImage, Accessible, Lookup, ReadFrom;
    ghost var mem := machine.ram.mem;
    dst := [];
    NothingRead(mem, t, srcva);
    var va, len := srcva, len0;
    while len > 0
      invariant len == len0 - |dst| && (len > 0 ==> va == srcva + |dst|)
      invariant machine.ram.Valid() && machine.ram.mem == mem && machine.ram.free == old(machine.ram.free)
      invariant ReadFrom(mem, t, srcva, dst)
    {
      var va0 := va - va % PGSIZE;
      PageStart(mem, t, va);
      var pa0 := WalkAddr(machine, root, va0, t);
      if pa0 == 0 {
        return false, dst;
      }
      var n := Min(PGSIZE - (va - va0), len);
      UserThere(mem, t, machine.ram.free, machine.ram.end, va);
      var chunk := BytesOf(machine.ram.mem[pa0 / PGSIZE], va - va0, n);
      ReadMore(mem, t, srcva, dst, chunk);
      dst := dst + chunk;
      len := len - n;
      va := va0 + PGSIZE;
    }
    ok := true;
  }

  lemma NothingRead(mem: Mem, t: Tree, va: nat)
    requires Wf(mem, t)
    ensures ReadFrom(mem, t, va, [])
  {
  }

  lemma UserThere(mem: Mem, t: Tree, free: seq<nat>, end: nat, va: nat)
    requires UserImage(mem, t, free, end) && Accessible(mem, t, va)
    ensures Frame(mem, t, va / PGSIZE) in mem
  {
    UserFrame(mem, t, free, end, va / PGSIZE);
  }

  function BytesOf(page: Page, off: nat, n: nat): (bs: seq<Byte>)
    requires off + n <= PGSIZE
    ensures |bs| == n && forall i :: 0 <= i < n ==> bs[i] == ByteOf(page, off + i)
  {
    if n == 0 then [] else BytesOf(page, off, n - 1) + [ByteOf(page, off + n - 1)]
  }

  lemma ReadMore(mem: Mem, t: Tree, srcva: nat, dst: seq<Byte>, chunk: seq<Byte>)
    requires ReadFrom(mem, t, srcva, dst) && Accessible(mem, t, srcva + |dst|) && (srcva + |dst|) % PGSIZE + |chunk| <= PGSIZE
    requires Frame(mem, t, (srcva + |dst|) / PGSIZE) in mem
    requires chunk == BytesOf(mem[Frame(mem, t, (srcva + |dst|) / PGSIZE)], (srcva + |dst|) % PGSIZE, |chunk|)
    ensures ReadFrom(mem, t, srcva, dst + chunk)
  {
    hide Wf, IsByte, BytesOf;
    var va, all := srcva + |dst|, dst + chunk;
    forall i | 0 <= i < |all| ensures IsByte(mem, t, srcva + i, all[i]) {
      if i < |dst| {
        assert all[i] == dst[i];
      } else {
        ChunkByte(mem, t, va, chunk, i - |dst|);
        assert srcva + i == va + (i - |dst|) && all[i] == chunk[i - |dst|];
      }
    }
  }

  lemma ChunkByte(mem: Mem, t: Tree, va: nat, chunk: seq<Byte>, i: nat)
    requires Wf(mem, t) && Accessible(mem, t, va) && va % PGSIZE + |chunk| <= PGSIZE && Frame(mem, t, va / PGSIZE) in mem
    requires chunk == BytesOf(mem[Frame(mem, t, va / PGSIZE)], va % PGSIZE, |chunk|) && i < |chunk|
    ensures IsByte(mem, t, va + i, chunk[i])
  {
    hide Wf, Lookup, IsUser, ByteOf, BytesOf;
    InPage(va, i);
  }

  lemma InPage(va: nat, i: nat)
    requires va % PGSIZE + i < PGSIZE
    ensures (va + i) / PGSIZE == va / PGSIZE && (va + i) % PGSIZE == va % PGSIZE + i
    ensures va < MAXVA ==> va + i < MAXVA
  {
    assert va == PGSIZE * (va / PGSIZE) + va % PGSIZE;
    assert MAXVA == 0x400_0000 * PGSIZE;
  }

  // What copyout has written copyin reads back.
  lemma RoundTrip(mem0: Mem, mem: Mem, t: Tree, va: nat, src: seq<Byte>, dst: seq<Byte>)
    requires Wrote(mem0, mem, t, va, src) && ReadFrom(mem, t, va, dst) && |dst| == |src|
    ensures dst == src
  {
    hide Wf, IsByte, Wrote;
    forall i | 0 <= i < |dst| ensures dst[i] == src[i] { WroteThenRead(mem0, mem, t, va, src, i, dst[i]); }
  }

  lemma WroteThenRead(mem0: Mem, mem: Mem, t: Tree, va: nat, src: seq<Byte>, i: nat, b: Byte)
    requires Wrote(mem0, mem, t, va, src) && Wf(mem, t) && i < |src| && IsByte(mem, t, va + i, b)
    ensures b == src[i]
  {
    hide Wf, Lookup, IsUser, ByteOf;
    StillAccessible(mem0, mem, t, va + i);
  }
}
