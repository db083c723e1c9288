/** All user address spaces over one page allocator: every page is free, in use
    by the kernel itself or in one address space, in one place. */
module AddressSpaces {
  import opened Counting
  import opened PageAllocator
  import opened PageTables
  import opened Vm
  import opened VmFree
  import opened VmCopy
  import opened VmUser

  const TRAPFRAME: nat := MAXVPN - 2
  const TRAMPOLINE: nat := MAXVPN - 1

  // A page table with an image of n pages, and its entries for the trapframe
  // and for the trampoline, 0 if there is none.
  datatype Space = Space(t: Tree, n: nat, frame: nat, code: nat)

  // What a space maps above its image.
  ghost function Above(s: Space, v: nat): nat {
    if v == TRAPFRAME then s.frame else if v == TRAMPOLINE then s.code else 0
  }

  ghost predicate TopOk(mem: Mem, s: Space) {
    && Wf(mem, s.t) && s.n <= TRAPFRAME && !IsUser(s.frame) && !IsUser(s.code)
    && forall v: nat :: v >= s.n ==> Lookup(mem, s.t, v) == Above(s, v)
  }

  // The image's frames are allocated, different, and not tables; beside the
  // image only the two entries at the top are mapped, not for the user.
  ghost predicate SpaceOk(mem: Mem, s: Space, free: seq<nat>, end: nat) {
    Owned(mem, s.t, free) && FramesOk(mem, s.t, free, end, 0, s.n) && TablesManaged(s.t, end) && TopOk(mem, s)
  }

  ghost function Frames(mem: Mem, s: Space): (r: set<nat>)
    requires Wf(mem, s.t)
  {
    UserFrames(mem, s.t, s.n)
  }

  // The pages that the space occupies.
  ghost function PagesOf(mem: Mem, s: Space): (r: set<nat>)
    requires Wf(mem, s.t)
  {
    Tables(s.t) + Frames(mem, s)
  }

  lemma {:induction false} InFrames(mem: Mem, t: Tree, n: nat, p: nat)
    requires Wf(mem, t)
    ensures p in UserFrames(mem, t, n) <==> exists v: nat :: v < n && Frame(mem, t, v) == p
  {
    hide Frame, Wf;
    if n > 0 {
      InFrames(mem, t, n - 1, p);
      if p in UserFrames(mem, t, n) && p !in UserFrames(mem, t, n - 1) { assert Frame(mem, t, n - 1) == p; }
    }
  }

  // ---------- an address space that is not touched ----------

  lemma {:induction false} SameFrames(mem0: Mem, t0: Tree, mem: Mem, t: Tree, n: nat)
    requires SameMap(mem0, t0, mem, t)
    ensures UserFrames(mem, t, n) == UserFrames(mem0, t0, n)
  {
    hide Wf, Lookup;
    if n > 0 { SameFrames(mem0, t0, mem, t, n - 1); }
  }

  // The space translates as before and its pages have the same contents.
  ghost predicate Untouched(mem0: Mem, mem: Mem, s: Space) {
    && SameMap(mem0, s.t, mem, s.t)
    && forall p :: p in PagesOf(mem0, s) ==> p in mem0 && p in mem && mem[p] == mem0[p]
  }

  lemma FramesManaged(mem: Mem, s: Space, free: seq<nat>, end: nat, p: nat)
    requires SpaceOk(mem, s, free, end) && p in PagesOf(mem, s)
    ensures end <= p * PGSIZE < PHYSTOP && p !in Elems(free)
  {
    hide Wf, Frame, Tables;
    InFrames(mem, s.t, s.n, p);
  }

  lemma Undisturbed(mem0: Mem, mem: Mem, s: Space, free0: seq<nat>, free: seq<nat>, end: nat, pool: set<nat>)
    requires SpaceOk(mem0, s, free0, end) && Within(mem0, mem, pool) && PagesOf(mem0, s) !! pool && Elems(free) <= pool
    requires forall p :: end <= p * PGSIZE < PHYSTOP ==> p in mem0
    ensures Untouched(mem0, mem, s) && SpaceOk(mem, s, free, end) && PagesOf(mem, s) == PagesOf(mem0, s)
  {
    hide Frame, Tables, Lookup, PagesOf, Wf;
    forall p | p in PagesOf(mem0, s) ensures p in mem0 && p in mem && mem[p] == mem0[p] && p !in Elems(free) {
      FramesManaged(mem0, s, free0, end, p);
    }
    TablesAmong(mem0, s);
    TreeFrame(mem0, mem, s.t);
    SameFrames(mem0, s.t, mem, s.t, s.n);
    SamePages(mem0, mem, s);
    StillOk(mem0, mem, s, free0, free, end);
  }

  lemma TablesAmong(mem: Mem, s: Space)
    requires Wf(mem, s.t)
    ensures Tables(s.t) <= PagesOf(mem, s)
    ensures forall v: nat :: v < s.n ==> Frame(mem, s.t, v) in PagesOf(mem, s)
  {
    hide Wf, Tables, Frame;
    forall v: nat | v < s.n ensures Frame(mem, s.t, v) in PagesOf(mem, s) { InFrames(mem, s.t, s.n, Frame(mem, s.t, v)); }
  }

  lemma SamePages(mem0: Mem, mem: Mem, s: Space)
    requires SameMap(mem0, s.t, mem, s.t) && UserFrames(mem, s.t, s.n) == UserFrames(mem0, s.t, s.n)
    ensures PagesOf(mem, s) == PagesOf(mem0, s)
  {
  }

  lemma StillOk(mem0: Mem, mem: Mem, s: Space, free0: seq<nat>, free: seq<nat>, end: nat)
    requires SpaceOk(mem0, s, free0, end) && SameMap(mem0, s.t, mem, s.t)
    requires forall p :: p in PagesOf(mem0, s) ==> p !in Elems(free)
    ensures SpaceOk(mem, s, free, end)
  {
    TablesAmong(mem0, s);
    hide Wf, Tables, Lookup, PagesOf, TablesManaged, IsUser;
    forall v: nat | v < s.n ensures GoodFrame(Frame(mem, s.t, v), s.t, free, end) {
      assert GoodFrame(Frame(mem0, s.t, v), s.t, free0, end);
      assert Frame(mem0, s.t, v) in PagesOf(mem0, s);
    }
    forall v: nat, w: nat | v < w < s.n ensures Frame(mem, s.t, v) != Frame(mem, s.t, w) {
      assert Frame(mem0, s.t, v) != Frame(mem0, s.t, w);
    }
    assert Tables(s.t) !! Elems(free);
  }

  // ---------- an address space that changes ----------

  // s0 has become s: pages moved between the space and the free list only.
  ghost predicate Traded(mem0: Mem, s0: Space, free0: seq<nat>, mem: Mem, s: Space, free: seq<nat>, end: nat) {
    && Wf(mem0, s0.t) && SpaceOk(mem, s, free, end) && s.t.root == s0.t.root
    && PagesOf(mem, s) + Elems(free) == PagesOf(mem0, s0) + Elems(free0)
    && Within(mem0, mem, PagesOf(mem0, s0) + Elems(free0))
  }

  lemma {:induction false} ExtendedFrames(mem0: Mem, t0: Tree, mem: Mem, t: Tree, p: nat, fs: seq<nat>, fl: seq<nat>, n: nat)
    requires ExtendedMap(mem0, t0, mem, t, p, fs, fl) && n <= |fs|
    ensures UserFrames(mem, t, p + n) == UserFrames(mem0, t0, p) + Elems(fs[..n])
  {
    hide Wf, Lookup, Pte;
    if n == 0 {
      LowFrames(mem0, t0, mem, t, p, fs, fl, p);
      assert Elems(fs[..0]) == {};
    } else {
      ExtendedFrames(mem0, t0, mem, t, p, fs, fl, n - 1);
      PteFields(fs[n - 1], fl[n - 1]);
      assert Frame(mem, t, p + n - 1) == fs[n - 1];
      assert fs[..n] == fs[..n - 1] + [fs[n - 1]];
      assert forall x :: x in fs[..n] <==> x in fs[..n - 1] || x == fs[n - 1];
      hide Frame;
      assert UserFrames(mem, t, p + n) == UserFrames(mem, t, p + n - 1) + {fs[n - 1]};
    }
  }

  lemma {:induction false} LowFrames(mem0: Mem, t0: Tree, mem: Mem, t: Tree, p: nat, fs: seq<nat>, fl: seq<nat>, n: nat)
    requires ExtendedMap(mem0, t0, mem, t, p, fs, fl) && n <= p
    ensures UserFrames(mem, t, n) == UserFrames(mem0, t0, n)
  {
    hide Wf, Lookup, Pte;
    if n > 0 { LowFrames(mem0, t0, mem, t, p, fs, fl, n - 1); }
  }

  lemma GrownManaged(mem0: Mem, s0: Space, free0: seq<nat>, t: Tree, free: seq<nat>, more: set<nat>, end: nat)
    requires TablesManaged(s0.t, end) && (forall p :: p in free0 ==> end <= p * PGSIZE < PHYSTOP)
    requires Pool(t, free) + more == Pool(s0.t, free0)
    ensures TablesManaged(t, end)
  {
    hide Tables;
    assert forall p :: p in Tables(t) ==> p in Pool(s0.t, free0);
  }

  // uvmalloc and uvmcopy that succeed.
  lemma ExtendTraded(mem0: Mem, s0: Space, free0: seq<nat>, mem: Mem, t: Tree, free: seq<nat>, end: nat,
                     fs: seq<nat>, fl: seq<nat>, cs: seq<Page>)
    requires SpaceOk(mem0, s0, free0, end) && (forall p :: p in free0 ==> end <= p * PGSIZE < PHYSTOP)
    requires Extended(mem0, s0.t, free0, mem, t, free, end, s0.n, fs, fl, cs) && s0.n + |fs| <= TRAPFRAME
    ensures Traded(mem0, s0, free0, mem, s0.(t := t, n := s0.n + |fs|), free, end)
  {
    hide Tables, Elems, Lookup, Wf, UserFrames, FramesOk, TablesManaged, Filled, Pte, Within, ExtendedMap, TopOk;
    ExtendedFrames(mem0, s0.t, mem, t, s0.n, fs, fl, |fs|);
    assert fs[..|fs|] == fs;
    GrownManaged(mem0, s0, free0, t, free, Elems(fs), end);
    ExtendedTop(mem0, s0, mem, t, fs, fl);
    SameUnion(Tables(s0.t), Elems(free0), Tables(t), Elems(free), Elems(fs), UserFrames(mem0, s0.t, s0.n));
    WithinMore(mem0, mem, Pool(s0.t, free0), PagesOf(mem0, s0) + Elems(free0));
  }

  lemma SameUnion(tables0: set<nat>, free0: set<nat>, tables: set<nat>, free: set<nat>, fs: set<nat>, frames: set<nat>)
    requires tables + free + fs == tables0 + free0
    ensures tables + (frames + fs) + free == tables0 + frames + free0
  {
    assert tables + (frames + fs) + free == (tables + free + fs) + frames;
  }

  lemma ExtendedTop(mem0: Mem, s0: Space, mem: Mem, t: Tree, fs: seq<nat>, fl: seq<nat>)
    requires TopOk(mem0, s0) && ExtendedMap(mem0, s0.t, mem, t, s0.n, fs, fl) && s0.n + |fs| <= TRAPFRAME
    ensures TopOk(mem, s0.(t := t, n := s0.n + |fs|))
  {
    hide Wf, Lookup, Pte, IsUser;
  }

  lemma WithinMore(mem0: Mem, mem: Mem, pool: set<nat>, pool': set<nat>)
    requires Within(mem0, mem, pool) && pool <= pool'
    ensures Within(mem0, mem, pool')
  {
  }

  // The image maps as before.
  ghost predicate SameImage(mem0: Mem, s0: Space, mem: Mem, s: Space) {
    && Wf(mem0, s0.t) && Wf(mem, s.t) && s.n == s0.n
    && forall v: nat :: v < s0.n ==> Lookup(mem, s.t, v) == Lookup(mem0, s0.t, v)
  }

  // The tables may have got pages of the free list and entries above the image.
  lemma KeptTraded(mem0: Mem, s0: Space, free0: seq<nat>, mem: Mem, s: Space, free: seq<nat>, end: nat)
    requires SpaceOk(mem0, s0, free0, end) && (forall p :: p in free0 ==> end <= p * PGSIZE < PHYSTOP)
    requires Kept(mem0, s0.t, free0, mem, s.t, free) && SameImage(mem0, s0, mem, s) && TopOk(mem, s)
    ensures Traded(mem0, s0, free0, mem, s, free, end)
  {
    hide Tables, Elems, Lookup, Wf, UserFrames, FramesOk, TablesManaged, TopOk, SameImage, Within;
    ImageFrames(mem0, s0, mem, s, s0.n);
    assert Pool(s.t, free) + {} == Pool(s0.t, free0);
    GrownManaged(mem0, s0, free0, s.t, free, {}, end);
    SameGood(mem0, s0, free0, mem, s, free, end);
    WithinMore(mem0, mem, Pool(s0.t, free0), PagesOf(mem0, s0) + Elems(free0));
  }

  lemma {:induction false} ImageFrames(mem0: Mem, s0: Space, mem: Mem, s: Space, n: nat)
    requires SameImage(mem0, s0, mem, s) && n <= s0.n
    ensures Wf(mem0, s0.t) && Wf(mem, s.t) && s.n == s0.n && UserFrames(mem, s.t, n) == UserFrames(mem0, s0.t, n)
  {
    hide Wf, Lookup;
    if n > 0 { ImageFrames(mem0, s0, mem, s, n - 1); }
  }

  lemma SameGood(mem0: Mem, s0: Space, free0: seq<nat>, mem: Mem, s: Space, free: seq<nat>, end: nat)
    requires SpaceOk(mem0, s0, free0, end) && SameImage(mem0, s0, mem, s) && Pool(s.t, free) == Pool(s0.t, free0)
    ensures FramesOk(mem, s.t, free, end, 0, s0.n)
  {
    hide Tables, Lookup, Wf, TablesManaged, Pool, TopOk;
    forall v: nat | v < s0.n ensures GoodFrame(Frame(mem, s.t, v), s.t, free, end) {
      assert GoodFrame(Frame(mem0, s0.t, v), s0.t, free0, end);
      FrameNotInPool(Frame(mem0, s0.t, v), s0.t, free0, end);
      FrameNotInPool(Frame(mem0, s0.t, v), s.t, free, end);
    }
    forall v: nat, w: nat | v < w < s0.n ensures Frame(mem, s.t, v) != Frame(mem, s.t, w) {
      assert Frame(mem0, s0.t, v) != Frame(mem0, s0.t, w);
    }
  }

  // uvmalloc and uvmcopy that fail.
  lemma FailTraded(mem0: Mem, s0: Space, free0: seq<nat>, mem: Mem, t: Tree, free: seq<nat>, end: nat)
    requires SpaceOk(mem0, s0, free0, end) && (forall p :: p in free0 ==> end <= p * PGSIZE < PHYSTOP)
    requires Kept(mem0, s0.t, free0, mem, t, free) && SameMap(mem0, s0.t, mem, t)
    ensures Traded(mem0, s0, free0, mem, s0.(t := t), free, end)
  {
    hide Tables, Elems, Lookup, Wf, FramesOk, TablesManaged, Kept, IsUser;
    KeptTraded(mem0, s0, free0, mem, s0.(t := t), free, end);
  }

  // ---------- the two entries at the top ----------

  ghost function WithTop(s: Space, v: nat, e: nat): Space {
    if v == TRAPFRAME then s.(frame := e) else s.(code := e)
  }

  // An entry of the supervisor's for page v, as mappages makes it.
  lemma SupervisorEntry(page: nat, perm: nat)
    requires perm == PTE_R + PTE_X || perm == PTE_R + PTE_W
    ensures perm < 1024 && IsLeaf(perm) && Pte(page, WithValid(perm)) != 0 && !IsUser(Pte(page, WithValid(perm)))
  {
    PteFields(page, WithValid(perm));
    assert Pte(page, WithValid(perm)) / 16 % 2 == 0;
  }

  // mappages of one of the two pages; done is 1 if it succeeds and 0 if not.
  lemma MapTopTraded(mem0: Mem, s0: Space, free0: seq<nat>, mem: Mem, t: Tree, free: seq<nat>, end: nat,
                     v: nat, done: nat, page: nat, flags: nat)
    requires SpaceOk(mem0, s0, free0, end) && (forall p :: p in free0 ==> end <= p * PGSIZE < PHYSTOP)
    requires (v == TRAPFRAME || v == TRAMPOLINE) && done <= 1 && !IsUser(Pte(page, flags))
    requires Kept(mem0, s0.t, free0, mem, t, free) && MappedTo(mem0, s0.t, mem, t, v, done, page, flags)
    ensures Traded(mem0, s0, free0, mem, if done == 1 then WithTop(s0.(t := t), v, Pte(page, flags)) else s0.(t := t), free, end)
  {
    hide Tables, Elems, Lookup, Wf, FramesOk, TablesManaged, Kept, IsUser, Pte;
    KeptTraded(mem0, s0, free0, mem, if done == 1 then WithTop(s0.(t := t), v, Pte(page, flags)) else s0.(t := t), free, end);
  }

  // uvmunmap of one of the two pages, which frees no frame.
  lemma UnmapTopTraded(mem0: Mem, s0: Space, mem: Mem, free: seq<nat>, end: nat, v: nat)
    requires SpaceOk(mem0, s0, free, end) && (forall p :: p in free ==> end <= p * PGSIZE < PHYSTOP)
    requires (v == TRAPFRAME || v == TRAMPOLINE) && Unmapped(mem0, mem, s0.t, v, 1)
    requires Within(mem0, mem, Tables(s0.t) + Elems(free))
    ensures Traded(mem0, s0, free, mem, WithTop(s0, v, 0), free, end)
  {
    hide Tables, Elems, Lookup, Wf, FramesOk, TablesManaged, Within;
    KeptTraded(mem0, s0, free, mem, WithTop(s0, v, 0), free, end);
  }

  // ---------- freeing ----------

  ghost function FrameRange(mem: Mem, t: Tree, v0: nat, n: nat): (r: set<nat>)
    requires Wf(mem, t)
  {
    if n == 0 then {} else FrameRange(mem, t, v0, n - 1) + {Frame(mem, t, v0 + n - 1)}
  }

  lemma {:induction false} FreedElems(mem: Mem, t: Tree, v0: nat, n: nat, free: seq<nat>)
    requires Wf(mem, t)
    ensures Elems(Freed(mem, t, v0, n, free)) == Elems(free) + FrameRange(mem, t, v0, n)
    ensures UserFrames(mem, t, v0 + n) == UserFrames(mem, t, v0) + FrameRange(mem, t, v0, n)
  {
    hide Wf, Frame;
    if n > 0 {
      FreedElems(mem, t, v0, n - 1, free);
      ElemsPrepend(Freed(mem, t, v0, n - 1, free), Frame(mem, t, v0 + n - 1));
      assert UserFrames(mem, t, v0 + n) == UserFrames(mem, t, v0 + n - 1) + {Frame(mem, t, v0 + n - 1)};
    }
  }

  lemma {:induction false} InRange(mem: Mem, t: Tree, v0: nat, n: nat, p: nat)
    requires Wf(mem, t) && p in FrameRange(mem, t, v0, n)
    ensures exists v: nat :: v0 <= v < v0 + n && Frame(mem, t, v) == p
  {
    hide Wf, Frame;
    if p != Frame(mem, t, v0 + n - 1) { InRange(mem, t, v0, n - 1, p); }
  }

  lemma {:induction false} UnmappedFrames(mem0: Mem, mem: Mem, t: Tree, v0: nat, n: nat, m: nat)
    requires Unmapped(mem0, mem, t, v0, n) && m <= v0
    ensures UserFrames(mem, t, m) == UserFrames(mem0, t, m)
  {
    hide Wf, Lookup;
    if m > 0 { UnmappedFrames(mem0, mem, t, v0, n, m - 1); }
  }

  lemma FewerGood(mem0: Mem, s0: Space, free0: seq<nat>, mem: Mem, m: nat, free: seq<nat>, end: nat)
    requires SpaceOk(mem0, s0, free0, end) && m <= s0.n && Unmapped(mem0, mem, s0.t, m, s0.n - m)
    requires Elems(free) == Elems(free0) + FrameRange(mem0, s0.t, m, s0.n - m)
    ensures FramesOk(mem, s0.t, free, end, 0, m)
  {
    hide Wf, Lookup, Tables;
    forall v: nat | v < m ensures Frame(mem, s0.t, v) == Frame(mem0, s0.t, v) {}
    forall v: nat | v < m ensures GoodFrame(Frame(mem, s0.t, v), s0.t, free, end) {
      var f := Frame(mem0, s0.t, v);
      assert GoodFrame(f, s0.t, free0, end);
      if f in FrameRange(mem0, s0.t, m, s0.n - m) {
        InRange(mem0, s0.t, m, s0.n - m, f);
        assert false;
      }
      assert f in free <==> f in Elems(free);
    }
    forall v: nat, w: nat | v < w < m ensures Frame(mem, s0.t, v) != Frame(mem, s0.t, w) {
      assert Frame(mem0, s0.t, v) != Frame(mem0, s0.t, w);
    }
  }

  // uvmdealloc.
  lemma ShrinkTraded(mem0: Mem, s0: Space, free0: seq<nat>, mem: Mem, m: nat, free: seq<nat>, end: nat)
    requires SpaceOk(mem0, s0, free0, end) && m <= s0.n && Unmapped(mem0, mem, s0.t, m, s0.n - m)
    requires free == Freed(mem0, s0.t, m, s0.n - m, free0) && Owned(mem, s0.t, free)
    requires Within(mem0, mem, Tables(s0.t) + Elems(free))
    ensures Traded(mem0, s0, free0, mem, s0.(n := m), free, end)
  {
    hide Wf, Lookup, Tables, Elems, FramesOk, TablesManaged, Frame, Within, TopOk;
    FreedElems(mem0, s0.t, m, s0.n - m, free0);
    UnmappedFrames(mem0, mem, s0.t, m, s0.n - m, m);
    FewerGood(mem0, s0, free0, mem, m, free, end);
    ShrunkTop(mem0, s0, mem, m);
    var frames, gone := UserFrames(mem0, s0.t, m), FrameRange(mem0, s0.t, m, s0.n - m);
    assert Tables(s0.t) + frames + (Elems(free0) + gone) == Tables(s0.t) + (frames + gone) + Elems(free0);
    WithinMore(mem0, mem, Tables(s0.t) + Elems(free), PagesOf(mem0, s0) + Elems(free0));
  }

  lemma ShrunkTop(mem0: Mem, s0: Space, mem: Mem, m: nat)
    requires TopOk(mem0, s0) && m <= s0.n && Unmapped(mem0, mem, s0.t, m, s0.n - m)
    ensures TopOk(mem, s0.(n := m))
  {
    hide Wf, Lookup, IsUser;
  }

  // ---------- copyout ----------

  lemma SpaceImage(mem: Mem, s: Space, free: seq<nat>, end: nat)
    requires SpaceOk(mem, s, free, end) && end > 0 && forall p :: end <= p * PGSIZE < PHYSTOP ==> p in mem
    ensures UserImage(mem, s.t, free, end)
  {
    hide Wf, Lookup, IsUser, FramesOk, TablesManaged, UserImage;
    assert !IsUser(0) by { NotUser(); }
    forall v: nat | v >= s.n ensures !IsUser(Lookup(mem, s.t, v)) { }
    ImageOfFrames(mem, s.t, free, end, s.n);
  }

  lemma NotUser()
    ensures !IsUser(0)
  {
  }

  // What copyout writes are frames of the image.
  lemma WroteTraded(mem0: Mem, s: Space, free: seq<nat>, mem: Mem, end: nat, va: nat, src: seq<Byte>)
    requires SpaceOk(mem0, s, free, end) && Wrote(mem0, mem, s.t, va, src)
    ensures Traded(mem0, s, free, mem, s, free, end)
  {
    hide Wf, Lookup, IsUser, Tables, Elems, PagesOf, Accessible, UserByte;
    NotUser();
    TablesAmong(mem0, s);
    forall p | p in mem0 && mem[p] != mem0[p] ensures p in PagesOf(mem0, s) {
      var v: nat :| IsUser(Lookup(mem0, s.t, v)) && Frame(mem0, s.t, v) == p;
      assert v < s.n;
    }
    SameFrames(mem0, s.t, mem, s.t, s.n);
    SamePages(mem0, mem, s);
    forall p | p in PagesOf(mem0, s) ensures p !in Elems(free) { FramesManaged(mem0, s, free, end, p); }
    StillOk(mem0, mem, s, free, free, end);
  }

  // ---------- all of them ----------

  ghost predicate InSpace(mem: Mem, spaces: map<nat, Space>, p: nat) {
    exists a :: a in spaces && Wf(mem, spaces[a].t) && p in PagesOf(mem, spaces[a])
  }

  // The pages are those of the spaces, those that the kernel holds itself and
  // the free ones, each in one place.
  ghost predicate World(mem: Mem, free: seq<nat>, end: nat, spaces: map<nat, Space>, kernel: set<nat>, pages: set<nat>) {
    && (forall a :: a in spaces ==> SpaceOk(mem, spaces[a], free, end) && spaces[a].t.root == a)
    && (forall a, b :: a in spaces && b in spaces && a != b ==> PagesOf(mem, spaces[a]) !! PagesOf(mem, spaces[b]))
    && (forall a :: a in spaces ==> PagesOf(mem, spaces[a]) !! kernel)
    && kernel !! Elems(free) && (forall p :: p in kernel ==> end <= p * PGSIZE < PHYSTOP)
    && (forall p :: p in pages <==> p in Elems(free) || p in kernel || InSpace(mem, spaces, p))
  }

  ghost predicate AllMemory(mem: Mem, free: seq<nat>, end: nat) {
    && (forall p :: end <= p * PGSIZE < PHYSTOP ==> p in mem)
    && (forall p :: p in free ==> end <= p * PGSIZE < PHYSTOP)
  }

  // Every space but that of root is as before, and so are the kernel's pages.
  ghost predicate OthersUntouched(mem0: Mem, mem: Mem, spaces: map<nat, Space>, kernel: set<nat>, root: nat) {
    && (forall b :: b in spaces && b != root ==> Wf(mem0, spaces[b].t) && Untouched(mem0, mem, spaces[b]))
    && (forall p :: p in kernel ==> p in mem0 && p in mem && mem[p] == mem0[p])
  }

  lemma ApartFromPool(mem: Mem, free: seq<nat>, end: nat, spaces: map<nat, Space>, kernel: set<nat>, pages: set<nat>,
                      root: nat, b: nat)
    requires World(mem, free, end, spaces, kernel, pages) && b in spaces && b != root
    ensures PagesOf(mem, spaces[b]) !! Elems(free)
    ensures root in spaces ==> PagesOf(mem, spaces[b]) !! PagesOf(mem, spaces[root]) + Elems(free)
  {
    hide PagesOf, Elems, Wf, Tables;
    forall p | p in PagesOf(mem, spaces[b]) ensures p !in Elems(free) { FramesManaged(mem, spaces[b], free, end, p); }
  }

  // All spaces but that of root, and the kernel's pages, are outside of pool.
  lemma PoolWrites(mem0: Mem, free0: seq<nat>, mem: Mem, free: seq<nat>, end: nat, spaces: map<nat, Space>,
                   kernel: set<nat>, pages: set<nat>, root: nat, pool: set<nat>)
    requires World(mem0, free0, end, spaces, kernel, pages) && AllMemory(mem0, free0, end)
    requires Within(mem0, mem, pool) && Elems(free) <= pool
    requires pool <= (if root in spaces then PagesOf(mem0, spaces[root]) + Elems(free0) else Elems(free0))
    ensures OthersUntouched(mem0, mem, spaces, kernel, root)
    ensures forall b :: b in spaces && b != root ==>
      SpaceOk(mem, spaces[b], free, end) && Wf(mem, spaces[b].t) && PagesOf(mem, spaces[b]) == PagesOf(mem0, spaces[b])
  {
    hide PagesOf, Elems, Wf, Tables, Untouched, InSpace;
    forall b | b in spaces && b != root
      ensures Wf(mem0, spaces[b].t) && Untouched(mem0, mem, spaces[b])
      ensures SpaceOk(mem, spaces[b], free, end) && PagesOf(mem, spaces[b]) == PagesOf(mem0, spaces[b])
    {
      ApartFromPool(mem0, free0, end, spaces, kernel, pages, root, b);
      Undisturbed(mem0, mem, spaces[b], free0, free, end, pool);
    }
    forall p | p in kernel ensures p in mem0 && p in mem && mem[p] == mem0[p] {
      assert end <= p * PGSIZE < PHYSTOP;
    }
  }

  // One space changes within its pages and the free ones.
  lemma WorldTraded(mem0: Mem, free0: seq<nat>, mem: Mem, free: seq<nat>, end: nat, spaces: map<nat, Space>,
                    kernel: set<nat>, pages: set<nat>, root: nat, s: Space)
    requires World(mem0, free0, end, spaces, kernel, pages) && AllMemory(mem0, free0, end) && root in spaces
    requires Traded(mem0, spaces[root], free0, mem, s, free, end)
    ensures World(mem, free, end, spaces[root := s], kernel, pages) && OthersUntouched(mem0, mem, spaces, kernel, root)
  {
    hide PagesOf, Elems, Wf, Tables, Within, InSpace, SpaceOk, OthersUntouched;
    AllWf(mem0, spaces, free0, end);
    SpaceWf(mem, s, free, end);
    var pool := PagesOf(mem0, spaces[root]) + Elems(free0);
    PoolWrites(mem0, free0, mem, free, end, spaces, kernel, pages, root, pool);
    forall b | b in spaces && b != root ensures PagesOf(mem0, spaces[b]) !! pool {
      ApartFromPool(mem0, free0, end, spaces, kernel, pages, root, b);
    }
    assert forall a :: a in spaces && a != root ==> spaces[root := s][a] == spaces[a];
    forall p ensures p in pages <==> p in Elems(free) || p in kernel || InSpace(mem, spaces[root := s], p) {
      PageStays(mem0, mem, spaces, root, s, p);
    }
  }

  lemma SpaceWf(mem: Mem, s: Space, free: seq<nat>, end: nat)
    requires SpaceOk(mem, s, free, end)
    ensures Wf(mem, s.t)
  {
    hide Wf;
  }

  lemma AllWf(mem: Mem, spaces: map<nat, Space>, free: seq<nat>, end: nat)
    requires forall a :: a in spaces ==> SpaceOk(mem, spaces[a], free, end)
    ensures forall a :: a in spaces ==> Wf(mem, spaces[a].t)
  {
    hide Wf;
  }

  lemma PageStays(mem0: Mem, mem: Mem, spaces: map<nat, Space>, root: nat, s: Space, p: nat)
    requires root in spaces && (forall a :: a in spaces ==> Wf(mem0, spaces[a].t)) && Wf(mem, s.t)
    requires forall a :: a in spaces && a != root ==>
      Wf(mem, spaces[a].t) && PagesOf(mem, spaces[a]) == PagesOf(mem0, spaces[a])
    ensures InSpace(mem0, spaces, p) ==> p in PagesOf(mem0, spaces[root]) || InSpace(mem, spaces[root := s], p)
    ensures InSpace(mem, spaces[root := s], p) ==> p in PagesOf(mem, s) || InSpace(mem0, spaces, p)
    ensures p in PagesOf(mem, s) ==> InSpace(mem, spaces[root := s], p)
    ensures p in PagesOf(mem0, spaces[root]) ==> InSpace(mem0, spaces, p)
  {
    hide PagesOf, Wf;
    var spaces' := spaces[root := s];
    if a :| a in spaces && a != root && p in PagesOf(mem0, spaces[a]) { assert p in PagesOf(mem, spaces'[a]); }
    if a :| a in spaces' && a != root && p in PagesOf(mem, spaces'[a]) { assert p in PagesOf(mem0, spaces[a]); }
    assert spaces'[root] == s;
  }

  // A page of the free list becomes an empty space.
  lemma WorldCreated(mem0: Mem, free0: seq<nat>, mem: Mem, free: seq<nat>, end: nat, spaces: map<nat, Space>,
                     kernel: set<nat>, pages: set<nat>, root: nat, s: Space)
    requires World(mem0, free0, end, spaces, kernel, pages) && AllMemory(mem0, free0, end)
    requires free0 == [root] + free && Within(mem0, mem, {root}) && SpaceOk(mem, s, free, end) && s.t.root == root
    requires Wf(mem, s.t) && PagesOf(mem, s) == {root}
    ensures root !in spaces && World(mem, free, end, spaces[root := s], kernel, pages)
    ensures OthersUntouched(mem0, mem, spaces, kernel, root)
  {
    hide PagesOf, Elems, Wf, Tables, Within, SpaceOk, InSpace, OthersUntouched;
    ElemsPrepend(free, root);
    RootsTaken(mem0, free0, end, spaces, kernel, pages, root);
    AllWf(mem0, spaces, free0, end);
    WithinMore(mem0, mem, {root}, Elems(free0));
    PoolWrites(mem0, free0, mem, free, end, spaces, kernel, pages, root, Elems(free0));
    forall b | b in spaces ensures root !in PagesOf(mem0, spaces[b]) {
      ApartFromPool(mem0, free0, end, spaces, kernel, pages, root, b);
    }
    assert forall a :: a in spaces ==> spaces[root := s][a] == spaces[a];
    forall p ensures p in pages <==> p in Elems(free) || p in kernel || InSpace(mem, spaces[root := s], p) {
      PageAdded(mem0, mem, spaces, root, s, p);
    }
  }

  lemma RootsTaken(mem: Mem, free: seq<nat>, end: nat, spaces: map<nat, Space>, kernel: set<nat>, pages: set<nat>, root: nat)
    requires World(mem, free, end, spaces, kernel, pages) && root in Elems(free)
    ensures root !in spaces
  {
    if root in spaces {
      InTables(spaces[root].t);
      FramesManaged(mem, spaces[root], free, end, root);
    }
  }

  lemma PageAdded(mem0: Mem, mem: Mem, spaces: map<nat, Space>, root: nat, s: Space, p: nat)
    requires root !in spaces && Wf(mem, s.t)
    requires forall a :: a in spaces ==>
      Wf(mem0, spaces[a].t) && Wf(mem, spaces[a].t) && PagesOf(mem, spaces[a]) == PagesOf(mem0, spaces[a])
    ensures InSpace(mem, spaces[root := s], p) <==> p in PagesOf(mem, s) || InSpace(mem0, spaces, p)
  {
    hide PagesOf, Wf;
    var spaces' := spaces[root := s];
    assert spaces'[root] == s;
    if a :| a in spaces && p in PagesOf(mem0, spaces[a]) { assert p in PagesOf(mem, spaces'[a]); }
    if a :| a in spaces' && a != root && p in PagesOf(mem, spaces'[a]) { assert p in PagesOf(mem0, spaces[a]); }
  }

  // All pages of a space go back to the free list.
  lemma WorldDestroyed(mem0: Mem, free0: seq<nat>, mem: Mem, free: seq<nat>, end: nat, spaces: map<nat, Space>,
                       kernel: set<nat>, pages: set<nat>, root: nat)
    requires World(mem0, free0, end, spaces, kernel, pages) && AllMemory(mem0, free0, end) && root in spaces
    requires Elems(free) == Elems(free0) + PagesOf(mem0, spaces[root])
    requires Within(mem0, mem, Elems(free0) + PagesOf(mem0, spaces[root]))
    ensures World(mem, free, end, spaces - {root}, kernel, pages) && OthersUntouched(mem0, mem, spaces, kernel, root)
  {
    hide PagesOf, Elems, Wf, Tables, Within, InSpace, SpaceOk, OthersUntouched;
    AllWf(mem0, spaces, free0, end);
    PoolWrites(mem0, free0, mem, free, end, spaces, kernel, pages, root, Elems(free0) + PagesOf(mem0, spaces[root]));
    forall p ensures p in pages <==> p in Elems(free) || p in kernel || InSpace(mem, spaces - {root}, p) {
      PageLeft(mem0, mem, spaces, root, p);
    }
  }

  lemma PageLeft(mem0: Mem, mem: Mem, spaces: map<nat, Space>, root: nat, p: nat)
    requires root in spaces && Wf(mem0, spaces[root].t)
    requires forall a :: a in spaces && a != root ==>
      Wf(mem0, spaces[a].t) && Wf(mem, spaces[a].t) && PagesOf(mem, spaces[a]) == PagesOf(mem0, spaces[a])
    ensures InSpace(mem0, spaces, p) <==> p in PagesOf(mem0, spaces[root]) || InSpace(mem, spaces - {root}, p)
  {
    hide PagesOf, Wf;
    var rest := spaces - {root};
    if a :| a in spaces && a != root && p in PagesOf(mem0, spaces[a]) { assert a in rest && p in PagesOf(mem, rest[a]); }
    if a :| a in rest && p in PagesOf(mem, rest[a]) { assert a in spaces && p in PagesOf(mem0, spaces[a]); }
  }

  // The kernel takes a page of the free list for itself.
  lemma WorldTaken(mem0: Mem, free0: seq<nat>, mem: Mem, free: seq<nat>, end: nat, spaces: map<nat, Space>,
                   kernel: set<nat>, pages: set<nat>, q: nat)
    requires World(mem0, free0, end, spaces, kernel, pages) && AllMemory(mem0, free0, end)
    requires free0 == [q] + free && q !in Elems(free) && Within(mem0, mem, {q}) && end > 0
    ensures q !in kernel && World(mem, free, end, spaces, kernel + {q}, pages)
    ensures OthersUntouched(mem0, mem, spaces, kernel, 0)
  {
    hide PagesOf, Elems, Wf, Tables, Within, SpaceOk, InSpace, OthersUntouched;
    ElemsPrepend(free, q);
    TakenManaged(mem0, free0, free, end, q);
    NotRoot(mem0, free0, end, spaces, kernel, pages);
    AllWf(mem0, spaces, free0, end);
    WithinMore(mem0, mem, {q}, Elems(free0));
    PoolWrites(mem0, free0, mem, free, end, spaces, kernel, pages, 0, Elems(free0));
    forall b | b in spaces ensures q !in PagesOf(mem0, spaces[b]) {
      ApartFromPool(mem0, free0, end, spaces, kernel, pages, 0, b);
    }
    forall p ensures InSpace(mem, spaces, p) <==> InSpace(mem0, spaces, p) { SameInSpace(mem0, mem, spaces, p); }
  }

  lemma TakenManaged(mem: Mem, free0: seq<nat>, free: seq<nat>, end: nat, q: nat)
    requires AllMemory(mem, free0, end) && free0 == [q] + free
    ensures end <= q * PGSIZE < PHYSTOP
  {
    assert q in free0;
  }

  // Page 0 is not the allocator's.
  lemma NotRoot(mem: Mem, free: seq<nat>, end: nat, spaces: map<nat, Space>, kernel: set<nat>, pages: set<nat>)
    requires World(mem, free, end, spaces, kernel, pages) && end > 0
    ensures 0 !in spaces
  {
    forall a | a in spaces ensures a != 0 { InTables(spaces[a].t); }
  }

  lemma SameInSpace(mem0: Mem, mem: Mem, spaces: map<nat, Space>, p: nat)
    requires forall a :: a in spaces ==>
      Wf(mem0, spaces[a].t) && Wf(mem, spaces[a].t) && PagesOf(mem, spaces[a]) == PagesOf(mem0, spaces[a])
    ensures InSpace(mem, spaces, p) <==> InSpace(mem0, spaces, p)
  {
    hide PagesOf, Wf;
    if a :| a in spaces && p in PagesOf(mem0, spaces[a]) { assert p in PagesOf(mem, spaces[a]); }
    if a :| a in spaces && p in PagesOf(mem, spaces[a]) { assert p in PagesOf(mem0, spaces[a]); }
  }

  // The kernel gives a page back.
  lemma WorldGiven(mem0: Mem, free0: seq<nat>, mem: Mem, free: seq<nat>, end: nat, spaces: map<nat, Space>,
                   kernel: set<nat>, pages: set<nat>, q: nat)
    requires World(mem0, free0, end, spaces, kernel, pages) && AllMemory(mem0, free0, end) && q in kernel && end > 0
    requires free == [q] + free0 && Within(mem0, mem, {q})
    ensures World(mem, free, end, spaces, kernel - {q}, pages) && OthersUntouched(mem0, mem, spaces, kernel - {q}, 0)
  {
    hide PagesOf, Elems, Wf, Tables, Within, SpaceOk, InSpace, Untouched;
    ElemsPrepend(free0, q);
    NotRoot(mem0, free0, end, spaces, kernel, pages);
    WithinMore(mem0, mem, {q}, Elems(free));
    AllWf(mem0, spaces, free0, end);
    forall b | b in spaces
      ensures Untouched(mem0, mem, spaces[b]) && SpaceOk(mem, spaces[b], free, end) && Wf(mem, spaces[b].t)
      ensures PagesOf(mem, spaces[b]) == PagesOf(mem0, spaces[b])
    {
      ApartFromPool(mem0, free0, end, spaces, kernel, pages, 0, b);
      Undisturbed(mem0, mem, spaces[b], free0, free, end, Elems(free));
      SpaceWf(mem, spaces[b], free, end);
    }
    KernelStays(mem0, mem, q, kernel, end);
    forall p ensures InSpace(mem, spaces, p) <==> InSpace(mem0, spaces, p) { SameInSpace(mem0, mem, spaces, p); }
  }

  lemma KernelStays(mem0: Mem, mem: Mem, q: nat, kernel: set<nat>, end: nat)
    requires Within(mem0, mem, {q}) && (forall p :: end <= p * PGSIZE < PHYSTOP ==> p in mem0)
    requires forall p :: p in kernel ==> end <= p * PGSIZE < PHYSTOP
    ensures forall p :: p in kernel - {q} ==> p in mem0 && p in mem && mem[p] == mem0[p]
  {
    forall p | p in kernel - {q} ensures p in mem0 && p in mem && mem[p] == mem0[p] { assert end <= p * PGSIZE < PHYSTOP; }
  }

  // ---------- several steps ----------

  lemma UntouchedChain(mem0: Mem, mem1: Mem, mem: Mem, s: Space)
    requires Wf(mem0, s.t) && Wf(mem1, s.t) && Untouched(mem0, mem1, s) && Untouched(mem1, mem, s)
    ensures Untouched(mem0, mem, s)
  {
    hide Wf, Lookup, Tables, UserFrames;
    SameFrames(mem0, s.t, mem1, s.t, s.n);
    SamePages(mem0, mem1, s);
    hide PagesOf;
    SameMapChain(mem0, s.t, mem1, s.t, mem, s.t);
  }

  // The spaces other than root are all among spaces1, and not root1.
  ghost predicate Among(spaces: map<nat, Space>, root: nat, spaces1: map<nat, Space>, root1: nat) {
    forall b :: b in spaces && b != root ==> b in spaces1 && b != root1 && spaces1[b] == spaces[b]
  }

  lemma AmongWith(spaces: map<nat, Space>, root: nat, s: Space)
    ensures Among(spaces, root, spaces, root) && Among(spaces, root, spaces[root := s], root)
    ensures root !in spaces && 0 !in spaces ==> Among(spaces, 0, spaces[root := s], root) && Among(spaces, 0, spaces, root)
    ensures root !in spaces ==> spaces[root := s] - {root} == spaces
  {
    if root !in spaces { assert spaces[root := s] - {root} == spaces; }
  }

  lemma OthersChain(mem0: Mem, mem1: Mem, mem: Mem, spaces: map<nat, Space>, spaces1: map<nat, Space>,
                    kernel: set<nat>, kernel1: set<nat>, root: nat, root1: nat)
    requires OthersUntouched(mem0, mem1, spaces, kernel, root) && OthersUntouched(mem1, mem, spaces1, kernel1, root1)
    requires Among(spaces, root, spaces1, root1) && kernel <= kernel1
    ensures OthersUntouched(mem0, mem, spaces, kernel, root)
  {
    hide Wf, Untouched;
    forall b | b in spaces && b != root ensures Wf(mem0, spaces[b].t) && Untouched(mem0, mem, spaces[b]) {
      UntouchedChain(mem0, mem1, mem, spaces[b]);
    }
  }

  // With the same spaces and kernel pages, the same pages are free.
  lemma SameFree(mem0: Mem, free0: seq<nat>, mem: Mem, free: seq<nat>, end: nat, spaces: map<nat, Space>,
                 kernel: set<nat>, pages: set<nat>)
    requires World(mem0, free0, end, spaces, kernel, pages) && World(mem, free, end, spaces, kernel, pages)
    requires OthersUntouched(mem0, mem, spaces, kernel, 0) && 0 !in spaces
    ensures Elems(free) == Elems(free0)
  {
    hide PagesOf, Elems, Wf, Tables, InSpace, SpaceOk, Untouched, Lookup;
    AllWf(mem0, spaces, free0, end);
    AllWf(mem, spaces, free, end);
    forall b | b in spaces
      ensures PagesOf(mem, spaces[b]) == PagesOf(mem0, spaces[b])
      ensures PagesOf(mem0, spaces[b]) !! Elems(free0) && PagesOf(mem, spaces[b]) !! Elems(free)
    {
      UntouchedPages(mem0, mem, spaces[b]);
      ApartFromPool(mem0, free0, end, spaces, kernel, pages, 0, b);
      ApartFromPool(mem, free, end, spaces, kernel, pages, 0, b);
    }
    forall p ensures p in Elems(free) <==> p in Elems(free0) {
      SameInSpace(mem0, mem, spaces, p);
      InSpaceNotFree(mem0, spaces, Elems(free0), p);
      InSpaceNotFree(mem, spaces, Elems(free), p);
    }
  }

  lemma UntouchedPages(mem0: Mem, mem: Mem, s: Space)
    requires Wf(mem0, s.t) && Wf(mem, s.t) && Untouched(mem0, mem, s)
    ensures PagesOf(mem, s) == PagesOf(mem0, s)
  {
    hide Wf, Lookup, Tables, UserFrames;
    SameFrames(mem0, s.t, mem, s.t, s.n);
    SamePages(mem0, mem, s);
  }

  lemma InSpaceNotFree(mem: Mem, spaces: map<nat, Space>, free: set<nat>, p: nat)
    requires forall a :: a in spaces ==> Wf(mem, spaces[a].t) && PagesOf(mem, spaces[a]) !! free
    ensures InSpace(mem, spaces, p) ==> p !in free
  {
    hide PagesOf, Wf;
  }

  // Once no space is left and the kernel holds nothing, all pages are free.
  lemma AllReturned(mem: Mem, free: seq<nat>, end: nat, pages: set<nat>)
    requires World(mem, free, end, map[], {}, pages)
    ensures Elems(free) == pages
  {
    hide PagesOf, Elems;
  }

  // ---------- what the operations need ----------

  lemma GrownBound(mem0: Mem, s0: Space, free0: seq<nat>, mem: Mem, t: Tree, free: seq<nat>, end: nat,
                   fs: seq<nat>, fl: seq<nat>, cs: seq<Page>)
    requires Extended(mem0, s0.t, free0, mem, t, free, end, s0.n, fs, fl, cs) && KERNBASE <= end
    ensures s0.n + |fs| <= TRAPFRAME
  {
    hide Owned, ExtendedMap, Filled, Pool, Within;
    ImageBound(mem, t, free, end, s0.n + |fs|);
  }

  lemma AllMapped(mem: Mem, s: Space, free: seq<nat>, end: nat, m: nat)
    requires SpaceOk(mem, s, free, end) && KERNBASE <= end
    ensures forall v: nat :: v < s.n ==> Lookup(mem, s.t, v) != 0
    ensures m <= s.n ==> FramesOk(mem, s.t, free, end, m, s.n - m)
  {
    hide Wf, Lookup, Tables, TopOk;
    forall v: nat | v < s.n ensures Lookup(mem, s.t, v) != 0 {
      assert GoodFrame(Frame(mem, s.t, v), s.t, free, end);
    }
  }

  lemma JustUser(mem: Mem, s: Space, free: seq<nat>, end: nat)
    requires SpaceOk(mem, s, free, end) && KERNBASE <= end && s.frame == 0 && s.code == 0
    ensures OnlyUser(mem, s.t, s.n)
  {
    hide Wf, Lookup, Tables, IsUser;
    AllMapped(mem, s, free, end, s.n);
  }

  lemma AllPages(mem: Mem, s: Space, free: seq<nat>)
    requires Wf(mem, s.t)
    ensures Elems(free) + UserFrames(mem, s.t, s.n) + Tables(s.t) == Elems(free) + PagesOf(mem, s)
  {
  }

  lemma FrameApart(mem: Mem, free: seq<nat>, end: nat, s: Space, child: Space, v: nat)
    requires SpaceOk(mem, s, free, end) && AllMemory(mem, free, end) && v < s.n
    requires Wf(mem, child.t) && PagesOf(mem, s) !! PagesOf(mem, child) + Elems(free)
    ensures Frame(mem, s.t, v) in mem && Frame(mem, s.t, v) !in Pool(child.t, free)
  {
    hide Wf, Lookup, Tables, PagesOf, Elems, Frame, FramesOk;
    TablesAmong(mem, s);
    TablesAmong(mem, child);
    FramesManaged(mem, s, free, end, Frame(mem, s.t, v));
  }

  lemma TablesApart(mem: Mem, free: seq<nat>, s: Space, child: Space)
    requires Wf(mem, s.t) && Wf(mem, child.t) && PagesOf(mem, s) !! PagesOf(mem, child) + Elems(free)
    ensures Tables(s.t) !! Pool(child.t, free)
  {
    hide Wf, Tables, PagesOf, Elems, Frame;
    TablesAmong(mem, s);
    TablesAmong(mem, child);
  }

  lemma ParentOk(mem: Mem, free: seq<nat>, end: nat, spaces: map<nat, Space>, kernel: set<nat>, pages: set<nat>,
                 parent: nat, child: nat)
    requires World(mem, free, end, spaces, kernel, pages) && AllMemory(mem, free, end) && KERNBASE <= end
    requires parent in spaces && child in spaces && parent != child
    ensures Wf(mem, spaces[parent].t) && Parent(mem, spaces[parent].t, Pool(spaces[child].t, free), spaces[parent].n)
    ensures forall v: nat :: v < spaces[parent].n ==> Frame(mem, spaces[parent].t, v) in mem
  {
    hide Wf, Lookup, Tables, PagesOf, Elems, FramesOk, Pool, TablesManaged, TopOk;
    var s := spaces[parent];
    ApartFromPool(mem, free, end, spaces, kernel, pages, child, parent);
    TablesApart(mem, free, s, spaces[child]);
    AllMapped(mem, s, free, end, 0);
    forall v: nat | v < s.n
      ensures Frame(mem, s.t, v) in mem && Frame(mem, s.t, v) != 0 && Frame(mem, s.t, v) !in Pool(spaces[child].t, free)
    {
      FrameApart(mem, free, end, s, spaces[child], v);
      FrameNonZero(mem, s, free, end, v);
    }
  }

  lemma FrameNonZero(mem: Mem, s: Space, free: seq<nat>, end: nat, v: nat)
    requires SpaceOk(mem, s, free, end) && KERNBASE <= end && v < s.n
    ensures Frame(mem, s.t, v) != 0
  {
    hide Wf, Lookup, Tables, Frame;
    assert GoodFrame(Frame(mem, s.t, v), s.t, free, end);
  }

  lemma NothingDone(mem: Mem, free: seq<nat>, end: nat, spaces: map<nat, Space>, kernel: set<nat>, pages: set<nat>, root: nat)
    requires World(mem, free, end, spaces, kernel, pages) && AllMemory(mem, free, end)
    ensures OthersUntouched(mem, mem, spaces, kernel, root)
  {
    hide PagesOf, Tables;
    forall b, p | b in spaces && Wf(mem, spaces[b].t) && p in PagesOf(mem, spaces[b]) ensures p in mem {
      FramesManaged(mem, spaces[b], free, end, p);
    }
    hide Wf, Lookup, InSpace, Elems;
    forall p | p in kernel ensures p in mem { assert end <= p * PGSIZE < PHYSTOP; }
  }

  lemma EmptySpace(mem0: Mem, free0: seq<nat>, mem: Mem, free: seq<nat>, end: nat, root: nat)
    requires AllMemory(mem0, free0, end) && free0 == [root] + free && mem == mem0[root := ZeroPage()]
    requires Owned(mem, Tree(root, map[], map[]), free) && forall v: nat :: Lookup(mem, Tree(root, map[], map[]), v) == 0
    ensures var s := Space(Tree(root, map[], map[]), 0, 0, 0);
      SpaceOk(mem, s, free, end) && Wf(mem, s.t) && PagesOf(mem, s) == {root} && Within(mem0, mem, {root})
  {
    var t := Tree(root, map[], map[]);
    assert Tables(t) == {root};
    assert root in free0;
    NotUser();
    hide Wf, Lookup, Tables, IsUser;
  }
}
