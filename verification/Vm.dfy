/** The page table operations of kernel/vm.c over the page allocator. */
module Vm {
  import opened PageAllocator
  import opened PageTables
  import opened Counting

  // The pages a page table can draw on: its own tables and the free ones.
  ghost function Pool(t: Tree, free: seq<nat>): (s: set<nat>) {
    Tables(t) + Elems(free)
  }

  // Nothing outside pool was written.
  ghost predicate Within(mem: Mem, mem': Mem, pool: set<nat>) {
    mem'.Keys == mem.Keys && forall p :: p in mem && p !in pool ==> mem'[p] == mem[p]
  }

  lemma WithinChain(mem: Mem, mem1: Mem, mem2: Mem, pool: set<nat>)
    requires Within(mem, mem1, pool) && Within(mem1, mem2, pool)
    ensures Within(mem, mem2, pool)
  {
  }

  lemma SameMapChain(mem: Mem, t: Tree, mem1: Mem, t1: Tree, mem2: Mem, t2: Tree)
    requires SameMap(mem, t, mem1, t1) && SameMap(mem1, t1, mem2, t2)
    ensures SameMap(mem, t, mem2, t2)
  {
  }

  // A page table whose tables are allocated pages.
  ghost predicate Owned(mem: Mem, t: Tree, free: seq<nat>) {
    Wf(mem, t) && Tables(t) !! Elems(free)
  }

  // table is the page that walk has reached at this level on its way to vpn.
  ghost predicate Reached(t: Tree, vpn: nat, level: nat, table: nat) {
    match level
    case 2 => table == t.root
    case 1 => Px2(vpn) in t.mid && table == t.mid[Px2(vpn)]
    case 0 => Pair(vpn) in t.low && table == t.low[Pair(vpn)]
    case _ => false
  }

  function Px(level: nat, vpn: nat): (i: nat)
    requires level <= 2 && vpn < MAXVPN
    ensures i < 512
  {
    if level == 2 then Px2(vpn) else if level == 1 then Px1(vpn) else Px0(vpn)
  }

  // Whether the next table on the way exists.
  ghost predicate HasNext(t: Tree, vpn: nat, level: nat) {
    if level == 2 then Px2(vpn) in t.mid else Pair(vpn) in t.low
  }

  lemma LinkFields(page: nat)
    ensures IsValid(Link(page)) && PageOf(Link(page)) == page && !IsLeaf(Link(page))
  {
    PteFields(page, PTE_V);
  }

  lemma NextTable(mem: Mem, t: Tree, vpn: nat, level: nat, table: nat)
    requires Wf(mem, t) && vpn < MAXVPN && 1 <= level <= 2 && Reached(t, vpn, level, table)
    ensures table in mem && table in Tables(t)
    ensures IsValid(mem[table][Px(level, vpn)]) <==> HasNext(t, vpn, level)
    ensures HasNext(t, vpn, level) ==> Reached(t, vpn, level - 1, PageOf(mem[table][Px(level, vpn)]))
  {
    InTables(t);
    if level == 2 {
      assert mem[table][Px2(vpn)] == RootWord(t, Px2(vpn));
      if Px2(vpn) in t.mid { LinkFields(t.mid[Px2(vpn)]); }
    } else {
      assert mem[table][Px1(vpn)] == MidWord(t, Px2(vpn), Px1(vpn));
      if Pair(vpn) in t.low { LinkFields(t.low[Pair(vpn)]); }
    }
  }

  // The tree after a table page q is put in at this level.
  ghost function Grown(t: Tree, vpn: nat, level: nat, q: nat): Tree {
    if level == 2 then t.(mid := t.mid[Px2(vpn) := q]) else t.(low := t.low[Pair(vpn) := q])
  }

  lemma GrownTables(t: Tree, vpn: nat, level: nat, q: nat)
    requires 1 <= level <= 2 && !HasNext(t, vpn, level)
    ensures Tables(Grown(t, vpn, level, q)) == Tables(t) + {q}
  {
    var t' := Grown(t, vpn, level, q);
    if level == 2 {
      assert Px2(vpn) in t'.mid;
      assert forall i :: i in t.mid ==> i in t'.mid && t'.mid[i] == t.mid[i];
    } else {
      assert Pair(vpn) in t'.low;
      assert forall x :: x in t.low ==> x in t'.low && t'.low[x] == t.low[x];
    }
  }

  lemma GrowTree(mem: Mem, t: Tree, vpn: nat, level: nat, table: nat, q: nat)
    requires Wf(mem, t) && vpn < MAXVPN && 1 <= level <= 2 && Reached(t, vpn, level, table)
    requires !HasNext(t, vpn, level) && q in mem && q !in Tables(t) && table in mem
    ensures SameMap(mem, t, mem[q := ZeroPage()][table := mem[table][Px(level, vpn) := Link(q)]], Grown(t, vpn, level, q))
    ensures Reached(Grown(t, vpn, level, q), vpn, level - 1, q)
  {
    if level == 2 {
      AddMid(mem, t, Px2(vpn), q);
    } else {
      AddLow(mem, t, Px2(vpn), Px1(vpn), q);
    }
  }

  // The page table t0 has become t: pages only moved from the free list to its
  // tables, and only its tables and free pages were written.
  ghost predicate Kept(mem0: Mem, t0: Tree, free0: seq<nat>, mem: Mem, t: Tree, free: seq<nat>) {
    && t.root == t0.root
    && Tables(t) !! Elems(free) && Pool(t, free) == Pool(t0, free0) && Tables(t0) <= Tables(t)
    && Within(mem0, mem, Pool(t0, free0))
  }

  // Where walk, starting from the tree t0 and memory mem0, may be.
  ghost predicate Walking(mem0: Mem, t0: Tree, free0: seq<nat>, mem: Mem, t: Tree, free: seq<nat>) {
    SameMap(mem0, t0, mem, t) && Kept(mem0, t0, free0, mem, t, free)
  }

  lemma KeptChain(mem0: Mem, t0: Tree, free0: seq<nat>, mem1: Mem, t1: Tree, free1: seq<nat>,
                  mem: Mem, t: Tree, free: seq<nat>)
    requires Kept(mem0, t0, free0, mem1, t1, free1) && Kept(mem1, t1, free1, mem, t, free)
    ensures Kept(mem0, t0, free0, mem, t, free)
  {
    hide Tables, Elems, Pool;
    WithinChain(mem0, mem1, mem, Pool(t0, free0));
  }

  // Page vpn has got the entry e, all others are as before.
  ghost predicate Changed(mem0: Mem, t0: Tree, mem: Mem, t: Tree, vpn: nat, e: nat) {
    && Wf(mem0, t0) && Wf(mem, t) && Lookup(mem, t, vpn) == e
    && forall v: nat :: v != vpn ==> Lookup(mem, t, v) == Lookup(mem0, t0, v)
  }

  // The n pages from v0 on map to the pages from page0 on, all others as before.
  ghost predicate MappedTo(mem0: Mem, t0: Tree, mem: Mem, t: Tree, v0: nat, n: nat, page0: nat, flags: nat) {
    && Wf(mem0, t0) && Wf(mem, t)
    && forall v: nat :: Lookup(mem, t, v) ==
         if v0 <= v < v0 + n then Pte(page0 + (v - v0), flags) else Lookup(mem0, t0, v)
  }

  lemma MapStart(mem: Mem, t: Tree, v0: nat, page0: nat, flags: nat)
    requires Wf(mem, t)
    ensures MappedTo(mem, t, mem, t, v0, 0, page0, flags)
  {
  }

  lemma MapNext(mem0: Mem, t0: Tree, mem1: Mem, t1: Tree, mem: Mem, t: Tree, v0: nat, n: nat, page0: nat, flags: nat)
    requires MappedTo(mem0, t0, mem1, t1, v0, n, page0, flags)
    requires Changed(mem1, t1, mem, t, v0 + n, Pte(page0 + n, flags))
    ensures MappedTo(mem0, t0, mem, t, v0, n + 1, page0, flags)
  {
    hide Wf, Pte;
  }

  lemma MapSame(mem0: Mem, t0: Tree, mem1: Mem, t1: Tree, mem: Mem, t: Tree, v0: nat, n: nat, page0: nat, flags: nat)
    requires MappedTo(mem0, t0, mem1, t1, v0, n, page0, flags) && SameMap(mem1, t1, mem, t)
    ensures MappedTo(mem0, t0, mem, t, v0, n, page0, flags)
  {
    hide Wf, Pte;
  }

  // The entry of a page that walk has reached.
  lemma ReachedEntry(mem: Mem, t: Tree, vpn: nat, page: nat)
    requires Wf(mem, t) && Reached(t, vpn, 0, page)
    ensures page in mem && page in Tables(t) && mem[page][Px0(vpn)] == Lookup(mem, t, vpn)
    ensures EntryOk(mem[page][Px0(vpn)])
  {
    InTables(t);
  }

  // Storing an entry at the place walk returned.
  lemma EntryStored(mem: Mem, t: Tree, free: seq<nat>, vpn: nat, page: nat, e: nat)
    requires Owned(mem, t, free) && Reached(t, vpn, 0, page) && page in mem && EntryOk(e)
    ensures Kept(mem, t, free, mem[page := mem[page][Px0(vpn) := e]], t, free)
    ensures Changed(mem, t, mem[page := mem[page][Px0(vpn) := e]], t, vpn, e)
  {
    InTables(t);
    SetEntry(mem, t, vpn, e);
    hide Tables, Elems, EntryOk, Wf, Lookup;
    assert EntrySet(mem, t, vpn, e) == mem[page := mem[page][Px0(vpn) := e]];
  }

  lemma AfterWalk(mem0: Mem, t0: Tree, mem1: Mem, t1: Tree, mem: Mem, t: Tree, vpn: nat, e: nat)
    requires SameMap(mem0, t0, mem1, t1) && Changed(mem1, t1, mem, t, vpn, e)
    ensures Changed(mem0, t0, mem, t, vpn, e)
  {
    hide Wf;
  }

  lemma WalkStart(mem: Mem, t: Tree, free: seq<nat>)
    requires Owned(mem, t, free)
    ensures Walking(mem, t, free, mem, t, free)
  {
  }

  lemma WalkingWf(mem0: Mem, t0: Tree, free0: seq<nat>, mem: Mem, t: Tree, free: seq<nat>)
    requires Walking(mem0, t0, free0, mem, t, free)
    ensures Wf(mem, t) && Owned(mem, t, free) && (forall p :: p in Tables(t) ==> p !in free)
  {
    assert forall p :: p in free ==> p in Elems(free);
  }

  // One more table, taken from the head of the free list.
  lemma WalkGrows(mem0: Mem, t0: Tree, free0: seq<nat>, mem: Mem, t: Tree, free: seq<nat>, free': seq<nat>,
                  vpn: nat, level: nat, table: nat, q: nat)
    requires Walking(mem0, t0, free0, mem, t, free) && free == [q] + free' && q !in free' && q in mem
    requires vpn < MAXVPN && 1 <= level <= 2 && Reached(t, vpn, level, table) && !HasNext(t, vpn, level)
    requires table in mem && table in Tables(t)
    ensures Walking(mem0, t0, free0, mem[q := ZeroPage()][table := mem[table][Px(level, vpn) := Link(q)]],
                    Grown(t, vpn, level, q), free')
    ensures Reached(Grown(t, vpn, level, q), vpn, level - 1, q)
  {
    hide Wf, Tables, Elems, Grown, Reached, HasNext, Px, Link, Lookup;
    HeadOfFree(free, free', q);
    GrowTree(mem, t, vpn, level, table, q);
    GrownTables(t, vpn, level, q);
    GrownRoot(t, vpn, level, q);
    SameMapChain(mem0, t0, mem, t, mem[q := ZeroPage()][table := mem[table][Px(level, vpn) := Link(q)]],
                 Grown(t, vpn, level, q));
    assert q in Pool(t0, free0) && table in Pool(t0, free0);
  }

  lemma HeadOfFree(free: seq<nat>, free': seq<nat>, q: nat)
    requires free == [q] + free' && q !in free'
    ensures Elems(free) == Elems(free') + {q} && q !in Elems(free') && |free'| < |free|
  {
  }

  lemma GrownRoot(t: Tree, vpn: nat, level: nat, q: nat)
    ensures Grown(t, vpn, level, q).root == t.root
  {
  }

  // The n pages from v0 on are no longer mapped, all others are as before.
  ghost predicate Unmapped(mem0: Mem, mem: Mem, t: Tree, v0: nat, n: nat) {
    && Wf(mem0, t) && Wf(mem, t)
    && forall v: nat :: Lookup(mem, t, v) == if v0 <= v < v0 + n then 0 else Lookup(mem0, t, v)
  }

  // The frame a page is mapped to.
  ghost function Frame(mem: Mem, t: Tree, v: nat): nat
    requires Wf(mem, t)
  {
    PageOf(Lookup(mem, t, v))
  }

  // An allocated page that is not a table of t.
  ghost predicate GoodFrame(f: nat, t: Tree, free: seq<nat>, end: nat) {
    end <= f * PGSIZE < PHYSTOP && f !in free && f !in Tables(t)
  }

  lemma FrameNotInPool(f: nat, t: Tree, free: seq<nat>, end: nat)
    ensures GoodFrame(f, t, free, end) <==> end <= f * PGSIZE < PHYSTOP && f !in Pool(t, free)
  {
  }

  // The n pages from v0 on are mapped to different allocated pages that are
  // not tables of t.
  ghost predicate FramesOk(mem: Mem, t: Tree, free: seq<nat>, end: nat, v0: nat, n: nat) {
    && Wf(mem, t)
    && (forall v: nat :: v0 <= v < v0 + n ==> GoodFrame(Frame(mem, t, v), t, free, end))
    && (forall v: nat, w: nat :: v0 <= v < w < v0 + n ==> Frame(mem, t, v) != Frame(mem, t, w))
  }

  // The free list after the frames of n pages from v0 on have been freed.
  ghost function Freed(mem: Mem, t: Tree, v0: nat, n: nat, free: seq<nat>): seq<nat>
    requires Wf(mem, t)
  {
    if n == 0 then free else [Frame(mem, t, v0 + n - 1)] + Freed(mem, t, v0, n - 1, free)
  }

  lemma {:induction false} NotFreed(mem: Mem, t: Tree, v0: nat, n: nat, free: seq<nat>, p: nat)
    requires Wf(mem, t) && p !in free && forall v: nat :: v0 <= v < v0 + n ==> Frame(mem, t, v) != p
    ensures p !in Freed(mem, t, v0, n, free)
  {
    hide Wf, Frame;
    if n > 0 {
      NotFreed(mem, t, v0, n - 1, free, p);
    }
  }

  lemma UnmapStart(mem: Mem, t: Tree, free: seq<nat>, v0: nat)
    requires Wf(mem, t)
    ensures Unmapped(mem, mem, t, v0, 0) && Freed(mem, t, v0, 0, free) == free
    ensures Within(mem, mem, Tables(t) + Elems(free))
  {
  }

  lemma StillMapped(mem0: Mem, mem: Mem, t: Tree, v0: nat, k: nat)
    requires Unmapped(mem0, mem, t, v0, k) && Lookup(mem0, t, v0 + k) != 0
    ensures Lookup(mem, t, v0 + k) == Lookup(mem0, t, v0 + k) && Pair(v0 + k) in t.low
  {
  }

  // None of the panics of uvmunmap is reached.
  lemma LeafEntry(e: nat)
    requires EntryOk(e) && e != 0
    ensures IsValid(e) && Flags(e) != PTE_V
  {
  }

  lemma FrameToFree(mem0: Mem, t: Tree, free0: seq<nat>, end: nat, v0: nat, k: nat)
    requires FramesOk(mem0, t, free0, end, v0, k + 1)
    ensures end <= Frame(mem0, t, v0 + k) * PGSIZE < PHYSTOP && Frame(mem0, t, v0 + k) !in Tables(t)
    ensures Frame(mem0, t, v0 + k) !in Freed(mem0, t, v0, k, free0)
  {
    assert GoodFrame(Frame(mem0, t, v0 + k), t, free0, end);
    NotFreed(mem0, t, v0, k, free0, Frame(mem0, t, v0 + k));
  }

  // kfree of a frame does not disturb the page table.
  lemma FrameFreed(mem0: Mem, mem1: Mem, mem: Mem, t: Tree, free0: seq<nat>, free1: seq<nat>, end: nat, v0: nat, k: nat)
    requires FramesOk(mem0, t, free0, end, v0, k + 1) && Unmapped(mem0, mem1, t, v0, k)
    requires free1 == Freed(mem0, t, v0, k, free0) && Owned(mem1, t, free1)
    requires Within(mem0, mem1, Tables(t) + Elems(free1))
    requires Frame(mem0, t, v0 + k) in mem1 && Frame(mem0, t, v0 + k) in mem
    requires mem == mem1[Frame(mem0, t, v0 + k) := mem[Frame(mem0, t, v0 + k)]]
    ensures Freed(mem0, t, v0, k + 1, free0) == [Frame(mem0, t, v0 + k)] + free1
    ensures Owned(mem, t, [Frame(mem0, t, v0 + k)] + free1) && Unmapped(mem0, mem, t, v0, k)
    ensures Within(mem0, mem, Tables(t) + Elems([Frame(mem0, t, v0 + k)] + free1))
  {
    var q := Frame(mem0, t, v0 + k);
    assert GoodFrame(q, t, free0, end);
    assert Elems([q] + free1) == Elems(free1) + {q};
    hide Tables, Elems, Freed, FramesOk;
    TreeFrameSame(mem1, mem, t, q);
    hide Wf, Lookup;
  }

  lemma TreeFrameSame(mem: Mem, mem': Mem, t: Tree, q: nat)
    requires Wf(mem, t) && q !in Tables(t) && q in mem && q in mem' && mem' == mem[q := mem'[q]]
    ensures SameMap(mem, t, mem', t)
  {
    TablesInMem(mem, t);
    TreeFrame(mem, mem', t);
  }

  lemma TablesInMem(mem: Mem, t: Tree)
    requires Wf(mem, t)
    ensures forall p :: p in Tables(t) ==> p in mem
  {
  }

  lemma UnmapNext(mem0: Mem, mem1: Mem, mem: Mem, t: Tree, free: seq<nat>, v0: nat, k: nat, page: nat)
    requires Unmapped(mem0, mem1, t, v0, k) && Changed(mem1, t, mem, t, v0 + k, 0)
    requires Kept(mem1, t, free, mem, t, free)
    requires Within(mem0, mem1, Tables(t) + Elems(free))
    ensures Unmapped(mem0, mem, t, v0, k + 1) && Owned(mem, t, free)
    ensures Within(mem0, mem, Tables(t) + Elems(free))
  {
    hide Wf, Lookup, Tables, Elems;
    WithinChain(mem0, mem1, mem, Tables(t) + Elems(free));
  }

  // Page q was taken off the free list and is neither free nor a table now.
  ghost predicate Taken(mem0: Mem, t0: Tree, free0: seq<nat>, mem: Mem, t: Tree, free: seq<nat>, q: nat) {
    && t.root == t0.root && q in free0 && q in mem && q !in Tables(t) && q !in free
    && Pool(t, free) + {q} == Pool(t0, free0) && Tables(t0) <= Tables(t)
    && Within(mem0, mem, Pool(t0, free0))
  }

  lemma SameMapStart(mem: Mem, t: Tree, free: seq<nat>)
    requires Owned(mem, t, free)
    ensures SameMap(mem, t, mem, t)
  {
  }

  // kalloc and memset of a frame.
  lemma TakeFrame(mem0: Mem, t: Tree, free0: seq<nat>, mem1: Mem, free1: seq<nat>, q: nat)
    requires Owned(mem0, t, free0) && free0 == [q] + free1 && q !in free1 && q in mem0 && q in mem1
    requires mem1 == mem0[q := mem1[q]]
    ensures SameMap(mem0, t, mem1, t) && Owned(mem1, t, free1) && Taken(mem0, t, free0, mem1, t, free1, q)
  {
    HeadOfFree(free0, free1, q);
    assert q in Elems(free0);
    hide Elems, Tables;
    TreeFrameSame(mem0, mem1, t, q);
    hide Wf, Lookup;
  }

  // What mappages does with the rest of the pool leaves the frame alone.
  lemma FrameStays(mem0: Mem, t0: Tree, free0: seq<nat>, mem1: Mem, free1: seq<nat>, mem: Mem, t: Tree, free: seq<nat>, q: nat)
    requires Taken(mem0, t0, free0, mem1, t0, free1, q) && Kept(mem1, t0, free1, mem, t, free)
    ensures Taken(mem0, t0, free0, mem, t, free, q) && mem[q] == mem1[q]
  {
    assert forall p :: p in free <==> p in Elems(free);
    assert forall p :: p in free1 <==> p in Elems(free1);
    hide Elems, Tables;
    assert q !in Pool(t0, free1) && q !in Pool(t, free);
  }

  lemma MappedOne(mem0: Mem, t0: Tree, mem1: Mem, mem: Mem, t: Tree, vpn: nat, q: nat, perm: nat)
    requires SameMap(mem0, t0, mem1, t0) && MappedTo(mem1, t0, mem, t, vpn, 1, q, WithValid(perm))
    ensures Changed(mem0, t0, mem, t, vpn, Pte(q, WithValid(perm)))
  {
    hide Wf, WithValid, Pte;
    assert Lookup(mem, t, vpn) == Pte(q + (vpn - vpn), WithValid(perm));
  }

  // A failed mappages of one page has mapped nothing.
  lemma MappedNone(mem1: Mem, t0: Tree, mem: Mem, t: Tree, vpn: nat, done: nat, q: nat, perm: nat)
    requires MappedTo(mem1, t0, mem, t, vpn, done, q, WithValid(perm)) && done == 0
    ensures SameMap(mem1, t0, mem, t)
  {
    hide Wf, WithValid, Pte;
  }

  lemma GiveBackFrame(mem0: Mem, t0: Tree, free0: seq<nat>, mem1: Mem, mem: Mem, t: Tree, free: seq<nat>, q: nat)
    requires Taken(mem0, t0, free0, mem, t, free, q) && SameMap(mem0, t0, mem1, t0) && SameMap(mem1, t0, mem, t)
    ensures q !in free && q in mem && SameMap(mem0, t0, mem, t)
  {
    SameMapChain(mem0, t0, mem1, t0, mem, t);
  }

  lemma FrameGivenBack(mem0: Mem, t0: Tree, free0: seq<nat>, mem2: Mem, mem: Mem, t: Tree, free: seq<nat>, q: nat)
    requires Taken(mem0, t0, free0, mem2, t, free, q) && SameMap(mem0, t0, mem2, t) && Owned(mem2, t, free)
    requires q in mem && mem == mem2[q := mem[q]]
    ensures SameMap(mem0, t0, mem, t) && Kept(mem0, t0, free0, mem, t, [q] + free) && Owned(mem, t, [q] + free)
  {
    assert Elems([q] + free) == Elems(free) + {q};
    assert q in Pool(t0, free0);
    hide Elems, Tables;
    TreeFrameSame(mem2, mem, t, q);
    SameMapChain(mem0, t0, mem2, t, mem, t);
    hide Wf, Lookup;
  }

  // ---------- growing a process ----------

  // The pages from p on map to the frames fs, with the flags fl and the contents
  // cs; all other pages map as before, and every page is accounted for.
  ghost predicate Extended(mem0: Mem, t0: Tree, free0: seq<nat>, mem: Mem, t: Tree, free: seq<nat>, end: nat,
                           p: nat, fs: seq<nat>, fl: seq<nat>, cs: seq<Page>) {
    && Owned(mem, t, free) && t.root == t0.root && Tables(t0) <= Tables(t)
    && ExtendedMap(mem0, t0, mem, t, p, fs, fl)
    && Pool(t, free) + Elems(fs) == Pool(t0, free0) && Within(mem0, mem, Pool(t0, free0))
    && FramesOk(mem, t, free, end, 0, p + |fs|) && end > 0
    && Filled(mem, fs, cs)
  }

  ghost predicate ExtendedMap(mem0: Mem, t0: Tree, mem: Mem, t: Tree, p: nat, fs: seq<nat>, fl: seq<nat>) {
    && Wf(mem0, t0) && Wf(mem, t) && |fl| == |fs| && (forall i :: 0 <= i < |fl| ==> fl[i] < 1024)
    && forall v: nat :: Lookup(mem, t, v) == if p <= v < p + |fs| then Pte(fs[v - p], fl[v - p]) else Lookup(mem0, t0, v)
  }

  ghost predicate Filled(mem: Mem, fs: seq<nat>, cs: seq<Page>) {
    |cs| == |fs| && forall i :: 0 <= i < |fs| ==> fs[i] in mem && mem[fs[i]] == cs[i]
  }

  lemma ExtendStart(mem: Mem, t: Tree, free: seq<nat>, end: nat, p: nat)
    requires Owned(mem, t, free) && FramesOk(mem, t, free, end, 0, p) && end > 0
    ensures Extended(mem, t, free, mem, t, free, end, p, [], [], [])
  {
  }

  // The user image cannot be larger than physical memory.
  lemma ImageBound(mem: Mem, t: Tree, free: seq<nat>, end: nat, n: nat)
    requires FramesOk(mem, t, free, end, 0, n) && KERNBASE <= end
    ensures n <= 0x8000
  {
    var s := seq(n, v requires 0 <= v < n => if Frame(mem, t, v) >= 0x80000 then Frame(mem, t, v) - 0x80000 else 0);
    forall i | 0 <= i < n ensures s[i] == Frame(mem, t, i) - 0x80000 && s[i] < 0x8000 {
      assert end <= Frame(mem, t, i) * PGSIZE < PHYSTOP;
    }
    hide Frame;
    assert Distinct(s);
    AtMost(s, 0x8000);
  }

  lemma ExtendMapNext(mem0: Mem, t0: Tree, mem1: Mem, t1: Tree, mem: Mem, t: Tree, p: nat, fs: seq<nat>, fl: seq<nat>,
                      q: nat, flags: nat)
    requires ExtendedMap(mem0, t0, mem1, t1, p, fs, fl) && Changed(mem1, t1, mem, t, p + |fs|, Pte(q, flags)) && flags < 1024
    ensures ExtendedMap(mem0, t0, mem, t, p, fs + [q], fl + [flags])
  {
    hide Wf, Pte;
  }

  lemma FramesNext(mem1: Mem, t1: Tree, free1: seq<nat>, mem: Mem, t: Tree, free: seq<nat>, end: nat, n: nat, flags: nat, q: nat)
    requires FramesOk(mem1, t1, free1, end, 0, n) && Changed(mem1, t1, mem, t, n, Pte(q, flags)) && flags < 1024
    requires Taken(mem1, t1, free1, mem, t, free, q) && GoodFrame(q, t, free, end)
    ensures FramesOk(mem, t, free, end, 0, n + 1)
  {
    hide Wf, Tables, Elems, Lookup, PageOf, Pte, GoodFrame;
    PteFields(q, flags);
    FrameNotInPool(q, t, free, end);
    forall v: nat | v < n
      ensures Frame(mem, t, v) == Frame(mem1, t1, v) && Frame(mem, t, v) != q && GoodFrame(Frame(mem, t, v), t, free, end)
    {
      FrameNotInPool(Frame(mem1, t1, v), t1, free1, end);
      FrameNotInPool(Frame(mem1, t1, v), t, free, end);
    }
  }

  lemma ExtendNext(mem0: Mem, t0: Tree, free0: seq<nat>, mem1: Mem, t1: Tree, free1: seq<nat>, mem: Mem, t: Tree, free: seq<nat>,
                   end: nat, p: nat, fs: seq<nat>, fl: seq<nat>, cs: seq<Page>, q: nat, flags: nat)
    requires Extended(mem0, t0, free0, mem1, t1, free1, end, p, fs, fl, cs) && flags < 1024
    requires Changed(mem1, t1, mem, t, p + |fs|, Pte(q, flags)) && Taken(mem1, t1, free1, mem, t, free, q)
    requires Owned(mem, t, free) && GoodFrame(q, t, free, end)
    ensures Extended(mem0, t0, free0, mem, t, free, end, p, fs + [q], fl + [flags], cs + [mem[q]])
  {
    hide Wf, Tables, Elems, Lookup, Pte, FramesOk, ExtendedMap, Changed, Owned, GoodFrame, Filled;
    ExtendMapNext(mem0, t0, mem1, t1, mem, t, p, fs, fl, q, flags);
    FramesNext(mem1, t1, free1, mem, t, free, end, p + |fs|, flags, q);
    NewFrames(mem0, t0, mem1, t1, free1, end, p, fs, fl);
    ElemsAppend(fs, q);
    FilledStays(mem1, mem, Pool(t1, free1), fs, cs);
    FilledNext(mem, fs, cs, q);
  }

  lemma ElemsAppend(fs: seq<nat>, q: nat)
    ensures Elems(fs + [q]) == Elems(fs) + {q}
  {
  }

  lemma FilledStays(mem1: Mem, mem: Mem, pool: set<nat>, fs: seq<nat>, cs: seq<Page>)
    requires Filled(mem1, fs, cs) && Within(mem1, mem, pool) && forall i :: 0 <= i < |fs| ==> fs[i] !in pool
    ensures Filled(mem, fs, cs)
  {
  }

  lemma FilledNext(mem: Mem, fs: seq<nat>, cs: seq<Page>, q: nat)
    requires Filled(mem, fs, cs) && q in mem
    ensures Filled(mem, fs + [q], cs + [mem[q]])
  {
  }

  // The new frames are outside the pool.
  lemma NewFrames(mem0: Mem, t0: Tree, mem: Mem, t: Tree, free: seq<nat>, end: nat, p: nat, fs: seq<nat>, fl: seq<nat>)
    requires ExtendedMap(mem0, t0, mem, t, p, fs, fl) && FramesOk(mem, t, free, end, 0, p + |fs|) && end > 0
    ensures forall i :: 0 <= i < |fs| ==> fs[i] !in Pool(t, free) && Frame(mem, t, p + i) == fs[i] && fs[i] != 0
  {
    hide Wf, Tables, Elems, Pte, PageOf, Lookup, GoodFrame;
    forall i | 0 <= i < |fs| ensures fs[i] !in Pool(t, free) && Frame(mem, t, p + i) == fs[i] && fs[i] != 0 {
      PteFields(fs[i], fl[i]);
      assert Lookup(mem, t, p + i) == Pte(fs[i], fl[i]);
      FrameNotInPool(Frame(mem, t, p + i), t, free, end);
    }
  }

  lemma ExtendSame(mem0: Mem, t0: Tree, free0: seq<nat>, mem1: Mem, t1: Tree, free1: seq<nat>, mem: Mem, t: Tree, free: seq<nat>,
                   end: nat, p: nat, fs: seq<nat>, fl: seq<nat>, cs: seq<Page>)
    requires Extended(mem0, t0, free0, mem1, t1, free1, end, p, fs, fl, cs)
    requires SameMap(mem1, t1, mem, t) && Kept(mem1, t1, free1, mem, t, free) && Owned(mem, t, free)
    ensures Extended(mem0, t0, free0, mem, t, free, end, p, fs, fl, cs)
  {
    hide Wf, Tables, Elems, Lookup, Pte, FramesOk, Owned, GoodFrame, Filled;
    NewFrames(mem0, t0, mem1, t1, free1, end, p, fs, fl);
    FramesSame(mem1, t1, free1, mem, t, free, end, p + |fs|);
    FilledStays(mem1, mem, Pool(t1, free1), fs, cs);
  }

  lemma FramesSame(mem1: Mem, t1: Tree, free1: seq<nat>, mem: Mem, t: Tree, free: seq<nat>, end: nat, n: nat)
    requires FramesOk(mem1, t1, free1, end, 0, n) && SameMap(mem1, t1, mem, t) && Kept(mem1, t1, free1, mem, t, free)
    ensures FramesOk(mem, t, free, end, 0, n)
  {
    hide Wf, Tables, Elems, Lookup, PageOf, Pte, GoodFrame;
    forall v: nat | v < n
      ensures Frame(mem, t, v) == Frame(mem1, t1, v) && GoodFrame(Frame(mem, t, v), t, free, end)
    {
      FrameNotInPool(Frame(mem1, t1, v), t1, free1, end);
      FrameNotInPool(Frame(mem1, t1, v), t, free, end);
    }
  }

  // Taking the new pages out again restores the page table's map and gives the
  // frames back to the pool.
  lemma RolledBack(mem0: Mem, t0: Tree, free0: seq<nat>, mem1: Mem, t: Tree, free1: seq<nat>, mem: Mem, free: seq<nat>,
                   end: nat, p: nat, fs: seq<nat>, fl: seq<nat>, cs: seq<Page>)
    requires Extended(mem0, t0, free0, mem1, t, free1, end, p, fs, fl, cs)
    requires forall v: nat :: p <= v < p + |fs| ==> Lookup(mem0, t0, v) == 0
    requires Unmapped(mem1, mem, t, p, |fs|) && free == Freed(mem1, t, p, |fs|, free1)
    requires Within(mem1, mem, Tables(t) + Elems(free)) && Owned(mem, t, free)
    ensures SameMap(mem0, t0, mem, t) && Kept(mem0, t0, free0, mem, t, free)
  {
    hide Wf, Tables, Elems, Lookup, Pte, FramesOk, GoodFrame, Filled, Freed;
    NewFrames(mem0, t0, mem1, t, free1, end, p, fs, fl);
    FreedElems(mem1, t, p, fs, free1);
    WithinChain(mem0, mem1, mem, Pool(t0, free0));
  }

  lemma {:induction false} FreedElems(mem: Mem, t: Tree, p: nat, fs: seq<nat>, free: seq<nat>)
    requires Wf(mem, t) && forall i :: 0 <= i < |fs| ==> Frame(mem, t, p + i) == fs[i]
    ensures Elems(Freed(mem, t, p, |fs|, free)) == Elems(free) + Elems(fs)
  {
    hide Wf, Frame;
    if fs != [] {
      var n := |fs|;
      var f := fs[n - 1];
      FreedElems(mem, t, p, fs[..n - 1], free);
      assert fs == fs[..n - 1] + [f];
      assert Frame(mem, t, p + (n - 1)) == f;
      assert Freed(mem, t, p, n, free) == [f] + Freed(mem, t, p, n - 1, free);
      ElemsAppend(fs[..n - 1], f);
      ElemsPrepend(Freed(mem, t, p, n - 1, free), f);
    } else {
      assert Elems(fs) == {};
    }
  }

  lemma ElemsPrepend(fs: seq<nat>, q: nat)
    ensures Elems([q] + fs) == Elems(fs) + {q}
  {
  }

  lemma ReadyToRollBack(mem0: Mem, t0: Tree, free0: seq<nat>, mem: Mem, t: Tree, free: seq<nat>,
                        end: nat, p: nat, fs: seq<nat>, fl: seq<nat>, cs: seq<Page>)
    requires Extended(mem0, t0, free0, mem, t, free, end, p, fs, fl, cs)
    ensures FramesOk(mem, t, free, end, p, |fs|) && Owned(mem, t, free) && t.root == t0.root
    ensures forall v :: p <= v < p + |fs| ==> Lookup(mem, t, v) != 0
  {
    hide Wf, Tables, Elems, Pte, GoodFrame, Filled;
    NewFrames(mem0, t0, mem, t, free, end, p, fs, fl);
    forall v | p <= v < p + |fs| ensures Lookup(mem, t, v) != 0 {
      assert Frame(mem, t, p + (v - p)) == fs[v - p];
    }
  }

  lemma WholeAddress(f: nat)
    ensures f * PGSIZE % PGSIZE == 0 && f * PGSIZE / PGSIZE == f
  {
  }

  lemma EmptyTable(mem: Mem, root: nat, free: seq<nat>)
    requires root in mem && mem[root] == ZeroPage() && root !in free
    ensures Owned(mem, Tree(root, map[], map[]), free)
    ensures forall v: nat :: Lookup(mem, Tree(root, map[], map[]), v) == 0
  {
  }

  class Machine {
    const ram: Allocator

    constructor (r: Allocator)
      ensures ram == r
    {
      ram := r;
    }

    // kalloc, memset and the store of the new entry in walk.
    method NewTable(table: nat, i: nat) returns (q: nat)
      requires ram.Valid() && table in ram.mem && table !in ram.free && i < 512
      modifies ram
      ensures ram.Valid()
      ensures q == 0 <==> old(ram.free) == []
      ensures q == 0 ==> ram.mem == old(ram.mem) && ram.free == old(ram.free)
      ensures q != 0 ==> old(ram.free) == [q] + ram.free && q !in ram.free && q in old(ram.mem)
      ensures q != 0 ==> ram.mem == old(ram.mem)[q := ZeroPage()][table := old(ram.mem)[table][i := Link(q)]]
    {
      hide Chain;
      var pa := ram.Kalloc();
      q := pa / PGSIZE;
      if pa != 0 {
        ram.Store(q, ZeroPage());
        ram.Store(table, ram.mem[table][i := Link(q)]);
      }
    }

    // uvmcreate: a page table that maps nothing, 0 if there is no page.
    method UvmCreate() returns (root: nat, ghost t: Tree)
      requires ram.Valid()
      modifies ram
      ensures ram.Valid() && (root == 0 <==> old(ram.free) == [])
      ensures root == 0 ==> ram.mem == old(ram.mem) && ram.free == old(ram.free)
      ensures root != 0 ==> old(ram.free) == [root] + ram.free && ram.mem == old(ram.mem)[root := ZeroPage()]
      ensures root != 0 ==> t == Tree(root, map[], map[])
      ensures root != 0 ==> Owned(ram.mem, t, ram.free) && forall v: nat :: Lookup(ram.mem, t, v) == 0
    {
      hide Chain;
      t := Tree(0, map[], map[]);
      var pa := ram.Kalloc();
      root := pa / PGSIZE;
      if pa != 0 {
        ram.Store(root, ZeroPage());
        t := Tree(root, map[], map[]);
        EmptyTable(ram.mem, root, ram.free);
      }
    }

    // walk: the table page and index of the level-0 entry for va, creating the
    // tables on the way if alloc is set. found is false where walk returns 0.
    method Walk(root: nat, va: nat, alloc: bool, ghost t: Tree)
      returns (found: bool, page: nat, index: nat, ghost t': Tree)
      requires ram.Valid() && Owned(ram.mem, t, ram.free) && t.root == root
      requires va < MAXVA
      modifies ram
      ensures ram.Valid() && Walking(old(ram.mem), t, old(ram.free), ram.mem, t', ram.free)
      ensures found ==> index == va / PGSIZE % 512 && Reached(t', va / PGSIZE, 0, page)
      ensures !alloc ==> t' == t && ram.mem == old(ram.mem) && ram.free == old(ram.free)
      ensures !alloc ==> (found <==> Pair(va / PGSIZE) in t.low)
      ensures alloc && !found ==> ram.free == []
    {
      hide Allocator.Valid, Walking, Owned, Wf, Reached, HasNext, Grown, Tables, Elems;
      var vpn := va / PGSIZE;
      WalkStart(ram.mem, t, ram.free);
      t' := t;
      page, index := root, 0;
      var level := 2;
      ReachedRoot(t, vpn);
      while level > 0
        invariant 0 <= level <= 2
        invariant ram.Valid() && Walking(old(ram.mem), t, old(ram.free), ram.mem, t', ram.free)
        invariant Reached(t', vpn, level, page)
        invariant !alloc ==> t' == t && ram.mem == old(ram.mem) && ram.free == old(ram.free)
      {
        WalkingWf(old(ram.mem), t, old(ram.free), ram.mem, t', ram.free);
        NextTable(ram.mem, t', vpn, level, page);
        var e := ram.mem[page][Px(level, vpn)];
        if IsValid(e) {
          page := PageOf(e);
        } else {
          if !alloc {
            NoEntry(ram.mem, t, vpn, level);
            return false, page, index, t';
          }
          ghost var mem, free := ram.mem, ram.free;
          var q := NewTable(page, Px(level, vpn));
          if q == 0 {
            return false, page, index, t';
          }
          WalkGrows(old(ram.mem), t, old(ram.free), mem, t', free, ram.free, vpn, level, page, q);
          t' := Grown(t', vpn, level, q);
          page := q;
        }
        level := level - 1;
      }
      ReachedLow(t', vpn, page);
      return true, page, Px0(vpn), t';
    }

    // One iteration of mappages.
    method MapPage(root: nat, vpn: nat, target: nat, perm: nat, ghost t: Tree) returns (ok: bool, ghost t': Tree)
      requires ram.Valid() && Owned(ram.mem, t, ram.free) && t.root == root
      requires vpn < MAXVPN && perm < 1024 && IsLeaf(perm) && Lookup(ram.mem, t, vpn) == 0
      modifies ram
      ensures ram.Valid() && Owned(ram.mem, t', ram.free)
      ensures Kept(old(ram.mem), t, old(ram.free), ram.mem, t', ram.free)
      ensures ok ==> Changed(old(ram.mem), t, ram.mem, t', vpn, Pte(target, WithValid(perm)))
      ensures !ok ==> SameMap(old(ram.mem), t, ram.mem, t') && ram.free == []
    {
      hide Allocator.Valid, Owned, Kept, Wf, Reached, Tables, Elems, SameMap, Changed, Lookup, EntryOk, WithValid, Pte;
      ghost var mem0, free0 := ram.mem, ram.free;
      var page, index;
      ok, page, index, t' := Walk(root, vpn * PGSIZE, true, t);
      ghost var mem1 := ram.mem;
      WalkingWf(mem0, t, free0, mem1, t', ram.free);
      if !ok { return; }
      ReachedEntry(mem1, t', vpn, page);
      SameAt(mem0, t, mem1, t', vpn);
      assert !IsValid(ram.mem[page][index]);
      NewEntry(target, perm);
      EntryStored(mem1, t', ram.free, vpn, page, Pte(target, WithValid(perm)));
      ram.Store(page, ram.mem[page][index := Pte(target, WithValid(perm))]);
      AfterWalk(mem0, t, mem1, t', ram.mem, t', vpn, Pte(target, WithValid(perm)));
      KeptChain(mem0, t, free0, mem1, t', ram.free, ram.mem, t', ram.free);
      KeptOwned(mem1, t', ram.free, ram.mem, t', vpn, Pte(target, WithValid(perm)));
    }

    // mappages: done counts the pages mapped, all of them unless it returns -1.
    method MapPages(root: nat, va: nat, size: nat, pa: nat, perm: nat, ghost t: Tree)
      returns (ok: bool, ghost t': Tree, ghost done: nat)
      requires ram.Valid() && Owned(ram.mem, t, ram.free) && t.root == root
      requires size > 0 && va + size <= MAXVA && perm < 1024 && IsLeaf(perm)
      requires forall v :: va / PGSIZE <= v <= (va + size - 1) / PGSIZE ==> Lookup(ram.mem, t, v) == 0
      modifies ram
      ensures ram.Valid() && Owned(ram.mem, t', ram.free)
      ensures Kept(old(ram.mem), t, old(ram.free), ram.mem, t', ram.free)
      ensures MappedTo(old(ram.mem), t, ram.mem, t', va / PGSIZE, done, pa / PGSIZE, WithValid(perm))
      ensures ok ==> done == (va + size - 1) / PGSIZE - va / PGSIZE + 1
      ensures !ok ==> done < (va + size - 1) / PGSIZE - va / PGSIZE + 1
      ensures !ok ==> ram.free == []
    {
      hide Allocator.Valid, Owned, Kept, Wf, Tables, Elems, SameMap, Changed, MappedTo, Lookup, WithValid, Pte, IsLeaf;
      ghost var mem0, free0, v0, p0, flags := ram.mem, ram.free, va / PGSIZE, pa / PGSIZE, WithValid(perm);
      var a, last, p := va / PGSIZE, (va + size - 1) / PGSIZE, pa / PGSIZE;
      OwnedWf(mem0, t, free0);
      MapStart(mem0, t, v0, p0, flags);
      KeptStart(mem0, t, free0);
      t', done := t, 0;
      while true
        invariant v0 <= a <= last && done == a - v0 && p == p0 + done
        invariant ram.Valid() && Owned(ram.mem, t', ram.free) && t'.root == root
        invariant Kept(mem0, t, free0, ram.mem, t', ram.free)
        invariant MappedTo(mem0, t, ram.mem, t', v0, done, p0, flags)
        decreases last - a
      {
        ghost var mem1, t1, free1 := ram.mem, t', ram.free;
        NotYetMapped(mem0, t, mem1, t1, v0, done, p0, flags, a);
        ok, t' := MapPage(root, a, p, perm, t1);
        KeptChain(mem0, t, free0, mem1, t1, free1, ram.mem, t', ram.free);
        if !ok {
          MapSame(mem0, t, mem1, t1, ram.mem, t', v0, done, p0, flags);
          return;
        }
        MapNext(mem0, t, mem1, t1, ram.mem, t', v0, done, p0, flags);
        KeptRoot(mem1, t1, free1, ram.mem, t', ram.free);
        done := done + 1;
        if a == last { break; }
        a, p := a + 1, p + 1;
      }
    }

    // uvmunmap of n pages. With doFree the frames go back to the allocator.
    method Unmap(root: nat, va: nat, n: nat, doFree: bool, ghost t: Tree)
      requires ram.Valid() && Owned(ram.mem, t, ram.free) && t.root == root
      requires va % PGSIZE == 0 && va / PGSIZE + n <= MAXVPN
      requires forall v :: va / PGSIZE <= v < va / PGSIZE + n ==> Lookup(ram.mem, t, v) != 0
      requires doFree ==> FramesOk(ram.mem, t, ram.free, ram.end, va / PGSIZE, n)
      modifies ram
      ensures ram.Valid() && Owned(ram.mem, t, ram.free)
      ensures Unmapped(old(ram.mem), ram.mem, t, va / PGSIZE, n)
      ensures ram.free == if doFree then Freed(old(ram.mem), t, va / PGSIZE, n, old(ram.free)) else old(ram.free)
      ensures Within(old(ram.mem), ram.mem, Tables(t) + Elems(ram.free))
    {
      hide Allocator.Valid, Owned, Wf, Tables, Elems, Lookup, FramesOk, Unmapped, Freed, Within, EntryOk;
      ghost var mem0, free0, v0 := ram.mem, ram.free, va / PGSIZE;
      OwnedWf(mem0, t, free0);
      UnmapStart(mem0, t, free0, v0);
      var k := 0;
      while k < n
        invariant 0 <= k <= n
        invariant ram.Valid() && Owned(ram.mem, t, ram.free)
        invariant Unmapped(mem0, ram.mem, t, v0, k)
        invariant ram.free == if doFree then Freed(mem0, t, v0, k, free0) else free0
        invariant Within(mem0, ram.mem, Tables(t) + Elems(ram.free))
      {
        if doFree { FramesPrefix(mem0, t, free0, ram.end, v0, n, k + 1); }
        UnmapPage(root, va / PGSIZE + k, doFree, t, mem0, free0, v0, k);
        k := k + 1;
      }
    }

    method UnmapPage(root: nat, vpn: nat, doFree: bool, ghost t: Tree, ghost mem0: Mem, ghost free0: seq<nat>,
                     ghost v0: nat, ghost k: nat)
      requires ram.Valid() && Owned(ram.mem, t, ram.free) && t.root == root && vpn == v0 + k < MAXVPN
      requires Unmapped(mem0, ram.mem, t, v0, k) && Lookup(mem0, t, vpn) != 0
      requires ram.free == if doFree then Freed(mem0, t, v0, k, free0) else free0
      requires Within(mem0, ram.mem, Tables(t) + Elems(ram.free))
      requires doFree ==> FramesOk(mem0, t, free0, ram.end, v0, k + 1)
      modifies ram
      ensures ram.Valid() && Owned(ram.mem, t, ram.free)
      ensures Unmapped(mem0, ram.mem, t, v0, k + 1)
      ensures ram.free == if doFree then Freed(mem0, t, v0, k + 1, free0) else free0
      ensures Within(mem0, ram.mem, Tables(t) + Elems(ram.free))
    {
      hide Allocator.Valid, Owned, Wf, Reached, Tables, Elems, Lookup, FramesOk, Unmapped, Freed, Within, Walking,
        Kept, Changed, IsValid, IsLeaf, PageOf;
      var found, page, index;
      ghost var t';
      OwnedWf(ram.mem, t, ram.free);
      StillMapped(mem0, ram.mem, t, v0, k);
      WholeAddress(vpn);
      found, page, index, t' := Walk(root, vpn * PGSIZE, false, t);
      ReachedEntry(ram.mem, t, vpn, page);
      var e := ram.mem[page][index];
      LeafEntry(e);
      if doFree {
        ghost var mem1, free1 := ram.mem, ram.free;
        FrameToFree(mem0, t, free0, ram.end, v0, k);
        WholeAddress(PageOf(e));
        ram.Kfree(PageOf(e) * PGSIZE);
        FrameFreed(mem0, mem1, ram.mem, t, free0, free1, ram.end, v0, k);
      }
      ghost var mem2 := ram.mem;
      OwnedWf(mem2, t, ram.free);
      ReachedEntry(mem2, t, vpn, page);
      EntryStored(mem2, t, ram.free, vpn, page, 0);
      OwnedTables(mem2, t, ram.free);
      ram.Store(page, ram.mem[page][index := 0]);
      UnmapNext(mem0, mem2, ram.mem, t, ram.free, v0, k, page);
    }

    // An iteration of uvmalloc or of uvmcopy: a new page, zeroed (src == 0) or a
    // copy of page src, mapped at vpn; or nothing.
    method GrowPage(root: nat, vpn: nat, src: nat, perm: nat, ghost t: Tree) returns (ok: bool, q: nat, ghost t': Tree)
      requires ram.Valid() && Owned(ram.mem, t, ram.free) && t.root == root
      requires vpn < MAXVPN && perm < 1024 && IsLeaf(perm) && Lookup(ram.mem, t, vpn) == 0
      requires src != 0 ==> src in ram.mem && src !in ram.free
      modifies ram
      ensures ram.Valid() && Owned(ram.mem, t', ram.free)
      ensures ok ==> ram.Managed(q) && Changed(old(ram.mem), t, ram.mem, t', vpn, Pte(q, WithValid(perm)))
      ensures ok ==> Taken(old(ram.mem), t, old(ram.free), ram.mem, t', ram.free, q)
      ensures ok ==> ram.mem[q] == if src == 0 then ZeroPage() else old(ram.mem)[src]
      ensures !ok ==> SameMap(old(ram.mem), t, ram.mem, t') && Kept(old(ram.mem), t, old(ram.free), ram.mem, t', ram.free)
    {
      hide Allocator.Valid, Owned, Wf, Tables, Elems, Lookup, SameMap, Changed, Kept, Taken, MappedTo, WithValid, IsLeaf,
        Allocator.Managed, Pte;
      ghost var mem0, free0 := ram.mem, ram.free;
      t' := t;
      var pa := ram.Kalloc();
      q := pa / PGSIZE;
      if pa == 0 {
        SameMapStart(mem0, t, free0);
        KeptStart(mem0, t, free0);
        return false, q, t';
      }
      ram.Store(q, if src == 0 then ZeroPage() else ram.mem[src]);
      ghost var mem1, free1 := ram.mem, ram.free;
      TakeFrame(mem0, t, free0, mem1, free1, q);
      SameAt(mem0, t, mem1, t, vpn);
      ghost var done;
      ok, t', done := MapPages(root, vpn * PGSIZE, PGSIZE, pa, perm, t);
      FrameStays(mem0, t, free0, mem1, free1, ram.mem, t', ram.free, q);
      if !ok {
        MappedNone(mem1, t, ram.mem, t', vpn, done, q, perm);
        GiveBackFrame(mem0, t, free0, mem1, ram.mem, t', ram.free, q);
        ghost var mem2 := ram.mem;
        ram.Kfree(pa);
        FrameGivenBack(mem0, t, free0, mem2, ram.mem, t', ram.free[1..], q);
        return false, q, t';
      }
      MappedOne(mem0, t, mem1, ram.mem, t', vpn, q, perm);
    }

    // uvmdealloc
    method UvmDealloc(root: nat, oldsz: nat, newsz: nat, ghost t: Tree) returns (sz: nat)
      requires ram.Valid() && Owned(ram.mem, t, ram.free) && t.root == root
      requires Pages(oldsz) <= MAXVPN
      requires newsz < oldsz ==>
        (forall v :: Pages(newsz) <= v < Pages(oldsz) ==> Lookup(ram.mem, t, v) != 0)
      requires newsz < oldsz ==>
        FramesOk(ram.mem, t, ram.free, ram.end, Pages(newsz), Pages(oldsz) - Pages(newsz))
      modifies ram
      ensures ram.Valid() && Owned(ram.mem, t, ram.free)
      ensures newsz >= oldsz ==> sz == oldsz && ram.mem == old(ram.mem) && ram.free == old(ram.free)
      ensures newsz < oldsz ==> sz == newsz
      ensures newsz < oldsz ==> Unmapped(old(ram.mem), ram.mem, t, Pages(newsz), Pages(oldsz) - Pages(newsz))
      ensures newsz < oldsz ==>
        ram.free == Freed(old(ram.mem), t, Pages(newsz), Pages(oldsz) - Pages(newsz), old(ram.free))
      ensures newsz < oldsz ==> Within(old(ram.mem), ram.mem, Tables(t) + Elems(ram.free))
    {
      hide Allocator.Valid, Owned, Wf, Tables, Elems, Lookup, FramesOk, Unmapped, Freed, Within;
      if newsz >= oldsz {
        return oldsz;
      }
      OwnedWf(ram.mem, t, ram.free);
      if PageRoundUp(newsz) < PageRoundUp(oldsz) {
        var n := (PageRoundUp(oldsz) - PageRoundUp(newsz)) / PGSIZE;
        Unmap(root, PageRoundUp(newsz), n, true, t);
      } else {
        UnmapStart(ram.mem, t, ram.free, Pages(newsz));
      }
      return newsz;
    }

    // uvmalloc on a well-formed image: pages 0 .. Pages(oldsz) - 1 have frames
    // of their own and nothing is mapped between them and the trapframe.
    method UvmAlloc(root: nat, oldsz: nat, newsz: nat, xperm: nat, ghost t: Tree)
      returns (sz: nat, ghost ok: bool, ghost t': Tree, ghost fs: seq<nat>)
      requires ram.Valid() && Owned(ram.mem, t, ram.free) && t.root == root && xperm in {0, PTE_W, PTE_X, PTE_W + PTE_X}
      requires FramesOk(ram.mem, t, ram.free, ram.end, 0, Pages(oldsz))
      requires forall v :: Pages(oldsz) <= v < MAXVPN - 2 ==> Lookup(ram.mem, t, v) == 0
      modifies ram
      ensures ram.Valid() && Owned(ram.mem, t', ram.free)
      ensures newsz < oldsz ==> ok && sz == oldsz && fs == []
      ensures ok && newsz >= oldsz ==> sz == newsz && Pages(oldsz) + |fs| == Pages(newsz)
      ensures ok ==> Extended(old(ram.mem), t, old(ram.free), ram.mem, t', ram.free, ram.end, Pages(oldsz), fs,
                              All(PTE_R + PTE_U + xperm + PTE_V, |fs|), AllZero(|fs|))
      ensures !ok ==> sz == 0 && SameMap(old(ram.mem), t, ram.mem, t')
      ensures !ok ==> Kept(old(ram.mem), t, old(ram.free), ram.mem, t', ram.free)
    {
      hide Allocator.Valid, Owned, Wf, Tables, Elems, Lookup, FramesOk, Extended, SameMap, Kept, Changed, Taken,
        Unmapped, Freed, Within, Pte;
      ghost var mem0, free0 := ram.mem, ram.free;
      var perm := PTE_R + PTE_U + xperm;
      ghost var flags := WithValid(perm);
      var p := PageRoundUp(oldsz) / PGSIZE;
      RamStart();
      ExtendStart(mem0, t, free0, ram.end, p);
      assert All(flags, 0) == [] && AllZero(0) == [];
      fs, t', ok := [], t, true;
      if newsz < oldsz {
        return oldsz, ok, t', fs;
      }
      var a := p;
      while a * PGSIZE < newsz
        invariant p <= a && |fs| == a - p && (a == p || (a - 1) * PGSIZE < newsz)
        invariant ram.Valid()
        invariant Extended(mem0, t, free0, ram.mem, t', ram.free, ram.end, p, fs, All(flags, |fs|), AllZero(|fs|))
        decreases newsz - a * PGSIZE
      {
        ghost var mem1, t1, free1, fl, cs := ram.mem, t', ram.free, All(flags, |fs|), AllZero(|fs|);
        RoomToGrow(mem0, t, free0, mem1, t1, free1, ram.end, p, fs, fl, cs);
        var grown, q;
        grown, q, t' := GrowPage(root, a, 0, perm, t1);
        if !grown {
          ExtendSame(mem0, t, free0, mem1, t1, free1, ram.mem, t', ram.free, ram.end, p, fs, fl, cs);
          UndoGrowth(root, p, a, mem0, t, free0, t', fs, fl, cs);
          return 0, false, t', [];
        }
        TakenIsGood(mem1, t1, free1, ram.mem, t', ram.free, ram.end, q);
        ExtendNext(mem0, t, free0, mem1, t1, free1, ram.mem, t', ram.free, ram.end, p, fs, fl, cs, q, flags);
        OneMore(flags, |fs|);
        fs := fs + [q];
        a := a + 1;
      }
      ExtendedOwned(mem0, t, free0, ram.mem, t', ram.free, ram.end, p, fs, All(flags, |fs|), AllZero(|fs|));
      return newsz, true, t', fs;
    }

    // The uvmdealloc on uvmalloc's failure paths, with a pages instead of p.
    method UndoGrowth(root: nat, p: nat, a: nat, ghost mem0: Mem, ghost t: Tree, ghost free0: seq<nat>, ghost t': Tree,
                      ghost fs: seq<nat>, ghost fl: seq<nat>, ghost cs: seq<Page>)
      requires ram.Valid() && t.root == root && a == p + |fs| <= 0x8000
      requires Extended(mem0, t, free0, ram.mem, t', ram.free, ram.end, p, fs, fl, cs)
      requires forall v :: p <= v < p + |fs| ==> Lookup(mem0, t, v) == 0
      modifies ram
      ensures ram.Valid() && Owned(ram.mem, t', ram.free)
      ensures SameMap(mem0, t, ram.mem, t') && Kept(mem0, t, free0, ram.mem, t', ram.free)
    {
      hide Allocator.Valid, Owned, Wf, Tables, Elems, Lookup, FramesOk, Extended, SameMap, Kept, Unmapped, Freed, Within;
      ghost var mem2, free2 := ram.mem, ram.free;
      ReadyToRollBack(mem0, t, free0, mem2, t', free2, ram.end, p, fs, fl, cs);
      var _ := UvmDealloc(root, a * PGSIZE, p * PGSIZE, t');
      if a > p {
        RolledBack(mem0, t, free0, mem2, t', free2, ram.mem, ram.free, ram.end, p, fs, fl, cs);
      } else {
        NothingToRollBack(mem0, t, free0, mem2, t', free2, ram.end, p, fs, fl, cs);
      }
    }

    lemma RamStart()
      requires ram.Valid()
      ensures KERNBASE <= ram.end
    {
    }
  }

  function Pages(sz: nat): nat {
    PageRoundUp(sz) / PGSIZE
  }

  ghost function All(flags: nat, n: nat): (r: seq<nat>) {
    seq(n, _ => flags)
  }

  ghost function AllZero(n: nat): (r: seq<Page>) {
    seq(n, _ => ZeroPage())
  }

  lemma OneMore(flags: nat, n: nat)
    ensures All(flags, n) + [flags] == All(flags, n + 1) && AllZero(n) + [ZeroPage()] == AllZero(n + 1)
  {
  }

  // Where the next page goes, nothing is mapped, and it is far below MAXVA.
  lemma RoomToGrow(mem0: Mem, t0: Tree, free0: seq<nat>, mem: Mem, t: Tree, free: seq<nat>, end: nat,
                   p: nat, fs: seq<nat>, fl: seq<nat>, cs: seq<Page>)
    requires Extended(mem0, t0, free0, mem, t, free, end, p, fs, fl, cs) && KERNBASE <= end
    requires forall v :: p <= v < MAXVPN - 2 ==> Lookup(mem0, t0, v) == 0
    ensures Owned(mem, t, free) && p + |fs| <= 0x8000 && t.root == t0.root && Lookup(mem, t, p + |fs|) == 0
  {
    hide Wf, Tables, Elems, Lookup, Pte, GoodFrame, Filled;
    ImageBound(mem, t, free, end, p + |fs|);
  }

  lemma NothingToRollBack(mem0: Mem, t0: Tree, free0: seq<nat>, mem: Mem, t: Tree, free: seq<nat>, end: nat, p: nat,
                          fs: seq<nat>, fl: seq<nat>, cs: seq<Page>)
    requires Extended(mem0, t0, free0, mem, t, free, end, p, fs, fl, cs) && fs == []
    ensures SameMap(mem0, t0, mem, t) && Kept(mem0, t0, free0, mem, t, free)
  {
    hide Wf, Tables, Lookup, FramesOk;
  }

  lemma ExtendedOwned(mem0: Mem, t0: Tree, free0: seq<nat>, mem: Mem, t: Tree, free: seq<nat>, end: nat,
                      p: nat, fs: seq<nat>, fl: seq<nat>, cs: seq<Page>)
    requires Extended(mem0, t0, free0, mem, t, free, end, p, fs, fl, cs)
    ensures Owned(mem, t, free)
  {
  }

  lemma TakenIsGood(mem0: Mem, t0: Tree, free0: seq<nat>, mem: Mem, t: Tree, free: seq<nat>, end: nat, q: nat)
    requires Taken(mem0, t0, free0, mem, t, free, q) && end <= q * PGSIZE < PHYSTOP
    ensures GoodFrame(q, t, free, end)
  {
  }

  lemma OwnedTables(mem: Mem, t: Tree, free: seq<nat>)
    requires Owned(mem, t, free)
    ensures forall p :: p in Tables(t) ==> p !in free
  {
    assert forall p :: p in free ==> p in Elems(free);
  }

  lemma FramesPrefix(mem: Mem, t: Tree, free: seq<nat>, end: nat, v0: nat, n: nat, k: nat)
    requires FramesOk(mem, t, free, end, v0, n) && k <= n
    ensures FramesOk(mem, t, free, end, v0, k)
  {
    hide Wf, Frame;
  }

  lemma OwnedWf(mem: Mem, t: Tree, free: seq<nat>)
    requires Owned(mem, t, free)
    ensures Wf(mem, t)
  {
  }

  lemma KeptStart(mem: Mem, t: Tree, free: seq<nat>)
    requires Owned(mem, t, free)
    ensures Kept(mem, t, free, mem, t, free)
  {
  }

  lemma KeptRoot(mem0: Mem, t0: Tree, free0: seq<nat>, mem: Mem, t: Tree, free: seq<nat>)
    requires Kept(mem0, t0, free0, mem, t, free)
    ensures t.root == t0.root
  {
  }

  lemma NotYetMapped(mem0: Mem, t0: Tree, mem: Mem, t: Tree, v0: nat, n: nat, page0: nat, flags: nat, v: nat)
    requires MappedTo(mem0, t0, mem, t, v0, n, page0, flags) && v >= v0 + n
    ensures Lookup(mem, t, v) == Lookup(mem0, t0, v)
  {
  }

  lemma SameAt(mem0: Mem, t0: Tree, mem: Mem, t: Tree, vpn: nat)
    requires SameMap(mem0, t0, mem, t)
    ensures Lookup(mem, t, vpn) == Lookup(mem0, t0, vpn)
  {
  }

  lemma NewEntry(target: nat, perm: nat)
    requires perm < 1024 && IsLeaf(perm)
    ensures EntryOk(Pte(target, WithValid(perm)))
  {
    PteFields(target, WithValid(perm));
  }

  lemma KeptOwned(mem0: Mem, t0: Tree, free: seq<nat>, mem: Mem, t: Tree, vpn: nat, e: nat)
    requires Kept(mem0, t0, free, mem, t, free) && Changed(mem0, t0, mem, t, vpn, e)
    ensures Owned(mem, t, free)
  {
  }

  lemma ReachedRoot(t: Tree, vpn: nat)
    ensures Reached(t, vpn, 2, t.root)
  {
  }

  lemma ReachedLow(t: Tree, vpn: nat, page: nat)
    requires Reached(t, vpn, 0, page)
    ensures Pair(vpn) in t.low
  {
  }

  lemma NoEntry(mem: Mem, t: Tree, vpn: nat, level: nat)
    requires Wf(mem, t) && 1 <= level <= 2 && !HasNext(t, vpn, level)
    ensures Pair(vpn) !in t.low
  {
  }
}
