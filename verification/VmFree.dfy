/** Tearing a page table down: freewalk and uvmfree of kernel/vm.c. */
module VmFree {
  import opened Counting
  import opened PageAllocator
  import opened PageTables
  import opened Vm

  // A table of t at the given level: the root, the level-1 table under i, or
  // the level-0 table under i and j.
  ghost predicate TableAt(t: Tree, level: nat, i: nat, j: nat, page: nat) {
    if level == 2 then page == t.root
    else if level == 1 then i in t.mid && page == t.mid[i]
    else level == 0 && (i, j) in t.low && page == t.low[(i, j)]
  }

  // The tables below that table, through its entries before k.
  ghost function Kids(t: Tree, level: nat, i: nat, k: nat): (s: set<nat>) {
    if level == 2 then
      (set m | m in t.mid && m < k :: t.mid[m]) + (set x | x in t.low && x.0 < k :: t.low[x])
    else if level == 1 then
      set x | x in t.low && x.0 == i && x.1 < k :: t.low[x]
    else {}
  }

  ghost function Subtree(t: Tree, level: nat, i: nat, page: nat): (s: set<nat>) {
    {page} + Kids(t, level, i, 512)
  }

  // The word of such a table at index k, when no page is mapped.
  ghost function TableWord(t: Tree, level: nat, i: nat, k: nat): nat {
    if level == 2 then RootWord(t, k) else if level == 1 then MidWord(t, i, k) else 0
  }

  // Every level-0 entry is 0.
  ghost predicate NoLeaves(mem: Mem, t: Tree) {
    Wf(mem, t) && forall x, k :: x in t.low && 0 <= k < 512 ==> mem[t.low[x]][k] == 0
  }

  lemma TableWords(mem: Mem, t: Tree, level: nat, i: nat, j: nat, page: nat)
    requires NoLeaves(mem, t) && TableAt(t, level, i, j, page)
    ensures page in mem && forall k :: 0 <= k < 512 ==> mem[page][k] == TableWord(t, level, i, k)
  {
  }

  // The child behind entry k, if there is one.
  ghost function KidI(level: nat, i: nat, k: nat): nat {
    if level == 2 then k else i
  }

  lemma KidAt(t: Tree, level: nat, i: nat, k: nat)
    requires level <= 2 && k < 512
    ensures IsValid(TableWord(t, level, i, k)) <==> TableWord(t, level, i, k) != 0
    ensures IsValid(TableWord(t, level, i, k)) ==> !IsLeaf(TableWord(t, level, i, k)) && level >= 1
    ensures IsValid(TableWord(t, level, i, k)) ==>
      TableAt(t, level - 1, KidI(level, i, k), k, PageOf(TableWord(t, level, i, k)))
  {
    if level == 2 && k in t.mid { LinkFields(t.mid[k]); }
    if level == 1 && (i, k) in t.low { LinkFields(t.low[(i, k)]); }
  }

  // One more entry: its subtree joins the kids.
  lemma KidsNext(mem: Mem, t: Tree, level: nat, i: nat, k: nat)
    requires Wf(mem, t) && level <= 2 && k < 512
    ensures Kids(t, level, i, k + 1) == Kids(t, level, i, k) +
      (if TableWord(t, level, i, k) != 0
       then Subtree(t, level - 1, KidI(level, i, k), PageOf(TableWord(t, level, i, k))) else {})
  {
    KidAt(t, level, i, k);
    if level == 2 {
      if k in t.mid {
        LinkFields(t.mid[k]);
        var sub := Subtree(t, 1, k, t.mid[k]);
        assert forall x :: x in t.low && x.0 == k ==> t.low[x] in sub;
      } else {
        assert forall x :: x in t.low ==> x.0 != k;
      }
    } else if level == 1 {
      if (i, k) in t.low { LinkFields(t.low[(i, k)]); }
    }
  }

  lemma KidsApart(mem: Mem, t: Tree, level: nat, i: nat, j: nat, page: nat, k: nat)
    requires Wf(mem, t) && TableAt(t, level, i, j, page) && k <= 512
    ensures page !in Kids(t, level, i, k)
    ensures k < 512 && TableWord(t, level, i, k) != 0 ==>
      Kids(t, level, i, k) !! Subtree(t, level - 1, KidI(level, i, k), PageOf(TableWord(t, level, i, k)))
  {
    if k < 512 && TableWord(t, level, i, k) != 0 {
      KidAt(t, level, i, k);
      if level == 2 { LinkFields(t.mid[k]); } else { LinkFields(t.low[(i, k)]); }
    }
  }

  // Kids only grow with k.
  lemma KidsMonotone(t: Tree, level: nat, i: nat, k: nat)
    requires k <= 512
    ensures Kids(t, level, i, k) <= Kids(t, level, i, 512)
  {
  }

  // The subtree is allocated and still as it was in mem0.
  ghost predicate Intact(mem0: Mem, mem: Mem, free: seq<nat>, end: nat, pages: set<nat>) {
    forall p :: p in pages ==>
      p in mem0 && p in mem && mem[p] == mem0[p] && p !in free && end <= p * PGSIZE < PHYSTOP
  }

  // What the loop of freewalk has done before entry k.
  ghost predicate FreedKids(mem0: Mem, mem1: Mem, free1: seq<nat>, mem: Mem, free: seq<nat>, t: Tree, level: nat, i: nat,
                            page: nat, k: nat) {
    && page in mem && page !in free
    && PagesFreed(mem1, free1, mem, free, page, Kids(t, level, i, k))
    && (forall m :: k <= m < 512 ==> mem[page][m] == TableWord(t, level, i, m))
  }

  // The pages in kids are free now; nothing but them and page was written.
  ghost predicate PagesFreed(mem1: Mem, free1: seq<nat>, mem: Mem, free: seq<nat>, page: nat, kids: set<nat>) {
    Elems(free) == Elems(free1) + kids && Within(mem1, mem, {page} + kids)
  }

  lemma MorePagesFreed(mem1: Mem, free1: seq<nat>, mem2: Mem, free2: seq<nat>, mem: Mem, free: seq<nat>,
                       page: nat, kids: set<nat>, sub: set<nat>, k: nat)
    requires PagesFreed(mem1, free1, mem2, free2, page, kids) && page in mem2 && page !in free2 && k < 512
    requires Within(mem2, mem, sub) && Elems(free) == Elems(free2) + sub && page !in sub
    ensures page in mem && page !in free && mem[page] == mem2[page]
    ensures PagesFreed(mem1, free1, mem[page := mem[page][k := 0]], free, page, kids + sub)
  {
    assert page !in Elems(free2);
    hide Elems;
    NotElem(page, free);
  }

  lemma NotElem(p: nat, s: seq<nat>)
    ensures p in s <==> p in Elems(s)
  {
  }

  lemma FreeStart(mem0: Mem, mem: Mem, free: seq<nat>, end: nat, t: Tree, level: nat, i: nat, j: nat, page: nat)
    requires NoLeaves(mem0, t) && TableAt(t, level, i, j, page)
    requires Intact(mem0, mem, free, end, Subtree(t, level, i, page))
    ensures FreedKids(mem0, mem, free, mem, free, t, level, i, page, 0)
  {
    TableWords(mem0, t, level, i, j, page);
    assert Kids(t, level, i, 0) == {};
  }

  // The next child is untouched so far.
  lemma KidIntact(mem0: Mem, mem1: Mem, free1: seq<nat>, end: nat, mem: Mem, free: seq<nat>, t: Tree, level: nat, i: nat, j: nat,
                  page: nat, k: nat)
    requires NoLeaves(mem0, t) && TableAt(t, level, i, j, page) && k < 512 && level <= 2
    requires Intact(mem0, mem1, free1, end, Subtree(t, level, i, page))
    requires FreedKids(mem0, mem1, free1, mem, free, t, level, i, page, k) && TableWord(t, level, i, k) != 0
    ensures Intact(mem0, mem, free, end, Subtree(t, level - 1, KidI(level, i, k), PageOf(TableWord(t, level, i, k))))
  {
    KidAt(t, level, i, k);
    hide Wf, Kids, TableWord, PageOf, KidI, Subtree, TableAt;
    KidsNext(mem0, t, level, i, k);
    KidsMonotone(t, level, i, k + 1);
    KidsApart(mem0, t, level, i, j, page, k);
    KidsApart(mem0, t, level, i, j, page, 512);
    SubtreeIs(t, level, i, page);
    var sub := Subtree(t, level - 1, KidI(level, i, k), PageOf(TableWord(t, level, i, k)));
    assert sub <= Kids(t, level, i, 512) && sub !! Kids(t, level, i, k) && page !in sub;
    assert forall p :: p in free <==> p in Elems(free);
    assert forall p :: p in free1 <==> p in Elems(free1);
  }

  lemma SubtreeIs(t: Tree, level: nat, i: nat, page: nat)
    ensures Subtree(t, level, i, page) == {page} + Kids(t, level, i, 512)
  {
  }

  // After the child is gone and its entry cleared.
  lemma KidFreed(mem0: Mem, mem1: Mem, free1: seq<nat>, mem2: Mem, free2: seq<nat>, mem: Mem, free: seq<nat>,
                 t: Tree, level: nat, i: nat, j: nat, page: nat, k: nat)
    requires NoLeaves(mem0, t) && TableAt(t, level, i, j, page) && k < 512 && level <= 2
    requires FreedKids(mem0, mem1, free1, mem2, free2, t, level, i, page, k) && TableWord(t, level, i, k) != 0
    requires var sub := Subtree(t, level - 1, KidI(level, i, k), PageOf(TableWord(t, level, i, k)));
      Within(mem2, mem, sub) && Elems(free) == Elems(free2) + sub
    ensures page in mem && page !in free
    ensures FreedKids(mem0, mem1, free1, mem[page := mem[page][k := 0]], free, t, level, i, page, k + 1)
  {
    KidAt(t, level, i, k);
    hide Wf, Kids, TableWord, PageOf, KidI, Subtree, TableAt;
    hide PagesFreed, Elems, Within;
    KidsNext(mem0, t, level, i, k);
    KidsMonotone(t, level, i, k + 1);
    KidsApart(mem0, t, level, i, j, page, 512);
    var sub := Subtree(t, level - 1, KidI(level, i, k), PageOf(TableWord(t, level, i, k)));
    MorePagesFreed(mem1, free1, mem2, free2, mem, free, page, Kids(t, level, i, k), sub, k);
  }

  lemma NoKid(mem0: Mem, mem1: Mem, free1: seq<nat>, mem: Mem, free: seq<nat>, t: Tree, level: nat, i: nat,
              page: nat, k: nat)
    requires NoLeaves(mem0, t) && k < 512 && level <= 2
    requires FreedKids(mem0, mem1, free1, mem, free, t, level, i, page, k) && TableWord(t, level, i, k) == 0
    ensures FreedKids(mem0, mem1, free1, mem, free, t, level, i, page, k + 1)
  {
    hide Wf, Kids;
    KidsNext(mem0, t, level, i, k);
  }

  lemma AllFreed(mem0: Mem, mem1: Mem, free1: seq<nat>, mem2: Mem, free2: seq<nat>, mem: Mem, t: Tree, level: nat, i: nat, page: nat)
    requires FreedKids(mem0, mem1, free1, mem2, free2, t, level, i, page, 512)
    requires page in mem && mem == mem2[page := mem[page]]
    ensures Elems([page] + free2) == Elems(free1) + Subtree(t, level, i, page)
    ensures Within(mem1, mem, Subtree(t, level, i, page))
  {
    hide Kids;
    assert Elems([page] + free2) == Elems(free2) + {page};
  }

  // freewalk: the whole subtree goes to the free list, and nothing else.
  method FreeWalk(ram: Allocator, page: nat, ghost level: nat, ghost i: nat, ghost j: nat, ghost t: Tree, ghost mem0: Mem)
    requires ram.Valid() && NoLeaves(mem0, t) && level <= 2 && TableAt(t, level, i, j, page)
    requires Intact(mem0, ram.mem, ram.free, ram.end, Subtree(t, level, i, page))
    modifies ram
    ensures ram.Valid()
    ensures Elems(ram.free) == Elems(old(ram.free)) + Subtree(t, level, i, page)
    ensures Within(old(ram.mem), ram.mem, Subtree(t, level, i, page))
    decreases level
  {
    hide Allocator.Valid, NoLeaves, TableAt, Intact, Subtree, Kids, FreedKids, Within, Elems, TableWord, PageOf, KidI,
      IsValid, IsLeaf;
    ghost var mem1, free1 := ram.mem, ram.free;
    FreeStart(mem0, mem1, free1, ram.end, t, level, i, j, page);
    RootManaged(mem0, mem1, free1, ram.end, t, level, i, page);
    var k := 0;
    while k < 512
      invariant 0 <= k <= 512
      invariant ram.Valid() && FreedKids(mem0, mem1, free1, ram.mem, ram.free, t, level, i, page, k)
    {
      EntryAt(mem0, mem1, free1, ram.mem, ram.free, t, level, i, page, k);
      var e := ram.mem[page][k];
      KidAt(t, level, i, k);
      if IsValid(e) && !IsLeaf(e) {
        ghost var mem2, free2 := ram.mem, ram.free;
        KidIntact(mem0, mem1, free1, ram.end, mem2, free2, t, level, i, j, page, k);
        FreeWalk(ram, PageOf(e), level - 1, KidI(level, i, k), k, t, mem0);
        KidFreed(mem0, mem1, free1, mem2, free2, ram.mem, ram.free, t, level, i, j, page, k);
        ram.Store(page, ram.mem[page][k := 0]);
      } else {
        // The panic "freewalk: leaf" is not reached.
        assert !IsValid(e);
        NoKid(mem0, mem1, free1, ram.mem, ram.free, t, level, i, page, k);
      }
      k := k + 1;
    }
    EntryAt(mem0, mem1, free1, ram.mem, ram.free, t, level, i, page, 512);
    ghost var mem2, free2 := ram.mem, ram.free;
    ram.Kfree(page * PGSIZE);
    AllFreed(mem0, mem1, free1, mem2, free2, ram.mem, t, level, i, page);
  }

  lemma EntryAt(mem0: Mem, mem1: Mem, free1: seq<nat>, mem: Mem, free: seq<nat>, t: Tree, level: nat, i: nat, page: nat, k: nat)
    requires FreedKids(mem0, mem1, free1, mem, free, t, level, i, page, k) && k <= 512
    ensures page in mem && page !in free && (k < 512 ==> mem[page][k] == TableWord(t, level, i, k))
  {
  }

  lemma RootManaged(mem0: Mem, mem: Mem, free: seq<nat>, end: nat, t: Tree, level: nat, i: nat, page: nat)
    requires Intact(mem0, mem, free, end, Subtree(t, level, i, page))
    ensures end <= page * PGSIZE < PHYSTOP
  {
  }

  // ---------- uvmfree ----------

  lemma RootSubtree(mem: Mem, t: Tree)
    requires Wf(mem, t)
    ensures Subtree(t, 2, 0, t.root) == Tables(t)
  {
    assert forall i :: i in t.mid ==> i < 512;
    assert forall x :: x in t.low ==> x.0 in t.mid;
    assert (set m | m in t.mid && m < 512 :: t.mid[m]) == t.mid.Values;
    assert (set x | x in t.low && x.0 < 512 :: t.low[x]) == t.low.Values;
  }

  lemma NothingMapped(mem: Mem, t: Tree)
    requires Wf(mem, t) && forall v: nat :: Lookup(mem, t, v) == 0
    ensures NoLeaves(mem, t)
  {
    forall x, k | x in t.low && 0 <= k < 512 ensures mem[t.low[x]][k] == 0 {
      var v := x.0 * 0x40000 + x.1 * 512 + k;
      assert v / 512 == x.0 * 512 + x.1;
      assert Pair(v) == x && Px0(v) == k;
      assert Lookup(mem, t, v) == 0;
    }
  }

  // Nothing but the first n pages is mapped.
  ghost predicate OnlyUser(mem: Mem, t: Tree, n: nat) {
    Wf(mem, t) && (forall v: nat :: v < n ==> Lookup(mem, t, v) != 0) && forall v: nat :: v >= n ==> Lookup(mem, t, v) == 0
  }

  ghost predicate TablesManaged(t: Tree, end: nat) {
    forall p :: p in Tables(t) ==> end <= p * PGSIZE < PHYSTOP
  }

  ghost function UserFrames(mem: Mem, t: Tree, n: nat): (s: set<nat>)
    requires Wf(mem, t)
  {
    if n == 0 then {} else UserFrames(mem, t, n - 1) + {Frame(mem, t, n - 1)}
  }

  lemma {:induction false} FreedUserFrames(mem: Mem, t: Tree, n: nat, free: seq<nat>)
    requires Wf(mem, t)
    ensures Elems(Freed(mem, t, 0, n, free)) == Elems(free) + UserFrames(mem, t, n)
  {
    if n > 0 {
      FreedUserFrames(mem, t, n - 1, free);
      ElemsPrepend(Freed(mem, t, 0, n - 1, free), Frame(mem, t, n - 1));
    }
  }

  lemma EmptyTree(mem0: Mem, mem: Mem, t: Tree, n: nat, free: seq<nat>, end: nat)
    requires OnlyUser(mem0, t, n) && Unmapped(mem0, mem, t, 0, n) && Owned(mem, t, free) && TablesManaged(t, end)
    ensures NoLeaves(mem, t) && Intact(mem, mem, free, end, Subtree(t, 2, 0, t.root))
    ensures TableAt(t, 2, 0, 0, t.root) && Subtree(t, 2, 0, t.root) == Tables(t)
  {
    RootSubtree(mem, t);
    TablesInMem(mem, t);
    assert forall p :: p in free ==> p in Elems(free);
    hide Tables, Elems, Lookup, Subtree;
    forall v: nat ensures Lookup(mem, t, v) == 0 {
      assert v >= n ==> Lookup(mem0, t, v) == 0;
    }
    NothingMapped(mem, t);
  }

  // uvmfree: the frames of the image and all tables become free, exactly once,
  // and no other page changes.
  method UvmFree(machine: Machine, root: nat, sz: nat, ghost t: Tree)
    requires machine.ram.Valid() && Owned(machine.ram.mem, t, machine.ram.free) && t.root == root
    requires Pages(sz) <= MAXVPN && OnlyUser(machine.ram.mem, t, Pages(sz)) && TablesManaged(t, machine.ram.end)
    requires FramesOk(machine.ram.mem, t, machine.ram.free, machine.ram.end, 0, Pages(sz))
    modifies machine.ram
    ensures machine.ram.Valid()
    ensures Elems(machine.ram.free) == Elems(old(machine.ram.free)) + UserFrames(old(machine.ram.mem), t, Pages(sz)) + Tables(t)
    ensures Within(old(machine.ram.mem), machine.ram.mem,
                   Elems(old(machine.ram.free)) + UserFrames(old(machine.ram.mem), t, Pages(sz)) + Tables(t))
  {
    hide Allocator.Valid, Owned, Wf, Tables, Elems, Lookup, FramesOk, Unmapped, Freed, OnlyUser, TablesManaged, UserFrames,
      NoLeaves, Intact, Subtree, TableAt, Within;
    var ram := machine.ram;
    ghost var mem0, free0 := ram.mem, ram.free;
    var n := PageRoundUp(sz) / PGSIZE;
    UserMapped(mem0, t, n);
    if sz > 0 {
      machine.Unmap(root, 0, n, true, t);
    } else {
      UnmapStart(mem0, t, free0, 0);
    }
    FreedUserFrames(mem0, t, n, free0);
    EmptyTree(mem0, ram.mem, t, n, ram.free, ram.end);
    ghost var mem1, free1 := ram.mem, ram.free;
    FreeWalk(ram, root, 2, 0, 0, t, mem1);
    FreedInTwoSteps(mem0, mem1, ram.mem, Elems(free0), UserFrames(mem0, t, n), Tables(t));
  }

  lemma UserMapped(mem: Mem, t: Tree, n: nat)
    requires OnlyUser(mem, t, n)
    ensures Wf(mem, t) && forall v :: 0 <= v < n ==> Lookup(mem, t, v) != 0
  {
  }

  lemma FreedInTwoSteps(mem0: Mem, mem1: Mem, mem: Mem, free: set<nat>, frames: set<nat>, tables: set<nat>)
    requires Within(mem0, mem1, tables + (free + frames)) && Within(mem1, mem, tables)
    ensures Within(mem0, mem, free + frames + tables)
  {
  }
}
