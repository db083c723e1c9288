/** uvmcopy of kernel/vm.c: a child's copy of its parent's memory. */
module VmCopy {
  import opened Counting
  import opened PageAllocator
  import opened PageTables
  import opened Vm

  // The parent's image: pages 0 .. n - 1 are mapped to allocated frames, and
  // neither they nor the tables are in the pool that the child can draw on.
  ghost predicate Parent(mem: Mem, t: Tree, pool: set<nat>, n: nat) {
    && Wf(mem, t) && Tables(t) !! pool
    && forall v: nat :: v < n ==>
         Lookup(mem, t, v) != 0 && Frame(mem, t, v) != 0 && Frame(mem, t, v) in mem && Frame(mem, t, v) !in pool
  }

  // Writes to the child's pool do not show in the parent.
  lemma ParentStays(mem0: Mem, mem: Mem, t: Tree, pool: set<nat>, n: nat)
    requires Parent(mem0, t, pool, n) && Within(mem0, mem, pool)
    ensures Parent(mem, t, pool, n) && SameMap(mem0, t, mem, t)
    ensures forall v: nat :: v < n ==> Frame(mem, t, v) == Frame(mem0, t, v) && mem[Frame(mem0, t, v)] == mem0[Frame(mem0, t, v)]
  {
    TablesInMem(mem0, t);
    TreeFrame(mem0, mem, t);
    hide Wf, Tables;
  }

  // Flags and contents of the parent's first n pages.
  ghost function ParentFlags(mem: Mem, t: Tree, n: nat): (r: seq<nat>)
    requires Wf(mem, t)
  {
    if n == 0 then [] else ParentFlags(mem, t, n - 1) + [Flags(Lookup(mem, t, n - 1))]
  }

  ghost function ParentPages(mem: Mem, t: Tree, n: nat): (r: seq<Page>)
    requires Wf(mem, t) && forall v: nat :: v < n ==> Frame(mem, t, v) in mem
  {
    if n == 0 then [] else ParentPages(mem, t, n - 1) + [mem[Frame(mem, t, n - 1)]]
  }

  lemma ParentEntry(mem0: Mem, mem: Mem, t: Tree, pool: set<nat>, free: seq<nat>, n: nat, v: nat)
    requires Parent(mem0, t, pool, n) && Within(mem0, mem, pool) && v < n && Elems(free) <= pool
    ensures Wf(mem, t) && Tables(t) !! Elems(free) && Owned(mem, t, free)
    ensures Lookup(mem, t, v) == Lookup(mem0, t, v) && Pair(v) in t.low && EntryOk(Lookup(mem, t, v)) && Lookup(mem, t, v) != 0
    ensures Frame(mem0, t, v) in mem && Frame(mem0, t, v) !in free && mem[Frame(mem0, t, v)] == mem0[Frame(mem0, t, v)]
  {
    ParentStays(mem0, mem, t, pool, n);
    assert forall p :: p in free ==> p in Elems(free);
    hide Tables, Elems, EntryOk;
  }

  lemma FlagsOfEntry(e: nat)
    requires EntryOk(e) && e != 0
    ensures IsValid(e) && Flags(e) < 1024 && IsLeaf(Flags(e)) && WithValid(Flags(e)) == Flags(e)
  {
    var page, flags := e / 1024, e % 1024;
    assert e == Pte(page, flags);
    PteFields(page, flags);
  }

  // uvmcopy into a child that maps nothing below the trapframe. On success the
  // child has its own copy of every page, with the parent's flags; on failure
  // the child maps what it mapped before and no page is lost. Either way the
  // parent's memory is untouched.
  method UvmCopy(machine: Machine, oldRoot: nat, newRoot: nat, sz: nat, ghost told: Tree, ghost t: Tree)
    returns (ok: bool, ghost t': Tree, ghost fs: seq<nat>)
    requires machine.ram.Valid() && Owned(machine.ram.mem, t, machine.ram.free) && t.root == newRoot && told.root == oldRoot
    requires Parent(machine.ram.mem, told, Pool(t, machine.ram.free), Pages(sz)) && Pages(sz) <= MAXVPN - 2
    requires forall v :: 0 <= v < MAXVPN - 2 ==> Lookup(machine.ram.mem, t, v) == 0
    modifies machine.ram
    ensures machine.ram.Valid() && Owned(machine.ram.mem, t', machine.ram.free)
    ensures SameMap(old(machine.ram.mem), told, machine.ram.mem, told)
    ensures Within(old(machine.ram.mem), machine.ram.mem, Pool(t, old(machine.ram.free)))
    ensures ok ==> |fs| == Pages(sz)
    ensures ok ==> Extended(old(machine.ram.mem), t, old(machine.ram.free), machine.ram.mem, t', machine.ram.free,
                            machine.ram.end, 0, fs,
                            ParentFlags(old(machine.ram.mem), told, Pages(sz)), ParentPages(old(machine.ram.mem), told, Pages(sz)))
    ensures !ok ==> SameMap(old(machine.ram.mem), t, machine.ram.mem, t')
    ensures !ok ==> Kept(old(machine.ram.mem), t, old(machine.ram.free), machine.ram.mem, t', machine.ram.free)
  {
    hide Allocator.Valid, Owned, Wf, Tables, Elems, Lookup, FramesOk, Extended, SameMap, Kept, Changed, Taken,
      Unmapped, Freed, Within, Pte, Parent, Pool, EntryOk, IsLeaf, IsValid, Flags, PageOf, WithValid, Reached;
    var ram := machine.ram;
    ghost var mem0, free0 := ram.mem, ram.free;
    ghost var pool, n := Pool(t, free0), Pages(sz);
    machine.RamStart();
    ParentShape(mem0, told, pool, n);
    CopyStart(mem0, t, free0, ram.end);
    fs, t' := [], t;
    var i := 0;
    while i * PGSIZE < sz
      invariant 0 <= i <= n && |fs| == i
      invariant ram.Valid()
      invariant Extended(mem0, t, free0, ram.mem, t', ram.free, ram.end, 0, fs, ParentFlags(mem0, told, i), ParentPages(mem0, told, i))
    {
      ghost var mem1, t1, free1, fl, cs := ram.mem, t', ram.free, ParentFlags(mem0, told, i), ParentPages(mem0, told, i);
      RoomToGrow(mem0, t, free0, mem1, t1, free1, ram.end, 0, fs, fl, cs);
      ExtendedPool(mem0, t, free0, mem1, t1, free1, ram.end, fs, fl, cs);
      ParentEntry(mem0, mem1, told, pool, free1, n, i);
      var found, page, index;
      ghost var told';
      found, page, index, told' := machine.Walk(oldRoot, i * PGSIZE, false, told);
      ReachedEntry(mem1, told, i, page);
      var e := ram.mem[page][index];
      FlagsOfEntry(e);
      var q;
      ok, q, t' := machine.GrowPage(newRoot, i, PageOf(e), Flags(e), t1);
      if !ok {
        ExtendSame(mem0, t, free0, mem1, t1, free1, ram.mem, t', ram.free, ram.end, 0, fs, fl, cs);
        ghost var mem2, free2 := ram.mem, ram.free;
        ReadyToRollBack(mem0, t, free0, mem2, t', free2, ram.end, 0, fs, fl, cs);
        machine.Unmap(newRoot, 0, i, true, t');
        RolledBack(mem0, t, free0, mem2, t', free2, ram.mem, ram.free, ram.end, 0, fs, fl, cs);
        KeptWithin(mem0, t, free0, ram.mem, t', ram.free);
        ParentStays(mem0, ram.mem, told, pool, n);
        return;
      }
      TakenIsGood(mem1, t1, free1, ram.mem, t', ram.free, ram.end, q);
      ExtendNext(mem0, t, free0, mem1, t1, free1, ram.mem, t', ram.free, ram.end, 0, fs, fl, cs, q, Flags(e));
      fs := fs + [q];
      i := i + 1;
    }
    ghost var fl, cs := ParentFlags(mem0, told, n), ParentPages(mem0, told, n);
    ExtendedOwned(mem0, t, free0, ram.mem, t', ram.free, ram.end, 0, fs, fl, cs);
    ExtendedPool(mem0, t, free0, ram.mem, t', ram.free, ram.end, fs, fl, cs);
    ParentStays(mem0, ram.mem, told, pool, n);
    ok := true;
  }

  lemma ParentShape(mem: Mem, t: Tree, pool: set<nat>, n: nat)
    requires Parent(mem, t, pool, n)
    ensures Wf(mem, t) && forall v: nat :: v < n ==> Frame(mem, t, v) in mem && Frame(mem, t, v) != 0
  {
  }

  lemma CopyStart(mem: Mem, t: Tree, free: seq<nat>, end: nat)
    requires Owned(mem, t, free) && end > 0
    ensures Extended(mem, t, free, mem, t, free, end, 0, [], [], [])
  {
    assert FramesOk(mem, t, free, end, 0, 0);
  }

  lemma ExtendedPool(mem0: Mem, t0: Tree, free0: seq<nat>, mem: Mem, t: Tree, free: seq<nat>, end: nat,
                     fs: seq<nat>, fl: seq<nat>, cs: seq<Page>)
    requires Extended(mem0, t0, free0, mem, t, free, end, 0, fs, fl, cs)
    ensures Within(mem0, mem, Pool(t0, free0)) && Elems(free) <= Pool(t0, free0)
  {
    hide Wf, Tables, Elems;
  }

  lemma KeptWithin(mem0: Mem, t0: Tree, free0: seq<nat>, mem: Mem, t: Tree, free: seq<nat>)
    requires Kept(mem0, t0, free0, mem, t, free)
    ensures Within(mem0, mem, Pool(t0, free0))
  {
  }
}
