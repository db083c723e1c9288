/** Address translation as the processor does it (section 4.3.2 and 4.4 of the
    RISC-V Privileged Architecture specification), from memory alone, and that
    the page tables of kernel/vm.c mean to it what they mean to the kernel. */
module Sv39 {
  import opened PageAllocator
  import opened PageTables
  import opened Vm
  import opened VmUser
  import opened AddressSpaces
  import opened UserMemory

  // What the processor finds for an address: the place of a leaf entry and
  // its level, or a page fault.
  datatype Found = Fault | Leaf(page: nat, index: nat, level: nat)

  // Bits 38-30, 29-21 and 20-12 of a virtual address.
  function Vpn(va: nat, level: nat): (i: nat)
    requires level <= 2
    ensures i < 512
  {
    if level == 2 then va / 0x4000_0000 % 512 else if level == 1 then va / 0x20_0000 % 512 else va / 0x1000 % 512
  }

  // The walk from table a at this level on. An entry without V faults, one
  // with R, W or X is a leaf, any other points to the next table.
  function WalkFrom(mem: Mem, a: nat, va: nat, level: nat): Found
    requires level <= 2
    decreases level
  {
    if a !in mem then Fault
    else
      var pte := mem[a][Vpn(va, level)];
      if pte % 2 == 0 then Fault
      else if pte / 2 % 8 != 0 then Leaf(a, Vpn(va, level), level)
      else if level == 0 then Fault
      else WalkFrom(mem, pte / 0x400, va, level - 1)
  }

  // The leaf entry of an address, 0 if there is none.
  function Entry(mem: Mem, root: nat, va: nat): nat {
    match WalkFrom(mem, root, va, 2)
    case Fault => 0
    case Leaf(page, index, _) => if page in mem && index < 512 then mem[page][index] else 0
  }

  // The physical address, for leaves of level 0.
  function Physical(mem: Mem, root: nat, va: nat): nat {
    Entry(mem, root, va) / 0x400 * 0x1000 + va % 0x1000
  }

  lemma Indices(va: nat)
    requires va < MAXVA
    ensures Vpn(va, 2) == Px2(va / PGSIZE) && Vpn(va, 1) == Px1(va / PGSIZE) && Vpn(va, 0) == Px0(va / PGSIZE)
  {
    var v := va / PGSIZE;
    assert va / 0x4000_0000 == v / 0x40000 && va / 0x20_0000 == v / 512;
  }

  lemma LinkBits(page: nat)
    ensures Link(page) % 2 == 1 && Link(page) / 2 % 8 == 0 && Link(page) / 0x400 == page
  {
    assert Link(page) / 2 == page * 512;
  }

  // The processor's walk over the tables of t, level by level.
  lemma WalkRoot(mem: Mem, t: Tree, va: nat)
    requires Wf(mem, t) && va < MAXVA
    ensures WalkFrom(mem, t.root, va, 2) ==
      if Vpn(va, 2) in t.mid then WalkFrom(mem, t.mid[Vpn(va, 2)], va, 1) else Fault
  {
    var i := Vpn(va, 2);
    assert mem[t.root][i] == RootWord(t, i);
    if i in t.mid { LinkBits(t.mid[i]); }
    hide Link, Vpn;
  }

  lemma WalkMid(mem: Mem, t: Tree, va: nat)
    requires Wf(mem, t) && va < MAXVA && Vpn(va, 2) in t.mid
    ensures var x := (Vpn(va, 2), Vpn(va, 1));
      WalkFrom(mem, t.mid[Vpn(va, 2)], va, 1) == if x in t.low then WalkFrom(mem, t.low[x], va, 0) else Fault
  {
    var i, j := Vpn(va, 2), Vpn(va, 1);
    assert mem[t.mid[i]][j] == MidWord(t, i, j);
    if (i, j) in t.low { LinkBits(t.low[(i, j)]); }
    hide Link, Vpn;
  }

  // walk stops where the processor does.
  lemma SamePlace(mem: Mem, t: Tree, va: nat)
    requires Wf(mem, t) && va < MAXVA
    ensures WalkFrom(mem, t.root, va, 2) ==
      if Lookup(mem, t, va / PGSIZE) != 0 then Leaf(t.low[Pair(va / PGSIZE)], Px0(va / PGSIZE), 0) else Fault
  {
    hide Vpn;
    Indices(va);
    WalkRoot(mem, t, va);
    if Vpn(va, 2) in t.mid { WalkMid(mem, t, va); }
    if Pair(va / PGSIZE) in t.low {
      assert EntryOk(mem[t.low[Pair(va / PGSIZE)]][Px0(va / PGSIZE)]);
    }
  }

  // The entry that the processor finds for any user address is the one that
  // the kernel's tables have for its page.
  lemma SameEntry(mem: Mem, t: Tree, va: nat)
    requires Wf(mem, t) && va < MAXVA
    ensures Entry(mem, t.root, va) == Lookup(mem, t, va / PGSIZE)
  {
    hide WalkFrom;
    SamePlace(mem, t, va);
  }

  // ---------- what the kernel's calls mean to the processor ----------

  // mappages: the addresses of the pages mapped go to consecutive frames with
  // the flags given, all others as before.
  lemma MappedAddress(mem0: Mem, t0: Tree, mem: Mem, t: Tree, v0: nat, n: nat, page0: nat, flags: nat, va: nat)
    requires MappedTo(mem0, t0, mem, t, v0, n, page0, flags) && flags < 0x400 && va < MAXVA
    ensures if v0 <= va / 0x1000 < v0 + n then
              && Entry(mem, t.root, va) % 0x400 == flags
              && Physical(mem, t.root, va) == page0 * 0x1000 + (va - v0 * 0x1000)
            else Entry(mem, t.root, va) == Entry(mem0, t0.root, va)
  {
    hide Entry, Wf, Lookup;
    SameEntry(mem, t, va);
    SameEntry(mem0, t0, va);
    if v0 <= va / 0x1000 < v0 + n {
      var page := page0 + (va / 0x1000 - v0);
      PteFields(page, flags);
      assert Entry(mem, t.root, va) == Pte(page, flags);
    }
  }

  // uvmunmap: the addresses of the pages fault, all others as before.
  lemma UnmappedAddress(mem0: Mem, mem: Mem, t: Tree, v0: nat, n: nat, va: nat)
    requires Unmapped(mem0, mem, t, v0, n) && va < MAXVA
    ensures Entry(mem, t.root, va) == if v0 <= va / 0x1000 < v0 + n then 0 else Entry(mem0, t.root, va)
  {
    hide Entry, Wf, Lookup;
    SameEntry(mem, t, va);
    SameEntry(mem0, t, va);
  }

  // uvmalloc: the new pages are the user's, readable, and zero.
  lemma GrownAddress(mem0: Mem, t0: Tree, free0: seq<nat>, mem: Mem, t: Tree, free: seq<nat>, end: nat, p: nat, fs: seq<nat>,
                     xperm: nat, va: nat)
    requires Extended(mem0, t0, free0, mem, t, free, end, p, fs, All(PTE_R + PTE_U + xperm + PTE_V, |fs|), AllZero(|fs|))
    requires xperm in {0, PTE_W, PTE_X, PTE_W + PTE_X} && p <= va / 0x1000 < p + |fs| && va < MAXVA
    ensures Entry(mem, t.root, va) % 0x400 == 19 + xperm
    ensures var pa := Physical(mem, t.root, va);
      pa / 0x1000 in mem && mem[pa / 0x1000] == seq(512, _ => 0) && pa % 0x1000 == va % 0x1000
  {
    hide Entry, Wf, Lookup, Owned, FramesOk, Pool, Within, Tables;
    SameEntry(mem, t, va);
    var i := va / 0x1000 - p;
    PteFields(fs[i], PTE_R + PTE_U + xperm + PTE_V);
    assert Entry(mem, t.root, va) == Pte(fs[i], 19 + xperm);
  }

  // The kernel uses an address for the user exactly if the user could.
  lemma SameAccess(mem: Mem, t: Tree, va: nat)
    requires Wf(mem, t) && va < MAXVA
    ensures Accessible(mem, t, va) <==> Entry(mem, t.root, va) / 16 % 2 == 1
  {
    hide Entry, Lookup;
    SameEntry(mem, t, va);
    var e := Lookup(mem, t, va / PGSIZE);
    LeafOrNone(mem, t, va / PGSIZE);
    hide Wf;
  }

  lemma LeafOrNone(mem: Mem, t: Tree, v: nat)
    requires Wf(mem, t)
    ensures EntryOk(Lookup(mem, t, v))
  {
  }

  // copyout and copyin use the byte that the user's own load would give.
  lemma SameByte(mem: Mem, t: Tree, va: nat)
    requires Wf(mem, t) && va < MAXVA && Frame(mem, t, va / PGSIZE) in mem
    ensures var pa := Physical(mem, t.root, va);
      pa / 0x1000 in mem && UserByte(mem, t, va) == ByteOf(mem[pa / 0x1000], pa % 0x1000)
  {
    hide Entry, Wf, Lookup, ByteOf;
    SameEntry(mem, t, va);
  }

  // A process's page table: the trampoline at the top page of the address
  // space, the trapframe below it, both for the supervisor only.
  lemma ProcessTop(mem: Mem, s: Space, free: seq<nat>, end: nat, n: nat, trapframe: nat, trampoline: nat)
    requires SpaceOk(mem, s, free, end) && ProcSpace(s, n, trapframe, trampoline)
    requires trapframe % 0x1000 == 0 && trampoline % 0x1000 == 0
    ensures Physical(mem, s.t.root, 0x3F_FFFF_F000) == trampoline && Entry(mem, s.t.root, 0x3F_FFFF_F000) % 0x400 == 11
    ensures Physical(mem, s.t.root, 0x3F_FFFF_E000) == trapframe && Entry(mem, s.t.root, 0x3F_FFFF_E000) % 0x400 == 7
  {
    hide Entry, Wf, Lookup, FramesOk, IsUser;
    SameEntry(mem, s.t, 0x3F_FFFF_F000);
    SameEntry(mem, s.t, 0x3F_FFFF_E000);
    PteFields(trampoline / 0x1000, 11);
    PteFields(trapframe / 0x1000, 7);
    assert Entry(mem, s.t.root, 0x3F_FFFF_F000) == Pte(trampoline / 0x1000, 11);
    assert Entry(mem, s.t.root, 0x3F_FFFF_E000) == Pte(trapframe / 0x1000, 7);
  }
}
