/** The memory of all processes: what proc.c and vm.c do with address spaces and
    the page allocator, one call at a time. */
module UserMemory {
  import opened Counting
  import opened PageAllocator
  import opened PageTables
  import opened Vm
  import opened VmFree
  import opened VmCopy
  import opened VmUser
  import opened AddressSpaces

  class Memory {
    const machine: Machine
    // The address of the trampoline code, in the kernel's text.
    const trampoline: nat
    ghost const pages: set<nat>
    ghost var spaces: map<nat, Space>
    ghost var kernel: set<nat>

    ghost predicate Valid()
      reads this, machine.ram
    {
      machine.ram.Valid() && World(machine.ram.mem, machine.ram.free, machine.ram.end, spaces, kernel, pages)
    }

    constructor (m: Machine, code: nat)
      requires m.ram.Valid()
      ensures Valid() && machine == m && trampoline == code && spaces == map[] && kernel == {} && pages == Elems(m.ram.free)
    {
      machine, trampoline, pages, spaces, kernel := m, code, Elems(m.ram.free), map[], {};
    }

    lemma Accounted()
      requires Valid()
      ensures AllMemory(machine.ram.mem, machine.ram.free, machine.ram.end) && KERNBASE <= machine.ram.end && 0 !in spaces
      ensures forall a :: a in spaces ==> SpaceOk(machine.ram.mem, spaces[a], machine.ram.free, machine.ram.end) && spaces[a].t.root == a
    {
      NotRoot(machine.ram.mem, machine.ram.free, machine.ram.end, spaces, kernel, pages);
      hide Chain, SpaceOk;
    }

    // kalloc of a page for the kernel, such as a trapframe.
    method Take() returns (pa: nat)
      requires Valid()
      modifies this`kernel, machine.ram
      ensures Valid() && pa % PGSIZE == 0 && (pa == 0 <==> old(machine.ram.free) == [])
      ensures pa == 0 ==> kernel == old(kernel) && machine.ram.free == old(machine.ram.free)
      ensures pa != 0 ==> pa / PGSIZE !in old(kernel) && kernel == old(kernel) + {pa / PGSIZE}
      ensures pa != 0 ==> old(machine.ram.free) == [pa / PGSIZE] + machine.ram.free
      ensures OthersUntouched(old(machine.ram.mem), machine.ram.mem, spaces, old(kernel), 0)
    {
      hide Allocator.Valid, World, SpaceOk, OthersUntouched, Elems;
      ghost var mem0, free0 := machine.ram.mem, machine.ram.free;
      Accounted();
      NothingDone(mem0, free0, machine.ram.end, spaces, kernel, pages, 0);
      pa := machine.ram.Kalloc();
      if pa != 0 {
        OnePage(mem0, machine.ram.mem, machine.ram.free, pa / PGSIZE);
        WorldTaken(mem0, free0, machine.ram.mem, machine.ram.free, machine.ram.end, spaces, kernel, pages, pa / PGSIZE);
        kernel := kernel + {pa / PGSIZE};
      }
    }

    // kfree of a page that the kernel holds.
    method Give(pa: nat)
      requires Valid() && pa % PGSIZE == 0 && pa / PGSIZE in kernel
      modifies this`kernel, machine.ram
      ensures Valid() && kernel == old(kernel) - {pa / PGSIZE} && machine.ram.free == [pa / PGSIZE] + old(machine.ram.free)
      ensures OthersUntouched(old(machine.ram.mem), machine.ram.mem, spaces, kernel, 0)
    {
      hide Allocator.Valid, World, SpaceOk, OthersUntouched, Elems;
      ghost var mem0, free0 := machine.ram.mem, machine.ram.free;
      Accounted();
      KernelPage(mem0, free0, machine.ram.end, spaces, kernel, pages, pa / PGSIZE);
      machine.ram.Kfree(pa);
      OnePage(mem0, machine.ram.mem, free0, pa / PGSIZE);
      WorldGiven(mem0, free0, machine.ram.mem, machine.ram.free, machine.ram.end, spaces, kernel, pages, pa / PGSIZE);
      kernel := kernel - {pa / PGSIZE};
    }

    // uvmcreate
    method Create() returns (root: nat)
      requires Valid()
      modifies this`spaces, machine.ram
      ensures Valid() && (root == 0 <==> old(machine.ram.free) == [])
      ensures root == 0 ==> spaces == old(spaces)
      ensures root != 0 ==> root !in old(spaces) && root in spaces && spaces == old(spaces)[root := spaces[root]]
      ensures root != 0 ==> spaces[root].n == 0 && spaces[root].frame == 0 && spaces[root].code == 0
      ensures OthersUntouched(old(machine.ram.mem), machine.ram.mem, old(spaces), kernel, root)
    {
      hide Allocator.Valid, World, SpaceOk, OthersUntouched, Owned, Elems;
      ghost var mem0, free0 := machine.ram.mem, machine.ram.free;
      Accounted();
      NothingDone(mem0, free0, machine.ram.end, spaces, kernel, pages, 0);
      ghost var t;
      root, t := machine.UvmCreate();
      if root != 0 {
        ghost var s := Space(t, 0, 0, 0);
        EmptySpace(mem0, free0, machine.ram.mem, machine.ram.free, machine.ram.end, root);
        WorldCreated(mem0, free0, machine.ram.mem, machine.ram.free, machine.ram.end, spaces, kernel, pages, root, s);
        spaces := spaces[root := s];
      }
    }

    // mappages of the trampoline or of the trapframe.
    method MapTop(root: nat, v: nat, pa: nat, perm: nat) returns (ok: bool)
      requires Valid() && root in spaces && (v == TRAPFRAME || v == TRAMPOLINE) && Above(spaces[root], v) == 0
      requires perm == PTE_R + PTE_X || perm == PTE_R + PTE_W
      modifies this`spaces, machine.ram
      ensures Valid() && root in spaces && spaces == old(spaces)[root := spaces[root]]
      ensures var s := old(spaces)[root].(t := spaces[root].t);
        spaces[root] == if ok then WithTop(s, v, Pte(pa / PGSIZE, WithValid(perm))) else s
      ensures !ok ==> machine.ram.free == []
      ensures OthersUntouched(old(machine.ram.mem), machine.ram.mem, old(spaces), kernel, root)
    {
      hide Allocator.Valid, World, OthersUntouched, Owned, Elems, Kept, MappedTo, FramesOk, Traded, TablesManaged, Lookup, IsUser,
        Pte, IsLeaf, WithValid;
      ghost var mem0, free0, s0 := machine.ram.mem, machine.ram.free, spaces[root];
      Accounted();
      SupervisorEntry(pa / PGSIZE, perm);
      TopEntry(mem0, s0, v);
      ghost var t, done;
      ok, t, done := machine.MapPages(root, v * PGSIZE, PGSIZE, pa, perm, s0.t);
      MapTopTraded(mem0, s0, free0, machine.ram.mem, t, machine.ram.free, machine.ram.end, v, done, pa / PGSIZE, WithValid(perm));
      ghost var s := if done == 1 then WithTop(s0.(t := t), v, Pte(pa / PGSIZE, WithValid(perm))) else s0.(t := t);
      WorldTraded(mem0, free0, machine.ram.mem, machine.ram.free, machine.ram.end, spaces, kernel, pages, root, s);
      spaces := spaces[root := s];
    }

    // uvmunmap of one of them, without do_free.
    method UnmapTop(root: nat, v: nat)
      requires Valid() && root in spaces && (v == TRAPFRAME || v == TRAMPOLINE) && Above(spaces[root], v) != 0
      modifies this`spaces, machine.ram
      ensures Valid() && spaces == old(spaces)[root := WithTop(old(spaces)[root], v, 0)] && machine.ram.free == old(machine.ram.free)
      ensures OthersUntouched(old(machine.ram.mem), machine.ram.mem, old(spaces), kernel, root)
    {
      hide Allocator.Valid, World, OthersUntouched, Owned, Elems, Unmapped, FramesOk, Traded, TablesManaged, Lookup, Within, IsUser;
      ghost var mem0, free0, s0 := machine.ram.mem, machine.ram.free, spaces[root];
      Accounted();
      TopEntry(mem0, s0, v);
      machine.Unmap(root, v * PGSIZE, 1, false, s0.t);
      UnmapTopTraded(mem0, s0, machine.ram.mem, free0, machine.ram.end, v);
      ghost var s := WithTop(s0, v, 0);
      WorldTraded(mem0, free0, machine.ram.mem, machine.ram.free, machine.ram.end, spaces, kernel, pages, root, s);
      spaces := spaces[root := s];
    }

    // uvmalloc; fs are the frames of the new pages.
    method Grow(root: nat, oldsz: nat, newsz: nat, xperm: nat) returns (sz: nat, ghost ok: bool, ghost fs: seq<nat>)
      requires Valid() && root in spaces && spaces[root].n == Pages(oldsz) && xperm in {0, PTE_W, PTE_X, PTE_W + PTE_X}
      modifies this`spaces, machine.ram
      ensures Valid() && root in spaces && spaces == old(spaces)[root := spaces[root]]
      ensures spaces[root] == old(spaces)[root].(t := spaces[root].t, n := if ok && newsz >= oldsz then Pages(newsz) else Pages(oldsz))
      ensures sz == if !ok then 0 else if newsz < oldsz then oldsz else newsz
      ensures ok ==>
        Extended(old(machine.ram.mem), old(spaces)[root].t, old(machine.ram.free), machine.ram.mem, spaces[root].t,
                 machine.ram.free, machine.ram.end, Pages(oldsz), fs, All(PTE_R + PTE_U + xperm + PTE_V, |fs|), AllZero(|fs|))
      ensures !ok ==> SameMap(old(machine.ram.mem), old(spaces)[root].t, machine.ram.mem, spaces[root].t)
      ensures OthersUntouched(old(machine.ram.mem), machine.ram.mem, old(spaces), kernel, root)
    {
      hide Allocator.Valid, World, OthersUntouched, Owned, Elems, Extended, Kept, SameMap, FramesOk, Traded, Pages, TablesManaged,
        Lookup, IsUser;
      ghost var mem0, free0, s0 := machine.ram.mem, machine.ram.free, spaces[root];
      Accounted();
      ghost var t;
      sz, ok, t, fs := machine.UvmAlloc(root, oldsz, newsz, xperm, s0.t);
      if ok {
        GrownBound(mem0, s0, free0, machine.ram.mem, t, machine.ram.free, machine.ram.end, fs,
                   All(PTE_R + PTE_U + xperm + PTE_V, |fs|), AllZero(|fs|));
        ExtendTraded(mem0, s0, free0, machine.ram.mem, t, machine.ram.free, machine.ram.end, fs,
                     All(PTE_R + PTE_U + xperm + PTE_V, |fs|), AllZero(|fs|));
      } else {
        FailTraded(mem0, s0, free0, machine.ram.mem, t, machine.ram.free, machine.ram.end);
      }
      ghost var s := s0.(t := t, n := if ok then s0.n + |fs| else s0.n);
      WorldTraded(mem0, free0, machine.ram.mem, machine.ram.free, machine.ram.end, spaces, kernel, pages, root, s);
      spaces := spaces[root := s];
    }

    // uvmdealloc
    method Shrink(root: nat, oldsz: nat, newsz: nat) returns (sz: nat)
      requires Valid() && root in spaces && spaces[root].n == Pages(oldsz)
      modifies this`spaces, machine.ram
      ensures Valid() && sz == (if newsz < oldsz then newsz else oldsz)
      ensures spaces == old(spaces)[root := old(spaces)[root].(n := Pages(sz))]
      ensures newsz < oldsz ==>
        Unmapped(old(machine.ram.mem), machine.ram.mem, spaces[root].t, Pages(newsz), Pages(oldsz) - Pages(newsz))
      ensures newsz >= oldsz ==> machine.ram.mem == old(machine.ram.mem)
      ensures OthersUntouched(old(machine.ram.mem), machine.ram.mem, old(spaces), kernel, root)
    {
      hide Allocator.Valid, World, OthersUntouched, Owned, Elems, Unmapped, FramesOk, Traded, Freed, TablesManaged, Lookup, Within,
        IsUser;
      ghost var mem0, free0, s0 := machine.ram.mem, machine.ram.free, spaces[root];
      Accounted();
      NothingDone(mem0, free0, machine.ram.end, spaces, kernel, pages, root);
      assert spaces == spaces[root := s0];
      if newsz < oldsz {
        AllMapped(mem0, s0, free0, machine.ram.end, Pages(newsz));
      }
      sz := machine.UvmDealloc(root, oldsz, newsz, s0.t);
      if newsz < oldsz {
        ShrinkTraded(mem0, s0, free0, machine.ram.mem, Pages(newsz), machine.ram.free, machine.ram.end);
        ghost var s := s0.(n := Pages(newsz));
        WorldTraded(mem0, free0, machine.ram.mem, machine.ram.free, machine.ram.end, spaces, kernel, pages, root, s);
        spaces := spaces[root := s];
      }
    }

    // uvmcopy, as fork calls it for a new address space; fs are the copies.
    method Copy(parent: nat, child: nat, sz: nat) returns (ok: bool, ghost fs: seq<nat>)
      requires Valid() && parent in spaces && child in spaces && parent != child
      requires spaces[parent].n == Pages(sz) && spaces[child].n == 0
      modifies this`spaces, machine.ram
      ensures Valid() && child in spaces && spaces == old(spaces)[child := spaces[child]]
      ensures spaces[child] == old(spaces)[child].(t := spaces[child].t, n := if ok then Pages(sz) else 0)
      ensures ok ==> Copied(old(machine.ram.mem), old(spaces)[parent], machine.ram.mem, spaces[child])
      ensures !ok ==> SameMap(old(machine.ram.mem), old(spaces)[child].t, machine.ram.mem, spaces[child].t)
      ensures OthersUntouched(old(machine.ram.mem), machine.ram.mem, old(spaces), kernel, child)
    {
      hide Allocator.Valid, World, OthersUntouched, Owned, Elems, Extended, Kept, SameMap, FramesOk, Traded, Pages, TablesManaged,
        Lookup, Parent, ParentFlags, ParentPages, Pool, Within, IsUser, Copied;
      ghost var mem0, free0, s0, s1 := machine.ram.mem, machine.ram.free, spaces[child], spaces[parent];
      Accounted();
      ParentOk(mem0, free0, machine.ram.end, spaces, kernel, pages, parent, child);
      ghost var t;
      ok, t, fs := UvmCopy(machine, parent, child, sz, s1.t, s0.t);
      if ok {
        ExtendTraded(mem0, s0, free0, machine.ram.mem, t, machine.ram.free, machine.ram.end, fs,
                     ParentFlags(mem0, s1.t, Pages(sz)), ParentPages(mem0, s1.t, Pages(sz)));
        CopyOfParent(mem0, s1, s0, free0, machine.ram.mem, t, machine.ram.free, machine.ram.end, fs);
      } else {
        FailTraded(mem0, s0, free0, machine.ram.mem, t, machine.ram.free, machine.ram.end);
      }
      ghost var s := s0.(t := t, n := if ok then s0.n + |fs| else s0.n);
      WorldTraded(mem0, free0, machine.ram.mem, machine.ram.free, machine.ram.end, spaces, kernel, pages, child, s);
      spaces := spaces[child := s];
    }

    // uvmfree
    method Destroy(root: nat, sz: nat)
      requires Valid() && root in spaces && spaces[root].n == Pages(sz) && spaces[root].frame == 0 && spaces[root].code == 0
      modifies this`spaces, machine.ram
      ensures Valid() && spaces == old(spaces) - {root}
      ensures OthersUntouched(old(machine.ram.mem), machine.ram.mem, old(spaces), kernel, root)
    {
      hide Allocator.Valid, World, OthersUntouched, Owned, Elems, FramesOk, Pages, TablesManaged, Lookup, Within, OnlyUser, Tables,
        UserFrames, IsUser;
      ghost var mem0, free0, s0 := machine.ram.mem, machine.ram.free, spaces[root];
      Accounted();
      JustUser(mem0, s0, free0, machine.ram.end);
      UvmFree(machine, root, sz, s0.t);
      AllPages(mem0, s0, free0);
      WorldDestroyed(mem0, free0, machine.ram.mem, machine.ram.free, machine.ram.end, spaces, kernel, pages, root);
      spaces := spaces - {root};
    }

    // copyout into one address space. n bytes have been written.
    method WriteUser(root: nat, dstva: nat, src: seq<Byte>) returns (ok: bool, ghost n: nat)
      requires Valid() && root in spaces
      modifies machine.ram
      ensures Valid() && machine.ram.free == old(machine.ram.free)
      ensures n <= |src| && Wrote(old(machine.ram.mem), machine.ram.mem, spaces[root].t, dstva, src[..n])
      ensures AllAccessible(old(machine.ram.mem), spaces[root].t, dstva, n)
      ensures if ok then n == |src| else n < |src| && !Accessible(old(machine.ram.mem), spaces[root].t, dstva + n)
      ensures OthersUntouched(old(machine.ram.mem), machine.ram.mem, spaces, kernel, root)
    {
      hide Allocator.Valid, World, OthersUntouched, Owned, Elems, FramesOk, Traded, TablesManaged, Lookup, UserImage, Wrote,
        AllAccessible, Accessible, IsUser;
      ghost var mem0, free0, s0 := machine.ram.mem, machine.ram.free, spaces[root];
      Accounted();
      SpaceImage(mem0, s0, free0, machine.ram.end);
      ok, n := CopyOut(machine, root, dstva, src, s0.t);
      WroteTraded(mem0, s0, free0, machine.ram.mem, machine.ram.end, dstva, src[..n]);
      WorldTraded(mem0, free0, machine.ram.mem, machine.ram.free, machine.ram.end, spaces, kernel, pages, root, s0);
      assert spaces == spaces[root := s0];
    }

    // proc_pagetable: an empty space with trampoline and trapframe, or 0 and
    // nothing has changed.
    method ProcPagetable(trapframe: nat) returns (root: nat)
      requires Valid()
      modifies this`spaces, machine.ram
      ensures Valid() && (old(machine.ram.free) == [] ==> root == 0)
      ensures root == 0 ==> spaces == old(spaces) && Elems(machine.ram.free) == Elems(old(machine.ram.free))
      ensures root != 0 ==> root !in old(spaces) && root in spaces && spaces == old(spaces)[root := spaces[root]]
      ensures root != 0 ==> ProcSpace(spaces[root], 0, trapframe, trampoline)
      ensures OthersUntouched(old(machine.ram.mem), machine.ram.mem, old(spaces), kernel, root)
    {
      hide Allocator.Valid, World, SpaceOk, OthersUntouched, Elems, Pte, WithValid, Among, ProcSpace;
      ghost var mem0, free0, spaces0 := machine.ram.mem, machine.ram.free, spaces;
      Accounted();
      root := Create();
      if root == 0 {
        SameFreePages(mem0, free0, spaces0);
        return;
      }
      ghost var s1, mem1 := spaces[root], machine.ram.mem;
      AmongWith(spaces0, root, s1);
      var ok := MapTop(root, TRAMPOLINE, trampoline, PTE_R + PTE_X);
      ghost var s2, mem2 := spaces[root], machine.ram.mem;
      OthersChain(mem0, mem1, mem2, spaces0, spaces0[root := s1], kernel, kernel, root, root);
      assert spaces == spaces0[root := s2];
      if !ok {
        GiveUp(root, mem0, free0, spaces0);
        return 0;
      }
      AmongWith(spaces0, root, s2);
      root := SecondEntry(root, trapframe, mem0, free0, spaces0);
    }

    // The second half: the trapframe, or all is undone.
    method SecondEntry(root0: nat, trapframe: nat, ghost mem0: Mem, ghost free0: seq<nat>, ghost spaces0: map<nat, Space>)
      returns (root: nat)
      requires Valid() && root0 != 0 && root0 !in spaces0 && root0 in spaces && spaces == spaces0[root0 := spaces[root0]]
      requires spaces[root0].n == 0 && spaces[root0].frame == 0
      requires spaces[root0].code == Pte(trampoline / PGSIZE, WithValid(PTE_R + PTE_X))
      requires World(mem0, free0, machine.ram.end, spaces0, kernel, pages)
      requires OthersUntouched(mem0, machine.ram.mem, spaces0, kernel, root0)
      modifies this`spaces, machine.ram
      ensures Valid() && (root == 0 || root == root0)
      ensures root == 0 ==> spaces == spaces0 && Elems(machine.ram.free) == Elems(free0)
      ensures root != 0 ==> root in spaces && spaces == spaces0[root := spaces[root]] && ProcSpace(spaces[root], 0, trapframe, trampoline)
      ensures OthersUntouched(mem0, machine.ram.mem, spaces0, kernel, root)
    {
      hide Allocator.Valid, World, SpaceOk, OthersUntouched, Elems, Pte, WithValid, Among;
      ghost var s2, mem2 := spaces[root0], machine.ram.mem;
      AmongWith(spaces0, root0, s2);
      SupervisorEntry(trampoline / PGSIZE, PTE_R + PTE_X);
      var ok := MapTop(root0, TRAPFRAME, trapframe, PTE_R + PTE_W);
      ghost var s3, mem3 := spaces[root0], machine.ram.mem;
      OthersChain(mem0, mem2, mem3, spaces0, spaces0[root0 := s2], kernel, kernel, root0, root0);
      assert spaces == spaces0[root0 := s3];
      if ok { return root0; }
      AmongWith(spaces0, root0, s3);
      UnmapTop(root0, TRAMPOLINE);
      OthersChain(mem0, mem3, machine.ram.mem, spaces0, spaces0[root0 := s3], kernel, kernel, root0, root0);
      assert spaces == spaces0[root0 := WithTop(s3, TRAMPOLINE, 0)];
      GiveUp(root0, mem0, free0, spaces0);
      return 0;
    }

    // uvmfree of a space that has been made since.
    method GiveUp(root: nat, ghost mem0: Mem, ghost free0: seq<nat>, ghost spaces0: map<nat, Space>)
      requires Valid() && root !in spaces0 && root in spaces && spaces == spaces0[root := spaces[root]]
      requires spaces[root].n == 0 && spaces[root].frame == 0 && spaces[root].code == 0
      requires World(mem0, free0, machine.ram.end, spaces0, kernel, pages)
      requires OthersUntouched(mem0, machine.ram.mem, spaces0, kernel, root)
      modifies this`spaces, machine.ram
      ensures Valid() && spaces == spaces0 && Elems(machine.ram.free) == Elems(free0)
      ensures OthersUntouched(mem0, machine.ram.mem, spaces0, kernel, 0)
    {
      hide Allocator.Valid, World, OthersUntouched, Elems;
      ghost var mem1, spaces1 := machine.ram.mem, spaces;
      AmongWith(spaces0, root, spaces[root]);
      NoPages();
      Destroy(root, 0);
      OthersChain(mem0, mem1, machine.ram.mem, spaces0, spaces1, kernel, kernel, root, root);
      NoSuchSpace(mem0, machine.ram.mem, spaces0, kernel, root, 0);
      SameFreePages(mem0, free0, spaces0);
    }

    lemma SameFreePages(mem0: Mem, free0: seq<nat>, spaces0: map<nat, Space>)
      requires Valid() && spaces == spaces0 && World(mem0, free0, machine.ram.end, spaces0, kernel, pages)
      requires OthersUntouched(mem0, machine.ram.mem, spaces0, kernel, 0)
      ensures Elems(machine.ram.free) == Elems(free0)
    {
      hide Allocator.Valid, World, Elems, Untouched, Wf;
      Accounted();
      SameFree(mem0, free0, machine.ram.mem, machine.ram.free, machine.ram.end, spaces, kernel, pages);
    }

    // proc_freepagetable
    method ProcFreePagetable(root: nat, sz: nat)
      requires Valid() && root in spaces && spaces[root].n == Pages(sz) && spaces[root].frame != 0 && spaces[root].code != 0
      modifies this`spaces, machine.ram
      ensures Valid() && spaces == old(spaces) - {root}
      ensures OthersUntouched(old(machine.ram.mem), machine.ram.mem, old(spaces), kernel, root)
    {
      hide Allocator.Valid, World, SpaceOk, OthersUntouched, Elems, Pages, Among;
      ghost var mem0, spaces0, s0 := machine.ram.mem, spaces, spaces[root];
      UnmapTop(root, TRAMPOLINE);
      ghost var mem1, s1 := machine.ram.mem, WithTop(s0, TRAMPOLINE, 0);
      AmongWith(spaces0, root, s1);
      UnmapTop(root, TRAPFRAME);
      ghost var mem2, s2 := machine.ram.mem, WithTop(s1, TRAPFRAME, 0);
      assert spaces == spaces0[root := s2];
      OthersChain(mem0, mem1, mem2, spaces0, spaces0[root := s1], kernel, kernel, root, root);
      AmongWith(spaces0, root, s2);
      Destroy(root, sz);
      OthersChain(mem0, mem2, machine.ram.mem, spaces0, spaces0[root := s2], kernel, kernel, root, root);
      assert spaces == spaces0 - {root};
    }

    // The memory side of allocproc: a trapframe and a page table, or neither.
    method Spawn() returns (trapframe: nat, root: nat)
      requires Valid()
      modifies this`spaces, this`kernel, machine.ram
      ensures Valid() && trapframe % PGSIZE == 0
      ensures root == 0 ==> spaces == old(spaces) && kernel == old(kernel) && Elems(machine.ram.free) == Elems(old(machine.ram.free))
      ensures root != 0 ==> root !in old(spaces) && root in spaces && spaces == old(spaces)[root := spaces[root]]
      ensures root != 0 ==> ProcSpace(spaces[root], 0, trapframe, trampoline)
      ensures root != 0 ==> trapframe / PGSIZE !in old(kernel) && kernel == old(kernel) + {trapframe / PGSIZE}
      ensures OthersUntouched(old(machine.ram.mem), machine.ram.mem, old(spaces), old(kernel), root)
    {
      hide Allocator.Valid, World, SpaceOk, OthersUntouched, Elems, Pte, WithValid, Among, ProcSpace;
      ghost var mem0, free0, spaces0, kernel0 := machine.ram.mem, machine.ram.free, spaces, kernel;
      Accounted();
      trapframe := Take();
      if trapframe == 0 {
        SameFreePages(mem0, free0, spaces0);
        return 0, 0;
      }
      ghost var mem1 := machine.ram.mem;
      root := ProcPagetable(trapframe);
      AmongSelf(spaces0, root);
      OthersChain(mem0, mem1, machine.ram.mem, spaces0, spaces0, kernel0, kernel, 0, root);
      if root == 0 {
        mem1 := machine.ram.mem;
        Give(trapframe);
        assert kernel == kernel0;
        OthersChain(mem0, mem1, machine.ram.mem, spaces0, spaces0, kernel0, kernel, 0, 0);
        SameFreePages(mem0, free0, spaces0);
      } else {
        NoSuchSpace(mem0, machine.ram.mem, spaces0, kernel0, 0, root);
      }
    }

    // The memory side of freeproc.
    method Reap(trapframe: nat, root: nat, sz: nat)
      requires Valid() && trapframe % PGSIZE == 0 && trapframe / PGSIZE in kernel
      requires root in spaces && spaces[root].n == Pages(sz) && spaces[root].frame != 0 && spaces[root].code != 0
      modifies this`spaces, this`kernel, machine.ram
      ensures Valid() && spaces == old(spaces) - {root} && kernel == old(kernel) - {trapframe / PGSIZE}
      ensures OthersUntouched(old(machine.ram.mem), machine.ram.mem, old(spaces), kernel, root)
    {
      hide Allocator.Valid, World, SpaceOk, OthersUntouched, Elems, Pages, Among;
      ghost var mem0, spaces0 := machine.ram.mem, spaces;
      Accounted();
      Give(trapframe);
      ghost var mem1 := machine.ram.mem;
      NoSuchSpace(mem0, mem1, spaces0, kernel, 0, root);
      ProcFreePagetable(root, sz);
      AmongWith(spaces0, root, spaces0[root]);
      OthersChain(mem0, mem1, machine.ram.mem, spaces0, spaces0, kernel, kernel, root, root);
    }

    // With no process left every page is free again.
    lemma AllBack()
      requires Valid() && spaces == map[] && kernel == {}
      ensures Elems(machine.ram.free) == pages
    {
      hide Allocator.Valid, World, Elems;
      AllReturned(machine.ram.mem, machine.ram.free, machine.ram.end, pages);
    }

    // fork of a process and the end of its child. Whichever step runs out of
    // memory, nothing has changed afterwards.
    method ForkAndReap(parent: nat, sz: nat)
      requires Valid() && parent in spaces && spaces[parent].n == Pages(sz)
      modifies this`spaces, this`kernel, machine.ram
      ensures Valid() && spaces == old(spaces) && kernel == old(kernel)
      ensures Elems(machine.ram.free) == Elems(old(machine.ram.free))
      ensures OthersUntouched(old(machine.ram.mem), machine.ram.mem, spaces, kernel, 0)
    {
      hide Allocator.Valid, World, SpaceOk, OthersUntouched, Elems, ProcSpace, Pages, Among;
      ghost var mem0, free0, spaces0, kernel0 := machine.ram.mem, machine.ram.free, spaces, kernel;
      Accounted();
      var tf, child := Spawn();
      if child == 0 { return; }
      ProcEntries(spaces[child], 0, tf, trampoline);
      NoSuchSpace(mem0, machine.ram.mem, spaces0, kernel0, child, 0);
      CopyAndReap(parent, child, sz, tf, mem0, spaces0, kernel0);
      SameFreePages(mem0, free0, spaces0);
    }

    method CopyAndReap(parent: nat, child: nat, sz: nat, tf: nat, ghost mem0: Mem, ghost spaces0: map<nat, Space>, ghost kernel0: set<nat>)
      requires Valid() && parent in spaces0 && spaces0[parent].n == Pages(sz) && 0 !in spaces0
      requires child !in spaces0 && child in spaces && spaces == spaces0[child := spaces[child]]
      requires spaces[child].n == 0 && spaces[child].frame != 0 && spaces[child].code != 0
      requires tf % PGSIZE == 0 && tf / PGSIZE !in kernel0 && kernel == kernel0 + {tf / PGSIZE}
      requires OthersUntouched(mem0, machine.ram.mem, spaces0, kernel0, 0)
      modifies this`spaces, this`kernel, machine.ram
      ensures Valid() && spaces == spaces0 && kernel == kernel0
      ensures OthersUntouched(mem0, machine.ram.mem, spaces0, kernel0, 0)
    {
      hide Allocator.Valid, World, SpaceOk, OthersUntouched, Elems, SameMap, Copied, Pages, Among;
      ghost var s1, mem1 := spaces[child], machine.ram.mem;
      AmongWith(spaces0, child, s1);
      var copied;
      ghost var fs;
      copied, fs := Copy(parent, child, sz);
      ghost var s2, mem2 := spaces[child], machine.ram.mem;
      OthersChain(mem0, mem1, mem2, spaces0, spaces0[child := s1], kernel0, kernel, 0, child);
      assert spaces == spaces0[child := s2];
      AmongWith(spaces0, child, s2);
      NoPages();
      Reap(tf, child, if copied then sz else 0);
      assert kernel == kernel0;
      OthersChain(mem0, mem2, machine.ram.mem, spaces0, spaces0[child := s2], kernel0, kernel, 0, child);
    }

    // A process is made, grows, forks, and both end. Whichever step runs out
    // of memory, the same pages are free afterwards and nothing has changed for
    // anybody else.
    method LifeCycle(newsz: nat, xperm: nat)
      requires Valid() && xperm in {0, PTE_W, PTE_X, PTE_W + PTE_X}
      modifies this`spaces, this`kernel, machine.ram
      ensures Valid() && spaces == old(spaces) && kernel == old(kernel)
      ensures Elems(machine.ram.free) == Elems(old(machine.ram.free))
      ensures OthersUntouched(old(machine.ram.mem), machine.ram.mem, spaces, kernel, 0)
    {
      hide Allocator.Valid, World, SpaceOk, OthersUntouched, Elems, SameMap, Extended, ProcSpace, Pages, Among;
      ghost var mem0, free0, spaces0, kernel0 := machine.ram.mem, machine.ram.free, spaces, kernel;
      Accounted();
      var tf, root := Spawn();
      if root == 0 { return; }
      ghost var s1, mem1 := spaces[root], machine.ram.mem;
      ProcEntries(s1, 0, tf, trampoline);
      AmongWith(spaces0, root, s1);
      NoSuchSpace(mem0, mem1, spaces0, kernel0, root, 0);
      NoPages();
      ghost var ok, fs;
      var sz;
      sz, ok, fs := Grow(root, 0, newsz, xperm);
      ghost var s2, mem2 := spaces[root], machine.ram.mem;
      OthersChain(mem0, mem1, mem2, spaces0, spaces0[root := s1], kernel0, kernel, 0, root);
      assert spaces == spaces0[root := s2];
      AmongWith(spaces0, root, s2);
      ForkAndReap(root, sz);
      ghost var mem3 := machine.ram.mem;
      NoSuchSpaceMore(mem2, mem3, spaces0, root, s2, kernel);
      OthersChain(mem0, mem2, mem3, spaces0, spaces0[root := s2], kernel0, kernel, 0, root);
      Reap(tf, root, sz);
      assert kernel == kernel0;
      OthersChain(mem0, mem3, machine.ram.mem, spaces0, spaces0[root := s2], kernel0, kernel, 0, root);
      SameFreePages(mem0, free0, spaces0);
    }
  }

  lemma AmongSelf(spaces: map<nat, Space>, root: nat)
    requires root !in spaces && 0 !in spaces
    ensures Among(spaces, 0, spaces, root) && Among(spaces, 0, spaces, 0)
  {
  }

  lemma NoPages()
    ensures Pages(0) == 0
  {
  }

  lemma NoSuchSpaceMore(mem0: Mem, mem: Mem, spaces: map<nat, Space>, root: nat, s: Space, kernel: set<nat>)
    requires OthersUntouched(mem0, mem, spaces[root := s], kernel, 0) && 0 !in spaces && root != 0
    ensures OthersUntouched(mem0, mem, spaces[root := s], kernel, root)
  {
    hide Untouched, Wf;
  }

  // The address space of a process with n pages.
  ghost predicate ProcSpace(s: Space, n: nat, trapframe: nat, trampoline: nat) {
    && s.n == n && s.frame == Pte(trapframe / PGSIZE, WithValid(PTE_R + PTE_W))
    && s.code == Pte(trampoline / PGSIZE, WithValid(PTE_R + PTE_X))
  }

  lemma ProcEntries(s: Space, n: nat, trapframe: nat, trampoline: nat)
    requires ProcSpace(s, n, trapframe, trampoline)
    ensures s.n == n && s.frame != 0 && s.code != 0
  {
    hide Pte, WithValid;
    SupervisorEntry(trapframe / PGSIZE, PTE_R + PTE_W);
    SupervisorEntry(trampoline / PGSIZE, PTE_R + PTE_X);
  }

  // What is said of the others does not depend on spaces that are not there.
  lemma NoSuchSpace(mem0: Mem, mem: Mem, spaces: map<nat, Space>, kernel: set<nat>, root: nat, root': nat)
    requires OthersUntouched(mem0, mem, spaces, kernel, root) && root !in spaces
    ensures OthersUntouched(mem0, mem, spaces, kernel, root')
  {
    hide Untouched, Wf;
  }

  lemma OnePage(mem0: Mem, mem: Mem, free: seq<nat>, q: nat)
    requires q in mem0 && q in mem && mem == mem0[q := mem[q]]
    ensures Within(mem0, mem, {q}) && (q !in free ==> q !in Elems(free))
  {
  }

  lemma KernelPage(mem: Mem, free: seq<nat>, end: nat, spaces: map<nat, Space>, kernel: set<nat>, pages: set<nat>, q: nat)
    requires World(mem, free, end, spaces, kernel, pages) && q in kernel
    ensures end <= q * PGSIZE < PHYSTOP && q !in free
  {
    hide PagesOf, InSpace, SpaceOk;
    assert q in free ==> q in Elems(free);
  }

  lemma TopEntry(mem: Mem, s: Space, v: nat)
    requires TopOk(mem, s) && (v == TRAPFRAME || v == TRAMPOLINE)
    ensures Lookup(mem, s.t, v) == Above(s, v)
    ensures v * PGSIZE / PGSIZE == v && (v * PGSIZE + PGSIZE - 1) / PGSIZE == v && v * PGSIZE + PGSIZE <= MAXVA
  {
    hide Wf, Lookup, IsUser;
  }

  // The child has a copy of each page, with the same flags.
  ghost predicate Copied(mem0: Mem, parent: Space, mem: Mem, child: Space) {
    && Wf(mem0, parent.t) && Wf(mem, child.t)
    && forall v: nat :: v < parent.n ==>
         && Flags(Lookup(mem, child.t, v)) == Flags(Lookup(mem0, parent.t, v))
         && Frame(mem0, parent.t, v) in mem0 && Frame(mem, child.t, v) in mem
         && mem[Frame(mem, child.t, v)] == mem0[Frame(mem0, parent.t, v)]
  }

  lemma {:induction false} ParentAt(mem: Mem, t: Tree, n: nat, v: nat)
    requires Wf(mem, t) && v < n && forall w: nat :: w < n ==> Frame(mem, t, w) in mem
    ensures |ParentFlags(mem, t, n)| == |ParentPages(mem, t, n)| == n
    ensures ParentFlags(mem, t, n)[v] == Flags(Lookup(mem, t, v)) && ParentPages(mem, t, n)[v] == mem[Frame(mem, t, v)]
  {
    hide Wf, Lookup;
    if v < n - 1 {
      ParentAt(mem, t, n - 1, v);
    } else if n > 1 {
      ParentAt(mem, t, n - 1, 0);
    }
  }

  lemma CopyOfParent(mem0: Mem, s1: Space, s0: Space, free0: seq<nat>, mem: Mem, t: Tree, free: seq<nat>, end: nat, fs: seq<nat>)
    requires Wf(mem0, s1.t) && s0.n == 0 && |fs| == s1.n && forall w: nat :: w < s1.n ==> Frame(mem0, s1.t, w) in mem0
    requires Extended(mem0, s0.t, free0, mem, t, free, end, 0, fs, ParentFlags(mem0, s1.t, s1.n), ParentPages(mem0, s1.t, s1.n))
    ensures Copied(mem0, s1, mem, s0.(t := t, n := s1.n))
  {
    hide Wf, Lookup, Owned, Tables, FramesOk, Pool, Within, ParentFlags, ParentPages;
    forall v: nat | v < s1.n
      ensures Flags(Lookup(mem, t, v)) == Flags(Lookup(mem0, s1.t, v)) && Frame(mem, t, v) in mem
      ensures mem[Frame(mem, t, v)] == mem0[Frame(mem0, s1.t, v)]
    {
      ParentAt(mem0, s1.t, s1.n, v);
      PteFields(fs[v], ParentFlags(mem0, s1.t, s1.n)[v]);
    }
  }
}
