/** The physical page allocator of kernel/kalloc.c: a free list threaded
    through the free pages themselves. */
module PageAllocator {
  const PGSIZE: nat := 4096
  // PHYSTOP and the largest number of pages the allocator can manage.
  const PHYSTOP: nat := 0x8800_0000
  const KERNBASE: nat := 0x8000_0000

  // A page as its 512 64-bit words.
  type Page = p: seq<nat> | |p| == 512 witness seq(512, _ => 0)

  // Physical memory, by page number (address / PGSIZE).
  type Mem = map<nat, Page>

  function ZeroPage(): Page {
    seq(512, _ => 0)
  }

  const JUNK_FREE: nat := 0x0101_0101_0101_0101
  const JUNK_NEW: nat := 0x0505_0505_0505_0505

  function PageRoundUp(a: nat): (r: nat)
    ensures r % PGSIZE == 0 && a <= r < a + PGSIZE
  {
    (a + PGSIZE - 1) / PGSIZE * PGSIZE
  }

  ghost function NextOf(free: seq<nat>, i: int): nat {
    if 0 <= i < |free| then free[i] else 0
  }

  // The chain of next pointers from page number head runs through free.
  ghost predicate Chain(mem: Mem, head: nat, free: seq<nat>) {
    && (forall i :: 0 <= i < |free| ==> free[i] in mem && free[i] != 0)
    && Apart(free)
    && head == NextOf(free, 0)
    && (forall i {:trigger mem[free[i]]} :: 0 <= i < |free| ==> mem[free[i]][0] == PGSIZE * NextOf(free, i + 1))
  }

  ghost predicate Apart(free: seq<nat>) {
    forall i, j :: 0 <= i < j < |free| ==> free[i] != free[j]
  }

  lemma ChainPop(mem: Mem, head: nat, free: seq<nat>, p: Page)
    requires Chain(mem, head, free) && free != []
    ensures head == free[0] && mem[head][0] == PGSIZE * NextOf(free, 1)
    ensures Chain(mem[head := p], NextOf(free, 1), free[1..])
    ensures head !in free[1..]
  {
    assert mem[free[0]][0] == PGSIZE * NextOf(free, 1);
    assert Apart(free[1..]);
    hide Apart;
    forall i | 0 <= i < |free[1..]|
      ensures mem[head := p][free[1..][i]][0] == PGSIZE * NextOf(free[1..], i + 1)
    {
      assert mem[free[i + 1]][0] == PGSIZE * NextOf(free, i + 2);
    }
  }

  lemma ChainPush(mem: Mem, head: nat, free: seq<nat>, q: nat, p: Page)
    requires Chain(mem, head, free) && q in mem && q != 0 && q !in free && p[0] == PGSIZE * head
    ensures Chain(mem[q := p], q, [q] + free)
  {
    forall i | 0 <= i < |[q] + free|
      ensures mem[q := p][([q] + free)[i]][0] == PGSIZE * NextOf([q] + free, i + 1)
    {
      if i > 0 {
        assert free[i - 1] in free;
        assert mem[free[i - 1]][0] == PGSIZE * NextOf(free, i);
      }
    }
  }

  // Writing elsewhere leaves the chain alone.
  lemma ChainFrame(mem: Mem, mem': Mem, head: nat, free: seq<nat>)
    requires Chain(mem, head, free)
    requires forall p :: p in free ==> p in mem' && mem'[p] == mem[p]
    ensures Chain(mem', head, free)
  {
  }

  class Allocator {
    // Address of the first byte after the kernel.
    const end: nat
    var mem: Mem
    // Page number of the first free page, 0 for an empty list.
    var freelist: nat
    ghost var free: seq<nat>

    // The pages kfree accepts.
    ghost predicate Managed(p: nat) {
      end <= p * PGSIZE < PHYSTOP
    }

    ghost predicate Valid()
      reads this
    {
      && KERNBASE <= end <= PHYSTOP
      && Chain(mem, freelist, free)
      && (forall p :: Managed(p) ==> p in mem)
      && (forall p :: p in free ==> Managed(p))
    }

    constructor (e: nat, m: Mem)
      requires KERNBASE <= e <= PHYSTOP && forall p :: e <= p * PGSIZE < PHYSTOP ==> p in m
      ensures Valid() && end == e && free == [] && mem == m
    {
      end, mem, freelist := e, m, 0;
      free := [];
    }

    // kfree of the page at address pa.
    method Kfree(pa: nat)
      requires Valid() && pa % PGSIZE == 0 && end <= pa < PHYSTOP && pa / PGSIZE !in free
      modifies this`mem, this`freelist, this`free
      ensures Valid() && free == [pa / PGSIZE] + old(free) && pa / PGSIZE in old(mem) && pa / PGSIZE in mem
      ensures mem == old(mem)[pa / PGSIZE := mem[pa / PGSIZE]]
    {
      var q := pa / PGSIZE;
      var junk: Page := seq(512, _ => JUNK_FREE);
      var run: Page := junk[0 := freelist * PGSIZE];
      ChainPush(mem, freelist, free, q, run);
      mem := mem[q := run];
      freelist := q;
      free := [q] + free;
    }

    // kalloc; address 0 if no page is left.
    method Kalloc() returns (pa: nat)
      requires Valid()
      modifies this`mem, this`freelist, this`free
      ensures Valid() && pa % PGSIZE == 0
      ensures pa == 0 <==> old(free) == []
      ensures pa == 0 ==> free == [] && mem == old(mem)
      ensures pa != 0 ==> old(free) == [pa / PGSIZE] + free && pa / PGSIZE !in free && Managed(pa / PGSIZE)
      ensures pa != 0 ==> pa / PGSIZE in old(mem) && mem == old(mem)[pa / PGSIZE := mem[pa / PGSIZE]]
    {
      if freelist == 0 {
        return 0;
      }
      pa := freelist * PGSIZE;
      var junk: Page := seq(512, _ => JUNK_NEW);
      ChainPop(mem, freelist, free, junk);
      var q := freelist;
      freelist := mem[q][0] / PGSIZE;
      mem := mem[q := junk];
      free := free[1..];
    }

    // A write by the owner of an allocated page.
    method Store(p: nat, page: Page)
      requires Valid() && p in mem && p !in free
      modifies this`mem
      ensures Valid() && mem == old(mem)[p := page]
    {
      ChainFrame(mem, mem[p := page], freelist, free);
      mem := mem[p := page];
    }

    // freerange: every whole page between the two addresses is freed.
    method FreeRange(start: nat, stop: nat)
      requires Valid() && end <= start && stop <= PHYSTOP
      requires forall q: nat :: WholePage(q, start, stop) ==> q !in free
      modifies this`mem, this`freelist, this`free
      ensures Valid()
      ensures forall q: nat :: q in free <==> q in old(free) || WholePage(q, start, stop)
      ensures mem.Keys == old(mem).Keys && forall q :: q in mem && !WholePage(q, start, stop) ==> mem[q] == old(mem)[q]
    {
      hide Chain, WholePage;
      var p := PageRoundUp(start);
      Rounded(start, stop, p);
      while p + PGSIZE <= stop
        invariant Valid() && p % PGSIZE == 0 && p >= start
        invariant forall q: nat :: q in free <==> q in old(free) || (WholePage(q, start, stop) && q < p / PGSIZE)
        invariant mem.Keys == old(mem).Keys && forall q :: q in mem && !WholePage(q, start, stop) ==> mem[q] == old(mem)[q]
        decreases stop - p
      {
        NextWhole(p, start, stop);
        Kfree(p);
        p := p + PGSIZE;
      }
      Covered(p, start, stop);
    }
  }

  ghost predicate WholePage(q: nat, start: nat, stop: nat) {
    start <= q * PGSIZE && (q + 1) * PGSIZE <= stop
  }

  lemma Rounded(start: nat, stop: nat, p: nat)
    requires p == PageRoundUp(start)
    ensures p >= start && p % PGSIZE == 0 && forall q: nat :: WholePage(q, start, stop) ==> q >= p / PGSIZE
  {
    assert p / PGSIZE * PGSIZE == p;
  }

  lemma NextWhole(p: nat, start: nat, stop: nat)
    requires p % PGSIZE == 0 && p >= start && p + PGSIZE <= stop
    ensures WholePage(p / PGSIZE, start, stop) && (p + PGSIZE) / PGSIZE == p / PGSIZE + 1
  {
    assert p / PGSIZE * PGSIZE == p;
  }

  lemma Covered(p: nat, start: nat, stop: nat)
    requires p % PGSIZE == 0 && p + PGSIZE > stop
    ensures forall q: nat :: WholePage(q, start, stop) ==> q < p / PGSIZE
  {
    assert p / PGSIZE * PGSIZE == p;
  }
}
