/** The buffer cache of kernel/bio.c: NBUF buffers on a doubly linked ring in
    order of recent use, over a disk of blocks. Every method is one critical
    section (bcache.lock or the buffer's sleep lock), so an invariant kept by
    each method holds in every interleaving of processes that call them. */
module BufferCache {
  import opened Blocks

  const NBUF: nat := 30
  // The ring's head is one more node after the buffers.
  const HEAD: nat := 30
  // The only device the kernel runs with; buffers start out with device 0.
  const ROOTDEV: nat := 1

  // ---------- the prev/next ring ----------

  ghost function At(order: seq<nat>, i: int): nat {
    if 0 <= i < |order| then order[i] else HEAD
  }

  ghost predicate Nodes(order: seq<nat>) {
    && (forall i :: 0 <= i < |order| ==> order[i] < NBUF)
    && (forall i, j :: 0 <= i < j < |order| ==> order[i] != order[j])
  }

  // next and prev link the head and the nodes of order, in this order, into a
  // circle; order.[0] is the most recently used node.
  ghost predicate Ring(next: seq<nat>, prev: seq<nat>, order: seq<nat>) {
    && |next| == NBUF + 1 && |prev| == NBUF + 1
    && Nodes(order)
    && next[HEAD] == At(order, 0)
    && prev[HEAD] == At(order, |order| - 1)
    && (forall i {:trigger next[order[i]]} :: 0 <= i < |order| ==> next[order[i]] == At(order, i + 1))
    && (forall i {:trigger prev[order[i]]} :: 0 <= i < |order| ==> prev[order[i]] == At(order, i - 1))
  }

  ghost predicate Full(order: seq<nat>) {
    forall b :: 0 <= b < NBUF ==> b in order
  }

  ghost function Without(order: seq<nat>, k: nat): (r: seq<nat>)
    requires k < |order|
  {
    order[..k] + order[k + 1..]
  }

  // The links after putting node b right behind the head.
  function FrontNext(next: seq<nat>, b: nat): (r: seq<nat>)
    requires |next| == NBUF + 1 && b < NBUF
  {
    next[b := next[HEAD]][HEAD := b]
  }

  function FrontPrev(next: seq<nat>, prev: seq<nat>, b: nat): (r: seq<nat>)
    requires |next| == NBUF + 1 && |prev| == NBUF + 1 && b < NBUF && next[HEAD] <= NBUF
  {
    prev[b := HEAD][next[HEAD] := b]
  }

  lemma FrontLinks(next: seq<nat>, prev: seq<nat>, order: seq<nat>, b: nat, i: nat)
    requires Ring(next, prev, order) && b < NBUF && b !in order && i <= |order|
    ensures |FrontNext(next, b)| == NBUF + 1 && |FrontPrev(next, prev, b)| == NBUF + 1
    ensures FrontNext(next, b)[HEAD] == b
    ensures FrontPrev(next, prev, b)[HEAD] == At([b] + order, |order|)
    ensures FrontNext(next, b)[([b] + order)[i]] == At([b] + order, i + 1)
    ensures FrontPrev(next, prev, b)[([b] + order)[i]] == At([b] + order, i - 1)
  {
    if i > 0 {
      assert next[order[i - 1]] == At(order, i);
      assert prev[order[i - 1]] == At(order, i - 2);
      assert order[i - 1] != b;
      if i > 1 { assert order[0] != order[i - 1]; }
    }
  }

  lemma FrontOrder(order: seq<nat>, b: nat)
    requires Nodes(order) && b < NBUF && b !in order
    ensures Nodes([b] + order)
  {
    assert forall i :: 0 <= i < |order| ==> order[i] in order;
  }

  lemma LinkFront(next: seq<nat>, prev: seq<nat>, order: seq<nat>, b: nat)
    requires Ring(next, prev, order) && b < NBUF && b !in order
    ensures Ring(FrontNext(next, b), FrontPrev(next, prev, b), [b] + order)
  {
    FrontOrder(order, b);
    FrontLinks(next, prev, order, b, 0);
    hide FrontNext, FrontPrev, Nodes;
    forall i | 0 <= i < |[b] + order|
      ensures FrontNext(next, b)[([b] + order)[i]] == At([b] + order, i + 1)
      ensures FrontPrev(next, prev, b)[([b] + order)[i]] == At([b] + order, i - 1)
    {
      FrontLinks(next, prev, order, b, i);
    }
  }

  lemma WithoutElements(order: seq<nat>, k: nat)
    requires k < |order|
    requires Nodes(order)
    ensures |Without(order, k)| == |order| - 1
    ensures Nodes(Without(order, k))
    ensures order[k] !in Without(order, k)
  {
  }

  // The links after taking node b out.
  function UnlinkedNext(next: seq<nat>, prev: seq<nat>, b: nat): (r: seq<nat>)
    requires |next| == NBUF + 1 && |prev| == NBUF + 1 && b < NBUF && prev[b] <= NBUF
  {
    next[prev[b] := next[b]]
  }

  lemma UnlinkedLinks(next: seq<nat>, prev: seq<nat>, order: seq<nat>, k: nat, i: nat)
    requires Ring(next, prev, order) && k < |order| && i < |order| - 1
    ensures prev[order[k]] <= NBUF && next[order[k]] <= NBUF
    ensures |Without(order, k)| == |order| - 1
    ensures UnlinkedNext(next, prev, order[k])[Without(order, k)[i]] == At(Without(order, k), i + 1)
    ensures UnlinkedNext(prev, next, order[k])[Without(order, k)[i]] == At(Without(order, k), i - 1)
  {
    var o := if i < k then i else i + 1;
    assert next[order[k]] == At(order, k + 1);
    assert prev[order[k]] == At(order, k - 1);
    assert next[order[o]] == At(order, o + 1);
    assert prev[order[o]] == At(order, o - 1);
    assert order[o] == At(order, k - 1) <==> o == k - 1;
    assert order[o] == At(order, k + 1) <==> o == k + 1;
  }

  lemma UnlinkedEnds(next: seq<nat>, prev: seq<nat>, order: seq<nat>, k: nat)
    requires Ring(next, prev, order) && k < |order|
    ensures prev[order[k]] <= NBUF && next[order[k]] <= NBUF
    ensures UnlinkedNext(next, prev, order[k])[HEAD] == At(Without(order, k), 0)
    ensures UnlinkedNext(prev, next, order[k])[HEAD] == At(Without(order, k), |order| - 2)
  {
    assert next[order[k]] == At(order, k + 1);
    assert prev[order[k]] == At(order, k - 1);
  }

  lemma Unlink(next: seq<nat>, prev: seq<nat>, order: seq<nat>, k: nat)
    requires Ring(next, prev, order) && k < |order|
    ensures next[order[k]] <= NBUF && prev[order[k]] <= NBUF
    ensures Ring(UnlinkedNext(next, prev, order[k]), UnlinkedNext(prev, next, order[k]), Without(order, k))
    ensures order[k] !in Without(order, k)
  {
    WithoutElements(order, k);
    UnlinkedEnds(next, prev, order, k);
    assert |UnlinkedNext(next, prev, order[k])| == NBUF + 1 && |UnlinkedNext(prev, next, order[k])| == NBUF + 1;
    hide UnlinkedNext, Without;
    forall i | 0 <= i < |order| - 1
      ensures UnlinkedNext(next, prev, order[k])[Without(order, k)[i]] == At(Without(order, k), i + 1)
      ensures UnlinkedNext(prev, next, order[k])[Without(order, k)[i]] == At(Without(order, k), i - 1)
    {
      UnlinkedLinks(next, prev, order, k, i);
    }
  }

  ghost predicate MovedToFront(order: seq<nat>, order': seq<nat>, b: nat) {
    exists k :: 0 <= k < |order| && order[k] == b && order' == [b] + Without(order, k)
  }

  lemma WithoutKeepsOthers(order: seq<nat>, k: nat)
    requires k < |order| && Full(order)
    ensures Full([order[k]] + Without(order, k))
  {
    var order' := [order[k]] + Without(order, k);
    forall b | 0 <= b < NBUF ensures b in order' {
      assert b in order;
      var i :| 0 <= i < |order| && order[i] == b;
      if i < k { assert order'[i + 1] == b; }
      else if i > k { assert order'[i] == b; }
    }
  }

  // ---------- the buffers ----------

  datatype Buf = Buf(dev: nat, blockno: nat, valid: bool, refcnt: nat, locked: bool, data: Block)

  ghost predicate Holds(b: Buf, dev: nat, blockno: nat) {
    b.dev == dev && b.blockno == blockno
  }

  // At most one buffer per block of a real device.
  ghost predicate Unique(buf: seq<Buf>) {
    forall i, j :: 0 <= i < j < |buf| && buf[i].dev != 0 ==> !Holds(buf[j], buf[i].dev, buf[i].blockno)
  }

  // refs holds one element per buffer handle that some process has from bget
  // and not yet given to brelse; pins one per bpin without its bunpin.
  ghost predicate Counted(buf: seq<Buf>, refs: multiset<nat>, pins: multiset<nat>) {
    && (forall i :: 0 <= i < |buf| ==> buf[i].refcnt == refs[i] + pins[i])
    && (forall x :: x in refs ==> x < |buf|)
    && (forall x :: x in pins ==> x < |buf|)
    && (forall i :: 0 <= i < |buf| && buf[i].locked ==> refs[i] > 0)
    && (forall i :: 0 <= i < |buf| ==>
         buf[i].dev == ROOTDEV || (buf[i].dev == 0 && buf[i].refcnt == 0))
  }

  // view is the one block map that all readers and writers of buffers see; it
  // differs from the disk only in the blocks of dirty, each of which sits in a
  // buffer (dirty gives its index) that is referenced and so never recycled.
  ghost predicate Coherent(buf: seq<Buf>, disk: Disk, view: Disk, dirty: map<nat, nat>) {
    && view.Keys == disk.Keys
    && (forall k :: k in disk && k !in dirty ==> view[k] == disk[k])
    && (forall k :: k in dirty ==> k in disk && DirtyAt(buf, k, dirty[k]))
    && (forall i :: 0 <= i < |buf| && buf[i].dev == ROOTDEV && buf[i].valid ==>
         buf[i].blockno in view && buf[i].data == view[buf[i].blockno])
  }

  ghost predicate DirtyAt(buf: seq<Buf>, k: nat, i: nat) {
    i < |buf| && Holds(buf[i], ROOTDEV, k) && buf[i].valid && buf[i].refcnt > 0
  }

  // b is the least recently used of the buffers that nobody references.
  ghost predicate LeastRecent(buf: seq<Buf>, order: seq<nat>, b: nat)
    requires forall i :: 0 <= i < |order| ==> order[i] < |buf|
  {
    b < |buf| && buf[b].refcnt == 0 &&
    exists i :: 0 <= i < |order| && order[i] == b &&
                forall j :: i < j < |order| ==> buf[order[j]].refcnt > 0
  }

  ghost predicate Buffers(buf: seq<Buf>, refs: multiset<nat>, pins: multiset<nat>,
                          disk: Disk, view: Disk, dirty: map<nat, nat>) {
    && |buf| == NBUF
    && Unique(buf)
    && Counted(buf, refs, pins)
    && Coherent(buf, disk, view, dirty)
  }

  function Referenced(buf: seq<Buf>, b: nat): (r: seq<Buf>)
    requires b < |buf|
  {
    buf[b := buf[b].(refcnt := buf[b].refcnt + 1)]
  }

  function Recycled(buf: seq<Buf>, b: nat, dev: nat, blockno: nat): (r: seq<Buf>)
    requires b < |buf|
  {
    buf[b := buf[b].(dev := dev, blockno := blockno, valid := false, refcnt := 1)]
  }

  // Neither the buffer that caches block k nor an unreferenced one is locked.
  ghost predicate Available(buf: seq<Buf>, k: nat) {
    forall i :: 0 <= i < |buf| && (Holds(buf[i], ROOTDEV, k) || buf[i].refcnt == 0) ==> !buf[i].locked
  }

  // bget panics: block k is not cached and every buffer is referenced.
  ghost predicate NoBuffer(buf: seq<Buf>, k: nat) {
    AllReferenced(buf) && NotCached(buf, ROOTDEV, k)
  }

  // Buffer b now stands for block k with one more reference: it is the buffer
  // that held k before, or else an unreferenced one, made invalid.
  ghost predicate Gotten(buf: seq<Buf>, buf': seq<Buf>, b: nat, k: nat) {
    && b < |buf|
    && (forall i :: 0 <= i < |buf| && Holds(buf[i], ROOTDEV, k) ==> i == b)
    && (if Holds(buf[b], ROOTDEV, k) then buf' == Referenced(buf, b)
        else buf[b].refcnt == 0 && buf' == Recycled(buf, b, ROOTDEV, k))
  }

  ghost predicate SameBlocks(buf: seq<Buf>, buf': seq<Buf>) {
    |buf'| == |buf| &&
    forall i :: 0 <= i < |buf| ==>
      Holds(buf'[i], buf[i].dev, buf[i].blockno) && (buf[i].valid ==> buf'[i].valid)
  }

  ghost predicate NotCached(buf: seq<Buf>, dev: nat, k: nat) {
    forall i :: 0 <= i < |buf| ==> !Holds(buf[i], dev, k)
  }

  ghost predicate AllReferenced(buf: seq<Buf>) {
    forall i :: 0 <= i < |buf| ==> buf[i].refcnt > 0
  }

  lemma ReferencedKeeps(buf: seq<Buf>, refs: multiset<nat>, pins: multiset<nat>,
                        disk: Disk, view: Disk, dirty: map<nat, nat>, b: nat)
    requires Buffers(buf, refs, pins, disk, view, dirty) && b < NBUF && buf[b].dev == ROOTDEV
    ensures Gotten(buf, Referenced(buf, b), b, buf[b].blockno)
    ensures Buffers(Referenced(buf, b), refs + multiset{b}, pins, disk, view, dirty)
  {
  }

  lemma RecycledKeeps(buf: seq<Buf>, refs: multiset<nat>, pins: multiset<nat>,
                      disk: Disk, view: Disk, dirty: map<nat, nat>, b: nat, dev: nat, blockno: nat)
    requires Buffers(buf, refs, pins, disk, view, dirty)
    requires b < NBUF && dev == ROOTDEV && buf[b].refcnt == 0 && NotCached(buf, dev, blockno)
    ensures Gotten(buf, Recycled(buf, b, dev, blockno), b, blockno)
    ensures Buffers(Recycled(buf, b, dev, blockno), refs + multiset{b}, pins, disk, view, dirty)
  {
  }

  lemma LockedKeeps(buf: seq<Buf>, refs: multiset<nat>, pins: multiset<nat>,
                    disk: Disk, view: Disk, dirty: map<nat, nat>, b: nat)
    requires Buffers(buf, refs, pins, disk, view, dirty) && b < NBUF && b in refs
    ensures Buffers(buf[b := buf[b].(locked := true)], refs, pins, disk, view, dirty)
  {
  }

  lemma LoadedKeeps(buf: seq<Buf>, refs: multiset<nat>, pins: multiset<nat>,
                    disk: Disk, view: Disk, dirty: map<nat, nat>, b: nat)
    requires Buffers(buf, refs, pins, disk, view, dirty)
    requires b < NBUF && buf[b].dev == ROOTDEV && !buf[b].valid && buf[b].blockno in disk
    ensures Buffers(buf[b := buf[b].(valid := true, data := disk[buf[b].blockno])],
                    refs, pins, disk, view, dirty)
  {
    var k := buf[b].blockno;
    assert forall x :: x in dirty ==> DirtyAt(buf, x, dirty[x]);
  }

  lemma ModifiedKeeps(buf: seq<Buf>, refs: multiset<nat>, pins: multiset<nat>,
                      disk: Disk, view: Disk, dirty: map<nat, nat>, b: nat, data: Block)
    requires Buffers(buf, refs, pins, disk, view, dirty)
    requires b < NBUF && buf[b].dev == ROOTDEV && buf[b].valid && buf[b].refcnt > 0
    ensures Buffers(buf[b := buf[b].(data := data)], refs, pins,
                    disk, view[buf[b].blockno := data], dirty[buf[b].blockno := b])
  {
    var k := buf[b].blockno;
    assert k in view && k in disk;
    var buf' := buf[b := buf[b].(data := data)];
    forall i | 0 <= i < NBUF && i != b && buf[i].dev == ROOTDEV ensures buf[i].blockno != k {
      assert !Holds(buf[i], ROOTDEV, k);
    }
    assert view[k := data].Keys == view.Keys + {k};
  }

  lemma WrittenKeeps(buf: seq<Buf>, refs: multiset<nat>, pins: multiset<nat>,
                     disk: Disk, view: Disk, dirty: map<nat, nat>, b: nat)
    requires Buffers(buf, refs, pins, disk, view, dirty)
    requires b < NBUF && buf[b].dev == ROOTDEV && buf[b].valid
    ensures Buffers(buf, refs, pins, disk[buf[b].blockno := buf[b].data], view, dirty - {buf[b].blockno})
  {
    var k := buf[b].blockno;
    assert k in view && k in disk;
    assert disk[k := buf[b].data].Keys == disk.Keys;
  }

  lemma DroppedKeeps(buf: seq<Buf>, refs: multiset<nat>, pins: multiset<nat>,
                     disk: Disk, view: Disk, dirty: map<nat, nat>, b: nat)
    requires Buffers(buf, refs, pins, disk, view, dirty)
    requires b < NBUF && buf[b].locked
    requires buf[b].blockno in dirty ==> buf[b].refcnt > 1
    ensures buf[b].refcnt > 0
    ensures Buffers(buf[b := buf[b].(refcnt := buf[b].refcnt - 1, locked := false)],
                    refs - multiset{b}, pins, disk, view, dirty)
  {
  }

  lemma PinnedKeeps(buf: seq<Buf>, refs: multiset<nat>, pins: multiset<nat>,
                    disk: Disk, view: Disk, dirty: map<nat, nat>, b: nat)
    requires Buffers(buf, refs, pins, disk, view, dirty) && b < NBUF && b in refs
    ensures Buffers(buf[b := buf[b].(refcnt := buf[b].refcnt + 1)],
                    refs, pins + multiset{b}, disk, view, dirty)
  {
  }

  lemma UnpinnedKeeps(buf: seq<Buf>, refs: multiset<nat>, pins: multiset<nat>,
                      disk: Disk, view: Disk, dirty: map<nat, nat>, b: nat)
    requires Buffers(buf, refs, pins, disk, view, dirty)
    requires b < NBUF && pins[b] > 0
    requires buf[b].blockno in dirty ==> buf[b].refcnt > 1
    ensures buf[b].refcnt > 0
    ensures Buffers(buf[b := buf[b].(refcnt := buf[b].refcnt - 1)],
                    refs, pins - multiset{b}, disk, view, dirty)
  {
  }

  lemma GottenThenLoaded(buf: seq<Buf>, buf1: seq<Buf>, b: nat, k: nat, v: Block)
    requires Gotten(buf, buf1, b, k)
    ensures Available(buf, k) ==> !buf1[b].locked
    ensures ReadIn(buf, buf1[b := buf1[b].(locked := true)][b := buf1[b].(locked := true, valid := true, data := v)],
                   b, k, v)
    ensures |buf1| == |buf| && Holds(buf1[b], ROOTDEV, k)
  {
  }

  // Buffer b now holds block k, locked, with contents v: it is the buffer that
  // held k before, or one that was unreferenced. No other buffer changed.
  ghost predicate ReadIn(buf: seq<Buf>, buf': seq<Buf>, b: nat, k: nat, v: Block) {
    && b < |buf|
    && (buf[b].refcnt > 0 ==> Holds(buf[b], ROOTDEV, k))
    && (forall i :: 0 <= i < |buf| && Holds(buf[i], ROOTDEV, k) ==> i == b)
    && buf' == buf[b := Buf(ROOTDEV, k, true, buf[b].refcnt + 1, true, v)]
  }

  lemma {:induction false} Pigeonhole(m: multiset<nat>, n: nat)
    requires forall i :: 0 <= i < n ==> m[i] > 0
    ensures |m| >= n
  {
    if n > 0 {
      var rest := m[n - 1 := 0];
      assert m == rest + multiset{}[n - 1 := m[n - 1]];
      Pigeonhole(rest, n - 1);
    }
  }

  // With fewer references and pins than buffers, some buffer can be recycled.
  lemma SomeUnused(buf: seq<Buf>, refs: multiset<nat>, pins: multiset<nat>)
    requires |buf| == NBUF && Counted(buf, refs, pins) && |refs| + |pins| < NBUF
    ensures exists i :: 0 <= i < NBUF && buf[i].refcnt == 0
  {
    if forall i :: 0 <= i < NBUF ==> buf[i].refcnt > 0 {
      forall i | 0 <= i < NBUF ensures (refs + pins)[i] > 0 {
        assert buf[i].refcnt == refs[i] + pins[i];
      }
      Pigeonhole(refs + pins, NBUF);
    }
  }

  lemma OtherUnused(buf: seq<Buf>, refs: multiset<nat>, pins: multiset<nat>, b: nat)
    requires |buf| == NBUF && Counted(buf, refs, pins) && |refs| + |pins| + 1 < NBUF && b < NBUF
    ensures exists i :: 0 <= i < NBUF && i != b && buf[i].refcnt == 0
  {
    if forall i :: 0 <= i < NBUF && i != b ==> buf[i].refcnt > 0 {
      var m := refs + pins + multiset{b};
      forall i | 0 <= i < NBUF ensures m[i] > 0 {
        assert buf[i].refcnt == refs[i] + pins[i];
      }
      Pigeonhole(m, NBUF);
    }
  }

  // Every pinned buffer still has its block.
  ghost predicate SamePinned(buf: seq<Buf>, buf': seq<Buf>, pins: multiset<nat>) {
    |buf'| == |buf| &&
    forall i :: 0 <= i < |buf| && i in pins ==>
      Holds(buf'[i], buf[i].dev, buf[i].blockno) && (buf[i].valid ==> buf'[i].valid)
  }

  // The held buffers are as they were.
  ghost predicate SameHeld(buf: seq<Buf>, buf': seq<Buf>, refs: multiset<nat>) {
    |buf'| == |buf| && forall i :: 0 <= i < |buf| && i in refs ==> buf'[i] == buf[i]
  }

  // Only the buffers b and c changed, and not in the blocks they hold.
  ghost predicate OnlyTwo(buf: seq<Buf>, buf': seq<Buf>, b: nat, c: nat) {
    SameBlocks(buf, buf') && forall i :: 0 <= i < |buf| && i != b && i != c ==> buf'[i] == buf[i]
  }

  // The buffers of m are referenced.
  ghost predicate Referring(buf: seq<Buf>, m: multiset<nat>) {
    forall i :: i in m ==> i < |buf| && buf[i].refcnt > 0
  }

  // Nobody holds the buffer of block k.
  ghost predicate Unheld(buf: seq<Buf>, refs: multiset<nat>, k: nat) {
    forall i :: i in refs && i < |buf| ==> !Holds(buf[i], ROOTDEV, k)
  }

  // Every buffer is held or pinned.
  ghost predicate Crowded(refs: multiset<nat>, pins: multiset<nat>) {
    forall i :: 0 <= i < NBUF ==> refs[i] + pins[i] > 0
  }

  ghost predicate PinnedBlock(buf: seq<Buf>, pins: multiset<nat>, k: nat) {
    exists i :: i in pins && i < |buf| && Holds(buf[i], ROOTDEV, k)
  }

  // Buffers b and c were read in, in this order, for the blocks j and k.
  ghost predicate PairRead(buf: seq<Buf>, buf': seq<Buf>, b: nat, j: nat, v: Block, c: nat, k: nat, w: Block) {
    && b < |buf| && c < |buf| && b != c
    && (buf[b].refcnt > 0 ==> Holds(buf[b], ROOTDEV, j))
    && (buf[c].refcnt > 0 ==> Holds(buf[c], ROOTDEV, k))
    && (forall i :: 0 <= i < |buf| && buf[i].refcnt > 0 && Holds(buf[i], ROOTDEV, k) ==> i == c)
    && buf' == buf[b := Buf(ROOTDEV, j, true, buf[b].refcnt + 1, true, v)]
                  [c := Buf(ROOTDEV, k, true, buf[c].refcnt + 1, true, w)]
  }

  // Two buffers are unreferenced, or one is and block k sits in a referenced one.
  ghost predicate Room(buf: seq<Buf>, k: nat) {
    exists i, j :: 0 <= i < |buf| && 0 <= j < |buf| && i != j && buf[i].refcnt == 0 &&
                   (buf[j].refcnt == 0 || Holds(buf[j], ROOTDEV, k))
  }

  lemma FirstRead(buf: seq<Buf>, buf1: seq<Buf>, b: nat, j: nat, v: Block, k: nat)
    requires Available(buf, k) && ReadIn(buf, buf1, b, j, v) && j != k
    ensures Available(buf1, k)
    ensures Room(buf, k) ==> !NoBuffer(buf1, k)
    ensures !NoBuffer(buf, j)
  {
    assert forall i :: 0 <= i < |buf| && i != b ==> buf1[i] == buf[i];
  }

  lemma RoomToRead(buf: seq<Buf>, j: nat, k: nat)
    ensures NoBuffer(buf, j) ==> !Room(buf, k)
  {
  }

  lemma BothRead(buf: seq<Buf>, buf1: seq<Buf>, buf2: seq<Buf>, b: nat, j: nat, v: Block, c: nat, k: nat, w: Block)
    requires ReadIn(buf, buf1, b, j, v) && ReadIn(buf1, buf2, c, k, w) && j != k
    ensures PairRead(buf, buf2, b, j, v, c, k, w)
  {
    assert forall i :: 0 <= i < |buf| && i != b ==> buf1[i] == buf[i];
  }

  lemma PairReadFacts(buf: seq<Buf>, buf': seq<Buf>, pins: multiset<nat>, b: nat, j: nat, v: Block,
                      c: nat, k: nat, w: Block)
    requires Referring(buf, pins) && PairRead(buf, buf', b, j, v, c, k, w)
    ensures b != c && b < |buf'| == |buf| && c < |buf'|
    ensures buf'[b] == Buf(ROOTDEV, j, true, buf[b].refcnt + 1, true, v)
    ensures buf'[c] == Buf(ROOTDEV, k, true, buf[c].refcnt + 1, true, w)
    ensures PinnedBlock(buf, pins, k) ==> buf'[c].refcnt > 1 && c in pins
    ensures forall i :: i in pins && Holds(buf[i], ROOTDEV, k) ==> i == c
  {
  }

  lemma OneRead(buf: seq<Buf>, buf1: seq<Buf>, refs: multiset<nat>, pins: multiset<nat>, b: nat, k: nat, v: Block)
    requires Referring(buf, refs) && Referring(buf, pins) && ReadIn(buf, buf1, b, k, v) && Unheld(buf, refs, k)
    ensures b < |buf1| == |buf| && buf1[b] == Buf(ROOTDEV, k, true, buf[b].refcnt + 1, true, v) && b !in refs
    ensures SamePinned(buf, buf1, pins) && SameHeld(buf, buf1, refs) && !NoBuffer(buf, k)
  {
  }

  // A buffer read for block k and only used for it since.
  lemma OneDone(buf: seq<Buf>, buf1: seq<Buf>, buf2: seq<Buf>, refs: multiset<nat>, pins: multiset<nat>, b: nat)
    requires SamePinned(buf, buf1, pins) && SameHeld(buf, buf1, refs) && b !in refs && OnlyTwo(buf1, buf2, b, b)
    ensures SamePinned(buf, buf2, pins) && SameHeld(buf, buf2, refs)
  {
  }

  lemma OneChanged(buf: seq<Buf>, b: nat, e: Buf, c: nat)
    requires b < |buf| && Holds(e, buf[b].dev, buf[b].blockno) && (buf[b].valid ==> e.valid)
    ensures OnlyTwo(buf, buf[b := e], b, c) && OnlyTwo(buf, buf[b := e], c, b)
  {
  }

  lemma TwoChain(buf: seq<Buf>, buf1: seq<Buf>, buf2: seq<Buf>, b: nat, c: nat)
    requires OnlyTwo(buf, buf1, b, c) && (OnlyTwo(buf1, buf2, b, c) || OnlyTwo(buf1, buf2, c, b))
    ensures OnlyTwo(buf, buf2, b, c) && OnlyTwo(buf, buf2, c, b)
  {
  }

  lemma Returned(refs: multiset<nat>, b: nat, c: nat)
    ensures refs + multiset{b, c} - multiset{c, b} == refs
    ensures refs + multiset{b, c} - multiset{b, c} == refs
  {
  }

  // Contents, locks and counts of b and c may have changed since.
  lemma PairDone(buf: seq<Buf>, buf1: seq<Buf>, buf2: seq<Buf>, refs: multiset<nat>, pins: multiset<nat>,
                 b: nat, j: nat, v: Block, c: nat, k: nat, w: Block)
    requires Referring(buf, refs) && Referring(buf, pins) && PairRead(buf, buf1, b, j, v, c, k, w)
    requires Unheld(buf, refs, j) && Unheld(buf, refs, k) && OnlyTwo(buf1, buf2, b, c)
    ensures SamePinned(buf, buf2, pins) && SameHeld(buf, buf2, refs)
  {
    assert b !in refs && c !in refs;
  }

  class Cache {
    var buf: seq<Buf>
    var next: seq<nat>
    var prev: seq<nat>
    var disk: Disk
    ghost var order: seq<nat>
    ghost var refs: multiset<nat>
    ghost var pins: multiset<nat>
    ghost var view: Disk
    ghost var dirty: map<nat, nat>
    // Every disk state a crash could have left behind, oldest first.
    ghost var trace: seq<Disk>

    ghost predicate Valid()
      reads this
    {
      && |buf| == NBUF && view.Keys == disk.Keys
      && Buffers(buf, refs, pins, disk, view, dirty)
      && Ring(next, prev, order) && Full(order)
    }

    // What the references say about reading a block that nobody holds.
    lemma Quiet(k: nat)
      requires Valid() && Unheld(buf, refs, k)
      ensures |buf| == NBUF && view.Keys == disk.Keys && Available(buf, k)
      ensures Referring(buf, refs) && Referring(buf, pins)
      ensures AllReferenced(buf) <==> Crowded(refs, pins)
      ensures !Crowded(refs, pins) && PinnedBlock(buf, pins, k) ==> Room(buf, k)
      ensures |refs| + |pins| + 1 < NBUF ==> Room(buf, k)
    {
      forall i | 0 <= i < NBUF && Holds(buf[i], ROOTDEV, k) ensures !buf[i].locked { assert refs[i] == 0; }
      if |refs| + |pins| + 1 < NBUF {
        SomeUnused(buf, refs, pins);
        var i :| 0 <= i < NBUF && buf[i].refcnt == 0;
        OtherUnused(buf, refs, pins, i);
      }
    }

    // Some buffer is free if the references are fewer than the buffers.
    lemma NotCrowded()
      requires Valid() && |refs| + |pins| < NBUF
      ensures !Crowded(refs, pins)
    {
      SomeUnused(buf, refs, pins);
    }

    // A held buffer is referenced, and again so if its block is also pinned.
    lemma HeldAndPinned(b: nat)
      requires Valid() && b in refs
      ensures |buf| == NBUF && b < NBUF && buf[b].refcnt >= 1 && buf[b].dev == ROOTDEV
      ensures buf[b].valid ==> buf[b].blockno in disk
      ensures forall i :: i in pins && i < NBUF && Holds(buf[i], ROOTDEV, buf[b].blockno) ==> buf[b].refcnt >= 2
    {
    }

    lemma SameKeys()
      requires Valid()
      ensures |buf| == NBUF && view.Keys == disk.Keys
    {
    }

    // The view and the disk differ in dirty blocks only.
    lemma CleanAgrees()
      requires Valid()
      ensures view.Keys == disk.Keys
      ensures forall k :: k in disk && k !in dirty ==> view[k] == disk[k]
    {
    }

    // binit: every buffer is unused, and each is linked in at the front.
    constructor (d: Disk)
      ensures Valid()
      ensures disk == d && view == d && dirty == map[] && trace == []
      ensures refs == multiset{} && pins == multiset{}
    {
      var bs := seq(NBUF, _ => Buf(0, 0, false, 0, false, seq(256, _ => 0)));
      var nx: seq<nat> := seq(NBUF + 1, _ => HEAD);
      var pv: seq<nat> := seq(NBUF + 1, _ => HEAD);
      ghost var ord: seq<nat> := [];
      var b := 0;
      while b < NBUF
        invariant 0 <= b <= NBUF
        invariant Ring(nx, pv, ord)
        invariant forall x :: x in ord <==> 0 <= x < b
      {
        LinkFront(nx, pv, ord, b);
        nx := nx[b := nx[HEAD]];
        pv := pv[b := HEAD];
        pv := pv[nx[HEAD] := b];
        nx := nx[HEAD := b];
        ord := [b] + ord;
        b := b + 1;
      }
      buf, next, prev, disk := bs, nx, pv, d;
      order, refs, pins, view, dirty, trace := ord, multiset{}, multiset{}, d, map[], [];
    }

    // bget's first scan, from the most recently used end.
    method FindCached(dev: nat, blockno: nat) returns (b: nat)
      requires Valid()
      ensures b <= NBUF
      ensures b < NBUF ==> Holds(buf[b], dev, blockno)
      ensures b == HEAD ==> NotCached(buf, dev, blockno)
    {
      b := next[HEAD];
      ghost var i := 0;
      while b != HEAD
        invariant 0 <= i <= |order| && b == At(order, i)
        invariant forall j :: 0 <= j < i ==> !Holds(buf[order[j]], dev, blockno)
        decreases |order| - i
      {
        if buf[b].dev == dev && buf[b].blockno == blockno {
          return;
        }
        b := next[b];
        i := i + 1;
      }
      forall x | 0 <= x < NBUF ensures !Holds(buf[x], dev, blockno) {
        assert x in order;
      }
    }

    // bget's second scan, from the least recently used end.
    method FindUnused() returns (b: nat)
      requires Valid()
      ensures b <= NBUF
      ensures b < NBUF ==> LeastRecent(buf, order, b)
      ensures b == HEAD ==> AllReferenced(buf)
    {
      b := prev[HEAD];
      ghost var i := |order| - 1;
      while b != HEAD
        invariant -1 <= i < |order| && b == At(order, i)
        invariant forall j :: i < j < |order| ==> buf[order[j]].refcnt > 0
        decreases i + 1
      {
        if buf[b].refcnt == 0 {
          assert order[i] == b;
          return;
        }
        b := prev[b];
        i := i - 1;
      }
      forall x | 0 <= x < NBUF ensures buf[x].refcnt > 0 {
        assert x in order;
      }
    }

    // The buffer for a block: the one that caches it, or else the least
    // recently used one that nobody references. Returning ok == false stands
    // for the panic "bget: no buffers".
    method Bget(dev: nat, blockno: nat) returns (ok: bool, b: nat)
      requires Valid() && dev == ROOTDEV
      modifies this`buf, this`refs
      ensures Valid()
      ensures !ok ==> buf == old(buf) && refs == old(refs) && NoBuffer(buf, blockno)
      ensures ok ==> refs == old(refs) + multiset{b} && Gotten(old(buf), buf, b, blockno)
      ensures ok ==> Holds(old(buf[b]), dev, blockno) || LeastRecent(old(buf), order, b)
    {
      hide Buffers, Ring, Full, NotCached, AllReferenced, Gotten;
      b := FindCached(dev, blockno);
      if b != HEAD {
        ReferencedKeeps(buf, refs, pins, disk, view, dirty, b);
        buf := Referenced(buf, b);
        refs := refs + multiset{b};
        return true, b;
      }
      b := FindUnused();
      if b != HEAD {
        RecycledKeeps(buf, refs, pins, disk, view, dirty, b, dev, blockno);
        buf := Recycled(buf, b, dev, blockno);
        refs := refs + multiset{b};
        return true, b;
      }
      return false, b;
    }

    // acquiresleep, at the moment the lock is found free.
    method AcquireSleep(b: nat)
      requires Valid() && b < NBUF && b in refs && !buf[b].locked
      modifies this`buf
      ensures Valid()
      ensures buf == old(buf)[b := old(buf)[b].(locked := true)]
    {
      hide Buffers, Ring, Full;
      LockedKeeps(buf, refs, pins, disk, view, dirty, b);
      buf := buf[b := buf[b].(locked := true)];
    }

    // The rest of bread: the holder of a buffer reads it in if it is not valid.
    method Load(b: nat)
      requires Valid() && b < NBUF && buf[b].locked && buf[b].blockno in disk
      modifies this`buf
      ensures Valid()
      ensures buf == old(buf)[b := old(buf)[b].(valid := true, data := view[old(buf)[b].blockno])]
    {
      if !buf[b].valid {
        LoadedKeeps(buf, refs, pins, disk, view, dirty, b);
        buf := buf[b := buf[b].(valid := true, data := disk[buf[b].blockno])];
      }
    }

    // The holder of a buffer changes its contents.
    method Modify(b: nat, data: Block)
      requires Valid() && b < NBUF && buf[b].locked && buf[b].valid
      modifies this`buf, this`view, this`dirty
      ensures Valid()
      ensures buf == old(buf)[b := old(buf)[b].(data := data)]
      ensures view == old(view)[buf[b].blockno := data]
      ensures dirty == old(dirty)[buf[b].blockno := b]
    {
      assert buf[b].dev == ROOTDEV && buf[b].refcnt > 0;
      hide Buffers, Ring, Full;
      ModifiedKeeps(buf, refs, pins, disk, view, dirty, b, data);
      view := view[buf[b].blockno := data];
      dirty := dirty[buf[b].blockno := b];
      buf := buf[b := buf[b].(data := data)];
    }

    // bwrite; a caller that does not hold the buffer's lock would panic.
    method Bwrite(b: nat)
      requires Valid() && b < NBUF && buf[b].locked && buf[b].valid
      modifies this`disk, this`dirty, this`trace
      ensures Valid()
      ensures disk == old(disk)[buf[b].blockno := buf[b].data]
      ensures trace == old(trace) + [disk]
      ensures dirty == old(dirty) - {buf[b].blockno}
    {
      assert buf[b].dev == ROOTDEV;
      hide Buffers, Ring, Full;
      WrittenKeeps(buf, refs, pins, disk, view, dirty, b);
      disk := disk[buf[b].blockno := buf[b].data];
      dirty := dirty - {buf[b].blockno};
      trace := trace + [disk];
    }

    // brelse. A buffer whose contents the disk does not have must be pinned.
    method Brelse(b: nat)
      requires Valid() && b < NBUF && buf[b].locked
      requires buf[b].blockno in dirty ==> buf[b].refcnt > 1
      modifies this`buf, this`next, this`prev, this`order, this`refs
      ensures Valid()
      ensures buf == old(buf)[b := old(buf)[b].(refcnt := old(buf)[b].refcnt - 1, locked := false)]
      ensures refs == old(refs) - multiset{b}
      ensures if buf[b].refcnt > 0 then order == old(order) else MovedToFront(old(order), order, b)
    {
      hide Buffers, Ring, Full, MovedToFront;
      DroppedKeeps(buf, refs, pins, disk, view, dirty, b);
      refs := refs - multiset{b};
      buf := buf[b := buf[b].(refcnt := buf[b].refcnt - 1, locked := false)];
      if buf[b].refcnt == 0 {
        MoveToFront(b);
      }
    }

    method MoveToFront(b: nat)
      requires Ring(next, prev, order) && Full(order) && b < NBUF
      modifies this`next, this`prev, this`order
      ensures Ring(next, prev, order) && Full(order)
      ensures MovedToFront(old(order), order, b)
    {
      assert b in order;
      ghost var k :| 0 <= k < |order| && order[k] == b;
      Unlink(next, prev, order, k);
      WithoutKeepsOthers(order, k);
      assert next[b] != b by { assert next[order[k]] == At(order, k + 1); }
      hide Ring, Full, Without;
      prev := prev[next[b] := prev[b]];
      next := next[prev[b] := next[b]];
      order := Without(order, k);
      LinkFront(next, prev, order, b);
      next := next[b := next[HEAD]];
      prev := prev[b := HEAD];
      prev := prev[next[HEAD] := b];
      next := next[HEAD := b];
      order := [b] + order;
    }

    method Bpin(b: nat)
      requires Valid() && b < NBUF && b in refs
      modifies this`buf, this`pins
      ensures Valid()
      ensures buf == old(buf)[b := old(buf)[b].(refcnt := old(buf)[b].refcnt + 1)]
      ensures pins == old(pins) + multiset{b}
    {
      hide Buffers, Ring, Full;
      PinnedKeeps(buf, refs, pins, disk, view, dirty, b);
      buf := buf[b := buf[b].(refcnt := buf[b].refcnt + 1)];
      pins := pins + multiset{b};
    }

    method Bunpin(b: nat)
      requires Valid() && b < NBUF && b in pins
      requires buf[b].blockno in dirty ==> buf[b].refcnt > 1
      modifies this`buf, this`pins
      ensures Valid()
      ensures buf == old(buf)[b := old(buf)[b].(refcnt := old(buf)[b].refcnt - 1)]
      ensures pins == old(pins) - multiset{b}
    {
      hide Buffers, Ring, Full;
      UnpinnedKeeps(buf, refs, pins, disk, view, dirty, b);
      buf := buf[b := buf[b].(refcnt := buf[b].refcnt - 1)];
      pins := pins - multiset{b};
    }

    // bread of a block whose buffer, if it has one, nobody holds.
    method Bread(dev: nat, blockno: nat) returns (ok: bool, b: nat)
      requires Valid() && dev == ROOTDEV && blockno in disk
      requires Available(buf, blockno)
      modifies this`buf, this`refs
      ensures Valid()
      ensures !ok ==> NoBuffer(old(buf), blockno) && buf == old(buf) && refs == old(refs)
      ensures ok ==> refs == old(refs) + multiset{b} && ReadIn(old(buf), buf, b, blockno, view[blockno])
    {
      hide Buffers, Ring, Full, Available, NoBuffer, Gotten, ReadIn, LeastRecent;
      ok, b := Bget(dev, blockno);
      if ok {
        GottenThenLoaded(old(buf), buf, b, blockno, view[blockno]);
        AcquireSleep(b);
        Load(b);
      }
    }

    // memmove into a held buffer, then bwrite of it.
    method CopyAndWrite(to: nat, from: nat)
      requires Valid() && to < |buf| == NBUF && from < NBUF && buf[to].locked && buf[to].valid
      modifies this`buf, this`view, this`disk, this`dirty, this`trace
      ensures Valid()
      ensures |buf| == NBUF && buf[to] == old(buf)[to].(data := old(buf)[from].data)
      ensures from != to ==> buf[from] == old(buf)[from]
      ensures OnlyTwo(old(buf), buf, to, from)
      ensures view == old(view)[old(buf)[to].blockno := old(buf)[from].data]
      ensures disk == old(disk)[old(buf)[to].blockno := old(buf)[from].data]
      ensures trace == old(trace) + [disk]
      ensures dirty == old(dirty) - {old(buf)[to].blockno}
    {
      hide Valid, OnlyTwo, SameBlocks;
      OneChanged(buf, to, buf[to].(data := buf[from].data), from);
      Modify(to, buf[from].data);
      Bwrite(to);
    }

    method ReleaseBoth(b: nat, c: nat)
      requires Valid() && b < |buf| == NBUF && c < NBUF && b != c && buf[b].locked && buf[c].locked
      requires buf[b].blockno in dirty ==> buf[b].refcnt > 1
      requires buf[c].blockno in dirty ==> buf[c].refcnt > 1
      modifies this`buf, this`next, this`prev, this`order, this`refs
      ensures Valid()
      ensures refs == old(refs) - multiset{b, c}
      ensures OnlyTwo(old(buf), buf, b, c) && OnlyTwo(old(buf), buf, c, b)
    {
      hide Valid, MovedToFront, OnlyTwo, SameBlocks;
      ghost var buf0 := buf;
      Brelse(b);
      ghost var buf1 := buf;
      OneChanged(buf0, b, buf1[b], c);
      Brelse(c);
      OneChanged(buf1, c, buf[c], b);
      TwoChain(buf0, buf1, buf, b, c);
    }

    // Copy one held buffer to the disk block of another and release both.
    method CopyAndRelease(to: nat, from: nat)
      requires Valid() && to < |buf| == NBUF && from < NBUF && to != from
      requires buf[to].locked && buf[to].valid && buf[from].locked && buf[to].blockno != buf[from].blockno
      requires buf[from].blockno in dirty ==> buf[from].refcnt > 1
      modifies this
      ensures Valid() && refs == old(refs) - multiset{from, to} && pins == old(pins)
      ensures OnlyTwo(old(buf), buf, to, from) && OnlyTwo(old(buf), buf, from, to)
      ensures view == old(view)[old(buf)[to].blockno := old(buf)[from].data]
      ensures disk == old(disk)[old(buf)[to].blockno := old(buf)[from].data]
      ensures trace == old(trace) + [disk]
      ensures dirty == old(dirty) - {old(buf)[to].blockno}
    {
      hide Valid, SameBlocks, OnlyTwo;
      ghost var buf0 := buf;
      CopyAndWrite(to, from);
      ghost var buf1 := buf;
      ReleaseBoth(from, to);
      TwoChain(buf0, buf1, buf, to, from);
    }

    // Release both after the bunpin of the first, unless this is a recovery.
    method UnpinAndRelease(to: nat, from: nat, recovering: bool)
      requires Valid() && to < |buf| == NBUF && from < NBUF && to != from
      requires buf[to].locked && buf[from].locked && buf[from].blockno !in dirty && buf[to].blockno !in dirty
      requires !recovering ==> to in pins
      modifies this`buf, this`next, this`prev, this`order, this`refs, this`pins
      ensures Valid() && refs == old(refs) - multiset{from, to}
      ensures pins == if recovering then old(pins) else old(pins) - multiset{to}
      ensures OnlyTwo(old(buf), buf, to, from) && OnlyTwo(old(buf), buf, from, to)
    {
      hide Valid, SameBlocks, OnlyTwo;
      ghost var buf0 := buf;
      if recovering {
        ReleaseBoth(from, to);
      } else {
        Bunpin(to);
        ghost var buf1 := buf;
        OneChanged(buf0, to, buf1[to], from);
        ReleaseBoth(from, to);
        TwoChain(buf0, buf1, buf, to, from);
      }
    }

    // Copy one held buffer to the disk block of another, as install_trans does.
    method InstallAndRelease(to: nat, from: nat, recovering: bool)
      requires Valid() && to < |buf| == NBUF && from < NBUF && to != from
      requires buf[to].locked && buf[to].valid && buf[from].locked && buf[from].blockno !in dirty
      requires buf[to].blockno != buf[from].blockno && (!recovering ==> to in pins)
      modifies this
      ensures Valid() && refs == old(refs) - multiset{from, to}
      ensures OnlyTwo(old(buf), buf, to, from) && OnlyTwo(old(buf), buf, from, to)
      ensures pins == if recovering then old(pins) else old(pins) - multiset{to}
      ensures view == old(view)[old(buf)[to].blockno := old(buf)[from].data]
      ensures disk == old(disk)[old(buf)[to].blockno := old(buf)[from].data]
      ensures trace == old(trace) + [disk]
      ensures dirty == old(dirty) - {old(buf)[to].blockno}
    {
      hide Valid, SameBlocks, OnlyTwo;
      ghost var buf0 := buf;
      CopyAndWrite(to, from);
      ghost var buf1 := buf;
      UnpinAndRelease(to, from, recovering);
      TwoChain(buf0, buf1, buf, to, from);
    }

    // The two breads at the head of the loops of write_log and install_trans.
    method ReadPair(j: nat, k: nat) returns (ok: bool, b: nat, c: nat)
      requires Valid() && Unheld(buf, refs, j) && Unheld(buf, refs, k)
      requires j in disk && k in disk && j != k
      modifies `buf, `refs
      ensures Room(old(buf), k) ==> ok
      ensures NoBuffer(old(buf), j) ==> !ok
      ensures ok ==> Valid() && refs == old(refs) + multiset{b, c}
      ensures ok ==> PairRead(old(buf), buf, b, j, view[j], c, k, view[k])
    {
      hide Valid, Available, ReadIn, PairRead, Room, NoBuffer, Unheld, Crowded, Referring;
      Quiet(j);
      Quiet(k);
      RoomToRead(buf, j, k);
      ghost var buf0, v, w := buf, view[j], view[k];
      c := 0;
      ok, b := Bread(ROOTDEV, j);
      if !ok { return; }
      ghost var buf1 := buf;
      FirstRead(buf0, buf1, b, j, v, k);
      ok, c := Bread(ROOTDEV, k);
      if ok {
        BothRead(buf0, buf1, buf, b, j, v, c, k, w);
      }
    }

    // One iteration of write_log: the cached block src goes to log block dst.
    method WriteLogBlock(src: nat, dst: nat) returns (ok: bool)
      requires Valid() && Unheld(buf, refs, src) && Unheld(buf, refs, dst)
      requires src in disk && dst in disk && src != dst && PinnedBlock(buf, pins, src)
      modifies this
      ensures !Crowded(old(refs), old(pins)) ==> ok
      ensures NoBuffer(old(buf), dst) ==> !ok
      ensures ok ==> Valid() && refs == old(refs) && pins == old(pins)
      ensures ok ==> view == old(view)[dst := old(view)[src]]
      ensures ok ==> disk == old(disk)[dst := old(view)[src]]
      ensures ok ==> trace == old(trace) + [disk]
      ensures ok ==> dirty == old(dirty) - {dst}
      ensures ok ==> SamePinned(old(buf), buf, old(pins)) && SameHeld(old(buf), buf, old(refs))
    {
      hide Valid, Referring, SamePinned, SameHeld, SameBlocks, OnlyTwo, PairRead, Room, NoBuffer, PinnedBlock, Available, Unheld, Crowded;
      Quiet(src);
      ghost var buf0, v, w := buf, view[dst], view[src];
      var to, from;
      ok, to, from := ReadPair(dst, src);
      if !ok { return; }
      ghost var buf1 := buf;
      PairReadFacts(buf0, buf1, pins, to, dst, v, from, src, w);
      Returned(old(refs), to, from);
      CopyAndRelease(to, from);
      PairDone(buf0, buf1, buf, old(refs), old(pins), to, dst, v, from, src, w);
    }

    // One iteration of install_trans: log block src goes to its home block dst,
    // whose buffer is unpinned unless this is a recovery.
    method InstallBlock(src: nat, dst: nat, recovering: bool, ghost slot: nat) returns (ok: bool)
      requires Valid() && Unheld(buf, refs, src) && Unheld(buf, refs, dst)
      requires src in disk && dst in disk && src != dst && src !in dirty
      requires !recovering ==> slot in pins && slot < |buf| && Holds(buf[slot], ROOTDEV, dst)
      modifies this
      ensures (if recovering then |old(refs)| + |old(pins)| + 1 < NBUF else !Crowded(old(refs), old(pins))) ==> ok
      ensures ok ==> Valid() && refs == old(refs)
      ensures ok ==> pins == if recovering then old(pins) else old(pins) - multiset{slot}
      ensures ok ==> view == old(view)[dst := old(view)[src]]
      ensures ok ==> disk == old(disk)[dst := old(view)[src]]
      ensures ok ==> trace == old(trace) + [disk]
      ensures ok ==> dirty == old(dirty) - {dst}
      ensures ok ==> SamePinned(old(buf), buf, old(pins)) && SameHeld(old(buf), buf, old(refs))
    {
      hide Valid, Referring, SamePinned, SameHeld, SameBlocks, OnlyTwo, PairRead, Room, NoBuffer, Available, Unheld, Crowded;
      Quiet(dst);
      ghost var buf0, v, w := buf, view[src], view[dst];
      var lbuf, dbuf;
      ok, lbuf, dbuf := ReadPair(src, dst);
      if !ok { return; }
      ghost var buf1 := buf;
      PairReadFacts(buf0, buf1, pins, lbuf, src, v, dbuf, dst, w);
      Returned(old(refs), lbuf, dbuf);
      InstallAndRelease(dbuf, lbuf, recovering);
      PairDone(buf0, buf1, buf, old(refs), old(pins), lbuf, src, v, dbuf, dst, w);
    }

    // bread of a block that nobody holds.
    method ReadOne(k: nat) returns (ok: bool, b: nat)
      requires Valid() && Unheld(buf, refs, k) && k in disk
      modifies `buf, `refs
      ensures ok <==> !NoBuffer(old(buf), k)
      ensures !Crowded(old(refs), pins) ==> ok
      ensures Valid() && (!ok ==> buf == old(buf) && refs == old(refs))
      ensures ok ==> refs == old(refs) + multiset{b} && b !in old(refs)
      ensures ok ==> SamePinned(old(buf), buf, pins) && SameHeld(old(buf), buf, old(refs))
      ensures ok ==> b < |buf| == NBUF && buf[b] == Buf(ROOTDEV, k, true, old(buf)[b].refcnt + 1, true, view[k])
    {
      assert AllReferenced(buf) || !NoBuffer(buf, k);
      hide Valid, Referring, Available, ReadIn, NoBuffer, Room, AllReferenced, SamePinned, SameHeld, PinnedBlock, Unheld,
        Crowded;
      Quiet(k);
      ghost var buf0, v, refs0 := buf, view[k], refs;
      ok, b := Bread(ROOTDEV, k);
      if ok { OneRead(buf0, buf, refs0, pins, b, k, v); }
    }

    // brelse of a held buffer.
    method ReleaseOne(b: nat)
      requires Valid() && b < |buf| == NBUF && buf[b].locked
      requires buf[b].blockno in dirty ==> buf[b].refcnt > 1
      modifies `buf, `next, `prev, `order, `refs
      ensures Valid() && refs == old(refs) - multiset{b} && OnlyTwo(old(buf), buf, b, b)
    {
      hide Valid, Ring, Full, MovedToFront;
      Brelse(b);
    }

    // Store data into a buffer held, bwrite it and release it.
    method StoreOne(b: nat, data: Block)
      requires Valid() && b < |buf| == NBUF && buf[b].locked && buf[b].valid
      modifies this
      ensures Valid() && refs == old(refs) - multiset{b} && pins == old(pins) && OnlyTwo(old(buf), buf, b, b)
      ensures view == old(view)[old(buf)[b].blockno := data]
      ensures disk == old(disk)[old(buf)[b].blockno := data]
      ensures trace == old(trace) + [disk]
      ensures dirty == old(dirty) - {old(buf)[b].blockno}
    {
      hide Valid;
      ghost var buf0 := buf;
      Modify(b, data);
      Bwrite(b);
      ghost var buf1 := buf;
      assert OnlyTwo(buf0, buf1, b, b);
      hide SameBlocks, OnlyTwo;
      ReleaseOne(b);
      TwoChain(buf0, buf1, buf, b, b);
    }
  }
}
