/** Block allocation and file contents of kernel/fs.c, over the block map that
    the log and the buffer cache provide. */
module FileSystem {
  import opened Bits
  import opened FsBlocks
  import opened Inodes

  // Every data block of the inode still has its contents.
  ghost predicate DataKept(disk: Disk, addrs: seq<nat>, disk': Disk) {
    |addrs| == NDIRECT + 1 &&
    forall k :: 0 <= k < MAXFILE && Addr(disk, addrs, k) != 0 ==>
      Addr(disk, addrs, k) in disk && Addr(disk, addrs, k) in disk' && disk'[Addr(disk, addrs, k)] == disk[Addr(disk, addrs, k)]
  }

  lemma BlockInGroup(b: nat, bi: nat)
    requires b % BPB == 0 && bi < BPB
    ensures (b + bi) / BPB == b / BPB && ByteIndex(b + bi) == bi / 8 && BitIndex(b + bi) == bi % 8
  {
    assert (b + bi) % BPB == bi;
  }

  lemma UsedInGroup(disk: Disk, sb: Super, b: nat, bi: nat)
    requires b % BPB == 0 && bi < BPB && BBlock(sb, b) in disk
    ensures Used(disk, sb, b + bi) <==> Bit(disk[BBlock(sb, b)][bi / 8], bi % 8)
  {
    BlockInGroup(b, bi);
    hide Bit;
  }

  // Position bn of the file is block a now; all other positions and all data
  // are as before, and a new block is zeroed.
  ghost predicate Grew(disk0: Disk, addrs0: seq<nat>, disk: Disk, addrs: seq<nat>, bn: nat, a: nat) {
    && |addrs0| == NDIRECT + 1 && |addrs| == NDIRECT + 1 && bn < MAXFILE
    && Addr(disk, addrs, bn) == a
    && (forall k :: 0 <= k < MAXFILE && k != bn ==> Addr(disk, addrs, k) == Addr(disk0, addrs0, k))
    && DataKept(disk0, addrs0, disk)
    && (Addr(disk0, addrs0, bn) == 0 && a != 0 ==> a in disk && disk[a] == ZeroData())
    && (Addr(disk0, addrs0, bn) != 0 ==> a == Addr(disk0, addrs0, bn))
  }

  lemma GrewNothing(disk: Disk, sb: Super, addrs: seq<nat>, others: set<nat>, bn: nat)
    requires FsInv(disk, sb, addrs, others) && bn < MAXFILE
    ensures Grew(disk, addrs, disk, addrs, bn, Addr(disk, addrs, bn))
  {
    hide Used, Addr;
    SlotsOwned(disk, sb, addrs, others);
  }

  lemma SlotsOwned(disk: Disk, sb: Super, addrs: seq<nat>, others: set<nat>)
    requires FsInv(disk, sb, addrs, others)
    ensures forall k :: 0 <= k < MAXFILE && Addr(disk, addrs, k) != 0 ==>
      Addr(disk, addrs, k) in disk && Addr(disk, addrs, k) !in others
    ensures addrs[NDIRECT] != 0 ==> addrs[NDIRECT] in disk && addrs[NDIRECT] !in others
    ensures forall k :: 0 <= k < MAXFILE && Addr(disk, addrs, k) != 0 ==> Addr(disk, addrs, k) != addrs[NDIRECT]
  {
    hide Used, Addr;
    forall k | 0 <= k < MAXFILE && Addr(disk, addrs, k) != 0
      ensures Addr(disk, addrs, k) in disk && Addr(disk, addrs, k) !in others && Addr(disk, addrs, k) != addrs[NDIRECT]
    {
      assert Slot(disk, addrs, k) == Addr(disk, addrs, k);
      assert Slot(disk, addrs, MAXFILE) == addrs[NDIRECT];
    }
    assert Slot(disk, addrs, MAXFILE) == addrs[NDIRECT];
  }

  // balloc leaves the file alone.
  lemma AllocData(disk: Disk, sb: Super, addrs: seq<nat>, others: set<nat>, a: nat)
    requires FsInv(disk, sb, addrs, others) && a < sb.size && BBlock(sb, a) in disk && !Used(disk, sb, a)
    ensures DataKept(disk, addrs, Allocated(disk, sb, a)) && a in disk && Allocated(disk, sb, a)[a] == ZeroData()
    ensures forall k :: 0 <= k < MAXFILE ==> Addr(Allocated(disk, sb, a), addrs, k) == Addr(disk, addrs, k)
  {
    hide Used, BBlock, Allocated, Addr, FsInv, Word;
    AllocBasics(disk, sb, addrs, others, a);
    AllocatedElsewhere(disk, sb, a);
    AllocKeeps(disk, sb, addrs, others, a);
    SlotsOwned(disk, sb, addrs, others);
    forall k | 0 <= k < MAXFILE
      ensures Addr(Allocated(disk, sb, a), addrs, k) == Addr(disk, addrs, k) && Addr(disk, addrs, k) != a
    {
      assert Slot(Allocated(disk, sb, a), addrs, k) == Slot(disk, addrs, k);
    }
  }

  // The new block becomes direct block bn.
  lemma GrewDirect(disk: Disk, sb: Super, addrs: seq<nat>, others: set<nat>, bn: nat, a: nat)
    requires FsInv(disk, sb, addrs, others) && a < sb.size && BBlock(sb, a) in disk && !Used(disk, sb, a)
    requires bn < NDIRECT && addrs[bn] == 0
    ensures FsInv(Allocated(disk, sb, a), sb, addrs[bn := a], others)
    ensures Grew(disk, addrs, Allocated(disk, sb, a), addrs[bn := a], bn, a)
    ensures Extends(disk, addrs, Allocated(disk, sb, a), addrs[bn := a], sb, bn, bn + 1)
  {
    AllocKeeps(disk, sb, addrs, others, a);
    AllocData(disk, sb, addrs, others, a);
    hide Used, BBlock, Allocated, FsInv, Word;
    var disk' := Allocated(disk, sb, a);
    UnreferencedStays(disk, addrs, disk', a);
    DirectSet(disk', sb, addrs, others, bn, a);
    NewDirect(disk, sb, addrs, others, bn, a);
    forall k | 0 <= k < MAXFILE && k != bn ensures Addr(disk', addrs[bn := a], k) == Addr(disk, addrs, k) {
      assert Slot(disk', addrs[bn := a], k) == Slot(disk', addrs, k);
    }
  }

  // After balloc of a and a change of references in disk', in which the bitmap
  // is as balloc has left it.
  lemma NewReference(disk: Disk, sb: Super, addrs: seq<nat>, others: set<nat>, disk': Disk, addrs': seq<nat>, k0: nat, a: nat, bn: nat)
    requires FsInv(disk, sb, addrs, others) && a < sb.size && BBlock(sb, a) in disk && !Used(disk, sb, a)
    requires OneSlot(Allocated(disk, sb, a), addrs, disk', addrs', k0, a) && SameSlots(disk, addrs, Allocated(disk, sb, a), addrs)
    requires Slot(disk, addrs, k0) == 0 && (k0 == MAXFILE || k0 == bn)
    requires forall b: nat :: b < sb.size && Used(disk', sb, b) ==> Used(Allocated(disk, sb, a), sb, b)
    ensures Extends(disk, addrs, disk', addrs', sb, bn, bn + 1)
  {
    hide Used, BBlock, Allocated, Slot, Refs;
    OneSlotAfter(disk, Allocated(disk, sb, a), addrs, disk', addrs', k0, a);
    forall b: nat | b < sb.size && Used(disk', sb, b) ensures b == a || Used(disk, sb, b) {
      AllocatedUse(disk, sb, others, a, b);
    }
    ExtendsBySlot(disk, addrs, disk', addrs', sb, k0, a, bn, bn + 1);
  }

  lemma NewDirect(disk: Disk, sb: Super, addrs: seq<nat>, others: set<nat>, bn: nat, a: nat)
    requires FsInv(disk, sb, addrs, others) && a < sb.size && BBlock(sb, a) in disk && !Used(disk, sb, a)
    requires bn < NDIRECT && addrs[bn] == 0 && SameSlots(disk, addrs, Allocated(disk, sb, a), addrs)
    requires OneSlot(Allocated(disk, sb, a), addrs, Allocated(disk, sb, a), addrs[bn := a], bn, a)
    ensures Extends(disk, addrs, Allocated(disk, sb, a), addrs[bn := a], sb, bn, bn + 1)
  {
    DirectIsAddr(disk, addrs, bn);
    SlotIsAddr(disk, addrs);
    hide Used, BBlock, Allocated, Slot, FsInv, OneSlot, SameSlots, Extends;
    NewReference(disk, sb, addrs, others, Allocated(disk, sb, a), addrs[bn := a], bn, a, bn);
  }

  // Filling in an entry of the indirect block leaves the bitmap alone.
  lemma SameUseAfter(disk1: Disk, disk': Disk, sb: Super, addrs: seq<nat>, others: set<nat>, a: nat, j: nat)
    requires FsInv(disk1, sb, addrs, others) && addrs[NDIRECT] != 0 && addrs[NDIRECT] in disk1 && j < NINDIRECT && a < TWO32
    requires disk' == disk1[addrs[NDIRECT] := PutWord(disk1[addrs[NDIRECT]], j, a)]
    ensures forall b: nat :: b < sb.size && Used(disk', sb, b) ==> Used(disk1, sb, b)
  {
    hide Used, PutWord, FsInv;
    BlockBound(disk1, sb, addrs, others);
    EntryPutImage(disk1, sb, addrs, others, PutWord(disk1[addrs[NDIRECT]], j, a));
  }

  lemma UnreferencedStays(disk: Disk, addrs: seq<nat>, disk': Disk, a: nat)
    requires Unreferenced(disk, addrs, a) && SameSlots(disk, addrs, disk', addrs)
    ensures Unreferenced(disk', addrs, a)
  {
    hide Slot;
  }

  lemma SlotIsAddr(disk: Disk, addrs: seq<nat>)
    requires |addrs| == NDIRECT + 1
    ensures forall k :: 0 <= k < MAXFILE ==> Slot(disk, addrs, k) == Addr(disk, addrs, k)
  {
    hide Addr;
  }

  // A change of references by itself: the data stays where it is.
  lemma GrewBySlot(disk: Disk, sb: Super, addrs: seq<nat>, others: set<nat>, disk': Disk, addrs': seq<nat>, bn: nat, a: nat)
    requires FsInv(disk, sb, addrs, others) && OneSlot(disk, addrs, disk', addrs', bn, a) && bn < MAXFILE
    requires Addr(disk, addrs, bn) == 0 && a in disk' && disk'[a] == ZeroData()
    requires disk'.Keys == disk.Keys && forall b :: b in disk && b != addrs[NDIRECT] ==> disk'[b] == disk[b]
    ensures Grew(disk, addrs, disk', addrs', bn, a)
  {
    hide Addr, Slot, FsInv;
    SlotIsAddr(disk, addrs);
    SlotIsAddr(disk', addrs');
    SlotsOwned(disk, sb, addrs, others);
  }

  // First balloc, then the change of references.
  lemma GrewAfterAlloc(disk: Disk, addrs: seq<nat>, disk1: Disk, disk': Disk, addrs': seq<nat>, bn: nat, a: nat)
    requires DataKept(disk, addrs, disk1) && Grew(disk1, addrs, disk', addrs', bn, a) && bn < MAXFILE
    requires forall k :: 0 <= k < MAXFILE ==> Addr(disk1, addrs, k) == Addr(disk, addrs, k)
    ensures Grew(disk, addrs, disk', addrs', bn, a)
  {
    hide Addr;
  }

  // The new block becomes the indirect block.
  lemma GrewIndirect(disk: Disk, sb: Super, addrs: seq<nat>, others: set<nat>, bn: nat, a: nat)
    requires FsInv(disk, sb, addrs, others) && a < sb.size && BBlock(sb, a) in disk && !Used(disk, sb, a)
    requires NDIRECT <= bn < MAXFILE && addrs[NDIRECT] == 0
    ensures FsInv(Allocated(disk, sb, a), sb, addrs[NDIRECT := a], others)
    ensures Grew(disk, addrs, Allocated(disk, sb, a), addrs[NDIRECT := a], bn, 0)
    ensures Extends(disk, addrs, Allocated(disk, sb, a), addrs[NDIRECT := a], sb, bn, bn + 1)
  {
    assert Addr(disk, addrs, bn) == 0;
    hide Used, BBlock, Allocated, FsInv, Word, Addr, Slot;
    AllocKeeps(disk, sb, addrs, others, a);
    AllocData(disk, sb, addrs, others, a);
    var disk' := Allocated(disk, sb, a);
    UnreferencedStays(disk, addrs, disk', a);
    IndirectSet(disk', sb, addrs, others, a);
    LastIsZero(disk, addrs);
    NewReference(disk, sb, addrs, others, disk', addrs[NDIRECT := a], MAXFILE, a, bn);
    SlotIsAddr(disk', addrs);
    SlotIsAddr(disk', addrs[NDIRECT := a]);
  }

  // The new block becomes entry j of the indirect block.
  lemma GrewEntry(disk: Disk, sb: Super, addrs: seq<nat>, others: set<nat>, j: nat, a: nat)
    requires FsInv(disk, sb, addrs, others) && a < sb.size && BBlock(sb, a) in disk && !Used(disk, sb, a)
    requires j < NINDIRECT && addrs[NDIRECT] != 0 && addrs[NDIRECT] in disk && Word(disk[addrs[NDIRECT]], j) == 0
    ensures a < TWO32 && addrs[NDIRECT] in Allocated(disk, sb, a)
    ensures Allocated(disk, sb, a)[addrs[NDIRECT]] == disk[addrs[NDIRECT]]
    ensures var disk' := Allocated(disk, sb, a)[addrs[NDIRECT] := PutWord(disk[addrs[NDIRECT]], j, a)];
      && FsInv(disk', sb, addrs, others) && Grew(disk, addrs, disk', addrs, NDIRECT + j, a)
      && Extends(disk, addrs, disk', addrs, sb, NDIRECT + j, NDIRECT + j + 1)
  {
    hide Used, BBlock, Allocated, FsInv, PutWord, Word, Addr, Slot, OwnedBlock, Unreferenced, SameSlots, OneSlot, Grew, DataKept,
      Extends;
    BlockBound(disk, sb, addrs, others);
    EntryIsAddr(disk, addrs, j);
    var ind := addrs[NDIRECT];
    AllocKeeps(disk, sb, addrs, others, a);
    AllocData(disk, sb, addrs, others, a);
    AllocBasics(disk, sb, addrs, others, a);
    AllocatedElsewhere(disk, sb, a);
    var disk1 := Allocated(disk, sb, a);
    UnreferencedStays(disk, addrs, disk1, a);
    EntryPut(disk1, sb, addrs, others, j, a);
    var disk' := disk1[ind := PutWord(disk[ind], j, a)];
    GrewBySlot(disk1, sb, addrs, others, disk', addrs, NDIRECT + j, a);
    GrewAfterAlloc(disk, addrs, disk1, disk', addrs, NDIRECT + j, a);
    EntrySlotZero(disk, addrs, j);
    SameUseAfter(disk1, disk', sb, addrs, others, a, j);
    NewReference(disk, sb, addrs, others, disk', addrs, NDIRECT + j, a, NDIRECT + j);
  }

  lemma EntrySlotZero(disk: Disk, addrs: seq<nat>, j: nat)
    requires |addrs| == NDIRECT + 1 && j < NINDIRECT && addrs[NDIRECT] != 0 && addrs[NDIRECT] in disk
    requires Word(disk[addrs[NDIRECT]], j) == 0
    ensures Slot(disk, addrs, NDIRECT + j) == 0
  {
    hide Word;
  }

  lemma LastIsZero(disk: Disk, addrs: seq<nat>)
    requires |addrs| == NDIRECT + 1 && addrs[NDIRECT] == 0
    ensures Slot(disk, addrs, MAXFILE) == 0
  {
  }

  lemma EntryIsAddr(disk: Disk, addrs: seq<nat>, j: nat)
    requires |addrs| == NDIRECT + 1 && j < NINDIRECT && addrs[NDIRECT] != 0 && addrs[NDIRECT] in disk
    ensures Addr(disk, addrs, NDIRECT + j) == Word(disk[addrs[NDIRECT]], j)
  {
    hide Word;
  }

  lemma NothingNew(disk: Disk, addrs: seq<nat>, sb: Super, logged: set<nat>, bn: nat)
    requires |addrs| == NDIRECT + 1
    ensures Extends(disk, addrs, disk, addrs, sb, bn, bn + 1) && Logs(disk, logged, disk, logged)
  {
    hide Extends;
    ExtendsNothing(disk, addrs, sb, bn, bn + 1);
  }

  lemma AllocatedLogs(disk: Disk, sb: Super, addrs: seq<nat>, others: set<nat>, a: nat, l: set<nat>)
    requires FsInv(disk, sb, addrs, others) && a < sb.size && BBlock(sb, a) in disk && !Used(disk, sb, a)
    ensures Logs(disk, l, Allocated(disk, sb, a), l + {BBlock(sb, a), a})
    ensures Confined(disk, l, Allocated(disk, sb, a), l + {BBlock(sb, a), a}, sb, others)
  {
    hide Logs, FsInv, Used, BBlock, Allocated, Confined;
    AllocBasics(disk, sb, addrs, others, a);
    AllocLogs(disk, sb, a, l);
    ConfinedAlloc(disk, sb, others, a, l);
  }

  lemma BlockBound(disk: Disk, sb: Super, addrs: seq<nat>, others: set<nat>)
    requires FsInv(disk, sb, addrs, others)
    ensures sb.size < TWO32 && |addrs| == NDIRECT + 1
  {
  }

  ghost function NonZero(a: nat): set<nat> {
    if a == 0 then {} else {a}
  }

  class Fs {
    const sb: Super
    ghost const others: set<nat>
    var disk: Disk
    // The inode: block references and size.
    var addrs: seq<nat>
    var size: nat
    // Blocks passed to log_write so far in this operation.
    ghost var logged: set<nat>

    ghost predicate Valid()
      reads this
    {
      FsInv(disk, sb, addrs, others)
    }

    constructor (s: Super, d: Disk, a: seq<nat>, n: nat, ghost meta: set<nat>)
      requires FsInv(d, s, a, meta)
      ensures Valid() && sb == s && disk == d && addrs == a && size == n && others == meta && logged == {}
    {
      hide FsInv;
      sb, disk, addrs, size := s, d, a, n;
      others, logged := meta, {};
    }

    // The inner loop of balloc: the first block of the group of b whose bit is
    // clear, or none.
    method FindFree(b: nat) returns (bi: nat)
      requires Image(disk, sb, others) && b % BPB == 0 && b < sb.size
      ensures bi <= BPB && forall c :: b <= c < b + bi && c < sb.size ==> Used(disk, sb, c)
      ensures bi < BPB && b + bi < sb.size ==> !Used(disk, sb, b + bi)
      ensures bi == BPB || b + bi < sb.size || b + bi == sb.size
    {
      hide Bit, Used, BBlock;
      var data := disk[BBlock(sb, b)];
      bi := 0;
      while bi < BPB && b + bi < sb.size
        invariant 0 <= bi <= BPB && b + bi <= sb.size
        invariant forall c :: b <= c < b + bi ==> Used(disk, sb, c)
      {
        UsedInGroup(disk, sb, b, bi);
        if !Bit(data[bi / 8], bi % 8) {
          return;
        }
        bi := bi + 1;
      }
    }

    // balloc: the first unused block, marked and zeroed; 0 if there is none.
    method Balloc() returns (a: nat)
      requires Valid()
      modifies this`disk, this`logged
      ensures a == 0 ==> disk == old(disk) && logged == old(logged) && forall b :: 0 <= b < sb.size ==> Used(disk, sb, b)
      ensures a != 0 ==> a < sb.size && BBlock(sb, a) in old(disk) && !Used(old(disk), sb, a)
      ensures a != 0 ==> forall b :: 0 <= b < a ==> Used(old(disk), sb, b)
      ensures a != 0 ==> disk == Allocated(old(disk), sb, a) && logged == old(logged) + {BBlock(sb, a), a}
    {
      hide Used, Refs, Bit, Pow2;
      var b := 0;
      while b < sb.size
        invariant b % BPB == 0
        invariant disk == old(disk) && logged == old(logged)
        invariant forall c :: 0 <= c < b && c < sb.size ==> Used(disk, sb, c)
      {
        var bi := FindFree(b);
        if bi < BPB && b + bi < sb.size {
          a := b + bi;
          Mark(a);
          // bzero
          disk := disk[a := ZeroData()];
          logged := logged + {a};
          return;
        }
        b := b + BPB;
      }
      a := 0;
    }

    // Setting the bit of a free block, and log_write of the bitmap block.
    method Mark(b: nat)
      requires BBlock(sb, b) in disk && !Used(disk, sb, b)
      modifies this`disk, this`logged
      ensures disk == Marked(old(disk), sb, b) && logged == old(logged) + {BBlock(sb, b)}
    {
      var data := disk[BBlock(sb, b)];
      var bi := b % BPB;
      Pow2Of8();
      SetBitFits(data[bi / 8], bi % 8, 8);
      data := data[bi / 8 := data[bi / 8] + Pow2(bi % 8)];
      disk := disk[BBlock(sb, b) := data];
      logged := logged + {BBlock(sb, b)};
    }

    // bfree; a block whose bit is clear would panic.
    method Bfree(b: nat)
      requires Used(disk, sb, b)
      modifies this`disk, this`logged
      ensures disk == Unmarked(old(disk), sb, b) && logged == old(logged) + {BBlock(sb, b)}
    {
      var data := disk[BBlock(sb, b)];
      var bi := b % BPB;
      ClearOneBit(data[bi / 8], bi % 8, 0);
      data := data[bi / 8 := data[bi / 8] - Pow2(bi % 8)];
      disk := disk[BBlock(sb, b) := data];
      logged := logged + {BBlock(sb, b)};
    }

    // bmap: the block for position bn, allocating it and the indirect block if
    // needed; 0 if the disk is full. bits are the bitmap blocks it logged.
    method Bmap(bn: nat) returns (a: nat, ghost bits: set<nat>)
      requires Valid() && bn < MAXFILE
      modifies this`disk, this`addrs, this`logged
      ensures Valid() && Grew(old(disk), old(addrs), disk, addrs, bn, a)
      ensures a == 0 ==> forall b :: 0 <= b < sb.size ==> Used(disk, sb, b)
      ensures Addr(old(disk), old(addrs), bn) != 0 ==> disk == old(disk) && addrs == old(addrs) && logged == old(logged)
      ensures logged <= old(logged) + bits + NonZero(a) + NonZero(addrs[NDIRECT]) && |bits| <= Allocs(old(disk), old(addrs), addrs, bn)
      ensures OnBitmap(bits, sb) && Confined(old(disk), old(logged), disk, logged, sb, others)
      ensures Extends(old(disk), old(addrs), disk, addrs, sb, bn, bn + 1) && Logs(old(disk), old(logged), disk, logged)
      ensures bn < NDIRECT || old(addrs)[NDIRECT] != 0 ==> addrs[NDIRECT] == old(addrs)[NDIRECT]
    {
      hide Used, BBlock, Allocated, FsInv, PutWord, Word, Slot, Grew, DataKept, Addr, Extends, Logs, Confined;
      BlockBound(disk, sb, addrs, others);
      NothingNew(disk, addrs, sb, logged, bn);
      ConfinedNothing(disk, logged, sb, others);
      GrewNothing(disk, sb, addrs, others, bn);
      bits := {};
      if bn < NDIRECT {
        DirectIsAddr(disk, addrs, bn);
        a := addrs[bn];
        if a == 0 {
          a := Balloc();
          if a == 0 { return; }
          bits := {BBlock(sb, a)};
          AllocatedLogs(old(disk), sb, addrs, others, a, old(logged));
          GrewDirect(old(disk), sb, addrs, others, bn, a);
          addrs := addrs[bn := a];
        }
      } else {
        a, bits := BmapIndirect(bn);
      }
    }

    method BmapIndirect(bn: nat) returns (a: nat, ghost bits: set<nat>)
      requires Valid() && NDIRECT <= bn < MAXFILE
      modifies this`disk, this`addrs, this`logged
      ensures Valid() && Grew(old(disk), old(addrs), disk, addrs, bn, a)
      ensures a == 0 ==> forall b :: 0 <= b < sb.size ==> Used(disk, sb, b)
      ensures Addr(old(disk), old(addrs), bn) != 0 ==> disk == old(disk) && addrs == old(addrs) && logged == old(logged)
      ensures logged <= old(logged) + bits + NonZero(a) + NonZero(addrs[NDIRECT]) && |bits| <= Allocs(old(disk), old(addrs), addrs, bn)
      ensures OnBitmap(bits, sb) && Confined(old(disk), old(logged), disk, logged, sb, others)
      ensures Extends(old(disk), old(addrs), disk, addrs, sb, bn, bn + 1) && Logs(old(disk), old(logged), disk, logged)
      ensures old(addrs)[NDIRECT] != 0 ==> addrs[NDIRECT] == old(addrs)[NDIRECT]
    {
      hide Used, BBlock, Allocated, FsInv, PutWord, Word, Slot, Grew, DataKept, Addr, Extends, Logs, Confined;
      BlockBound(disk, sb, addrs, others);
      NothingNew(disk, addrs, sb, logged, bn);
      ConfinedNothing(disk, logged, sb, others);
      GrewNothing(disk, sb, addrs, others, bn);
      NoIndirect(disk, addrs, bn);
      bits := {};
      a := addrs[NDIRECT];
      if a == 0 {
        a := Balloc();
        if a == 0 { return; }
        bits := {BBlock(sb, a)};
        AllocatedLogs(old(disk), sb, addrs, others, a, old(logged));
        GrewIndirect(old(disk), sb, addrs, others, bn, a);
        addrs := addrs[NDIRECT := a];
      }
      ghost var disk1, addrs1, logged1 := disk, addrs, logged;
      SlotsOwned(disk, sb, addrs, others);
      EntryIsAddr(disk, addrs, bn - NDIRECT);
      ghost var more;
      a, more := FillEntry(a, bn - NDIRECT);
      OnBitmapJoined(bits, more, sb);
      bits := bits + more;
      LogsChain(old(disk), old(logged), disk1, logged1, disk, logged);
      ConfinedChain(old(disk), old(logged), disk1, logged1, disk, logged, sb, others);
      ExtendsChain(old(disk), old(addrs), disk1, addrs1, disk, addrs, sb, bn, bn + 1, bn, bn + 1);
      if old(addrs)[NDIRECT] == 0 { GrewTwice(old(disk), old(addrs), disk1, addrs1, disk, addrs, bn, a); }
    }

    // The second half of bmap: the entry of the indirect block.
    method FillEntry(ind: nat, j: nat) returns (a: nat, ghost bits: set<nat>)
      requires Valid() && j < NINDIRECT && addrs[NDIRECT] == ind && ind != 0 && ind in disk && ind !in others
      modifies this`disk, this`logged
      ensures Valid() && Grew(old(disk), addrs, disk, addrs, NDIRECT + j, a)
      ensures a == 0 ==> forall b :: 0 <= b < sb.size ==> Used(disk, sb, b)
      ensures Word(old(disk)[ind], j) != 0 ==> disk == old(disk) && logged == old(logged) && bits == {}
      ensures logged <= old(logged) + bits + NonZero(a) + {ind} && |bits| <= 1 && OnBitmap(bits, sb)
      ensures Confined(old(disk), old(logged), disk, logged, sb, others)
      ensures Extends(old(disk), addrs, disk, addrs, sb, NDIRECT + j, NDIRECT + j + 1) && Logs(old(disk), old(logged), disk, logged)
    {
      hide Used, BBlock, Allocated, FsInv, PutWord, Word, Slot, Grew, DataKept, Addr, Extends, Logs, Confined;
      BlockBound(disk, sb, addrs, others);
      NothingNew(disk, addrs, sb, logged, NDIRECT + j);
      ConfinedNothing(disk, logged, sb, others);
      GrewNothing(disk, sb, addrs, others, NDIRECT + j);
      EntryIsAddr(disk, addrs, j);
      bits := {};
      a := Word(disk[ind], j);
      if a == 0 {
        a := Balloc();
        if a != 0 {
          bits := {BBlock(sb, a)};
          AllocatedLogs(old(disk), sb, addrs, others, a, old(logged));
          GrewEntry(old(disk), sb, addrs, others, j, a);
          LogsPut(disk, logged, ind, PutWord(disk[ind], j, a));
          ConfinedPut(disk, logged, ind, PutWord(disk[ind], j, a), sb, others);
          ConfinedChain(old(disk), old(logged), disk, logged, disk[ind := PutWord(disk[ind], j, a)], logged + {ind}, sb, others);
          LogsChain(old(disk), old(logged), disk, logged, disk[ind := PutWord(disk[ind], j, a)], logged + {ind});
          disk := disk[ind := PutWord(disk[ind], j, a)];
          logged := logged + {ind};
        }
      }
    }
  }

  // How many blocks bmap allocated for position bn, at most.
  ghost function Allocs(disk0: Disk, addrs0: seq<nat>, addrs: seq<nat>, bn: nat): nat
    requires |addrs0| == NDIRECT + 1 && |addrs| == NDIRECT + 1 && bn < MAXFILE
  {
    (if Addr(disk0, addrs0, bn) == 0 then 1 else 0) + NewIndirect(addrs0[NDIRECT], addrs)
  }

  ghost function NewIndirect(ind0: nat, addrs: seq<nat>): nat
    requires |addrs| == NDIRECT + 1
  {
    if ind0 == 0 && addrs[NDIRECT] != 0 then 1 else 0
  }

  lemma DirectIsAddr(disk: Disk, addrs: seq<nat>, bn: nat)
    requires |addrs| == NDIRECT + 1 && bn < NDIRECT
    ensures Addr(disk, addrs, bn) == addrs[bn]
  {
  }

  lemma NoIndirect(disk: Disk, addrs: seq<nat>, bn: nat)
    requires |addrs| == NDIRECT + 1 && NDIRECT <= bn < MAXFILE
    ensures addrs[NDIRECT] == 0 ==> Addr(disk, addrs, bn) == 0
  {
  }

  lemma GrewTwice(disk0: Disk, addrs0: seq<nat>, disk1: Disk, addrs1: seq<nat>, disk: Disk, addrs: seq<nat>, bn: nat, a: nat)
    requires Grew(disk0, addrs0, disk1, addrs1, bn, 0) && Grew(disk1, addrs1, disk, addrs, bn, a)
    ensures Grew(disk0, addrs0, disk, addrs, bn, a)
  {
    hide Addr;
  }
}
