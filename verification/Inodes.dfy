/** Inodes of kernel/fs.c: which blocks an inode refers to, which blocks the
    bitmap says are in use, and the bytes of a file. */
module Inodes {
  import opened Bits
  import opened FsBlocks

  datatype Super = Super(size: nat, bmapstart: nat)

  // ---------- the bitmap ----------

  function BBlock(sb: Super, b: nat): nat {
    b / BPB + sb.bmapstart
  }

  function ByteIndex(b: nat): (i: nat)
    ensures i < BSIZE
  {
    b % BPB / 8
  }

  function BitIndex(b: nat): (k: nat)
    ensures k < 8
  {
    b % BPB % 8
  }

  // Block b is marked as in use.
  ghost predicate Used(disk: Disk, sb: Super, b: nat) {
    BBlock(sb, b) in disk && Bit(disk[BBlock(sb, b)][ByteIndex(b)], BitIndex(b))
  }

  // The bitmap is an array of bits from the block bmapstart on, eight to a
  // byte and the lowest first: bit b tells about block b.
  lemma UsedBit(disk: Disk, sb: Super, b: nat)
    ensures Used(disk, sb, b) <==>
      var bb := sb.bmapstart + b / 8192; bb in disk && Bit(disk[bb][b / 8 % 1024], b % 8)
  {
    hide Bit;
    PlaceOfBit(b);
  }

  lemma PlaceOfBit(b: nat)
    ensures ByteIndex(b) == b / 8 % 1024 && BitIndex(b) == b % 8
  {
    var q, r := b / 8192, b % 8192;
    assert b == 8192 * q + r;
    assert b / 8 == 1024 * q + r / 8;
    assert b % 8 == r % 8;
  }

  ghost predicate BitmapBlock(sb: Super, b: nat) {
    exists c: nat :: c < sb.size && BBlock(sb, c) == b
  }

  ghost predicate OnBitmap(bits: set<nat>, sb: Super) {
    forall b :: b in bits ==> BitmapBlock(sb, b)
  }

  lemma OnBitmapJoined(bits: set<nat>, more: set<nat>, sb: Super)
    requires OnBitmap(bits, sb) && OnBitmap(more, sb)
    ensures OnBitmap(bits + more, sb)
  {
    hide BitmapBlock;
  }

  // A disk of at most BPB blocks has one bitmap block.
  lemma OneBitmapBlock(bits: set<nat>, sb: Super)
    requires OnBitmap(bits, sb) && sb.size <= BPB
    ensures |bits| <= 1
  {
    forall b | b in bits ensures b == sb.bmapstart {
      assert BitmapBlock(sb, b);
    }
    if bits != {} {
      var b :| b in bits;
      assert bits == {b};
    }
  }

  lemma Pow2Of8()
    ensures Pow2(8) == 256
  {
    assert Pow2(4) == 16;
    assert Pow2(6) == 64;
  }

  ghost function Marked(disk: Disk, sb: Super, b: nat): (r: Disk)
    requires BBlock(sb, b) in disk && !Used(disk, sb, b)
  {
    var d := disk[BBlock(sb, b)];
    Pow2Of8();
    SetBitFits(d[ByteIndex(b)], BitIndex(b), 8);
    disk[BBlock(sb, b) := d[ByteIndex(b) := d[ByteIndex(b)] + Pow2(BitIndex(b))]]
  }

  ghost function Unmarked(disk: Disk, sb: Super, b: nat): (r: Disk)
    requires Used(disk, sb, b)
  {
    var d := disk[BBlock(sb, b)];
    ClearOneBit(d[ByteIndex(b)], BitIndex(b), 0);
    disk[BBlock(sb, b) := d[ByteIndex(b) := d[ByteIndex(b)] - Pow2(BitIndex(b))]]
  }

  lemma SameBit(b: nat, c: nat)
    requires b / BPB == c / BPB && ByteIndex(b) == ByteIndex(c) && BitIndex(b) == BitIndex(c)
    ensures b == c
  {
    assert b % BPB == 8 * (b % BPB / 8) + b % BPB % 8;
    assert c % BPB == 8 * (c % BPB / 8) + c % BPB % 8;
  }

  lemma MarkedUsed(disk: Disk, sb: Super, b: nat, c: nat)
    requires BBlock(sb, b) in disk && !Used(disk, sb, b)
    ensures Used(Marked(disk, sb, b), sb, c) <==> c == b || Used(disk, sb, c)
  {
    hide Bit, Pow2, BBlock, ByteIndex, BitIndex;
    var d := disk[BBlock(sb, b)];
    SetOneBit(d[ByteIndex(b)], BitIndex(b), BitIndex(c));
    MarkedOther(disk, sb, b, c);
  }

  lemma MarkedOther(disk: Disk, sb: Super, b: nat, c: nat)
    ensures c != b && BBlock(sb, c) == BBlock(sb, b) && ByteIndex(c) == ByteIndex(b) ==> BitIndex(c) != BitIndex(b)
  {
    if c != b && BBlock(sb, c) == BBlock(sb, b) && ByteIndex(c) == ByteIndex(b) && BitIndex(c) == BitIndex(b) {
      SameBit(b, c);
    }
  }

  lemma UnmarkedUsed(disk: Disk, sb: Super, b: nat, c: nat)
    requires Used(disk, sb, b)
    ensures Used(Unmarked(disk, sb, b), sb, c) <==> c != b && Used(disk, sb, c)
  {
    hide Bit, Pow2, BBlock, ByteIndex, BitIndex;
    var d := disk[BBlock(sb, b)];
    ClearOneBit(d[ByteIndex(b)], BitIndex(b), BitIndex(c));
    MarkedOther(disk, sb, b, c);
  }

  // balloc of block b: its bit is set and it is zeroed.
  ghost function Allocated(disk: Disk, sb: Super, b: nat): (r: Disk)
    requires BBlock(sb, b) in disk && !Used(disk, sb, b)
  {
    Marked(disk, sb, b)[b := ZeroData()]
  }

  // ---------- the blocks of an inode ----------

  // The block for position bn of a file: 0 if there is none.
  ghost function Addr(disk: Disk, addrs: seq<nat>, bn: nat): (a: nat)
    requires |addrs| == NDIRECT + 1 && bn < MAXFILE
  {
    if bn < NDIRECT then addrs[bn]
    else if addrs[NDIRECT] == 0 || addrs[NDIRECT] !in disk then 0
    else Word(disk[addrs[NDIRECT]], bn - NDIRECT)
  }

  // All references of an inode: its 268 positions and the indirect block.
  ghost function Slot(disk: Disk, addrs: seq<nat>, k: nat): (a: nat)
    requires |addrs| == NDIRECT + 1 && k <= MAXFILE
  {
    if k == MAXFILE then addrs[NDIRECT] else Addr(disk, addrs, k)
  }

  // The disk holds all blocks, and the bitmap is among those that no file may
  // use: blocks in others are in use by the boot block, the superblock, the
  // log, the inodes, the bitmap and other files.
  ghost predicate Image(disk: Disk, sb: Super, others: set<nat>) {
    && sb.size < TWO32
    && (forall b :: 0 <= b < sb.size ==> b in disk && BBlock(sb, b) in others)
    && 0 in others
    && (forall b :: b in others ==> b < sb.size && Used(disk, sb, b))
  }

  // Every block the inode refers to is in use, by it alone and in one place.
  ghost predicate Refs(disk: Disk, sb: Super, addrs: seq<nat>, others: set<nat>) {
    && |addrs| == NDIRECT + 1
    && (forall k :: 0 <= k <= MAXFILE && Slot(disk, addrs, k) != 0 ==> OwnedBlock(disk, sb, others, Slot(disk, addrs, k)))
    && (forall k, l :: 0 <= k < l <= MAXFILE && Slot(disk, addrs, k) != 0 ==> Slot(disk, addrs, k) != Slot(disk, addrs, l))
  }

  ghost predicate OwnedBlock(disk: Disk, sb: Super, others: set<nat>, a: nat) {
    a < sb.size && Used(disk, sb, a) && a !in others
  }

  ghost predicate FsInv(disk: Disk, sb: Super, addrs: seq<nat>, others: set<nat>) {
    Image(disk, sb, others) && Refs(disk, sb, addrs, others)
  }

  // ---------- what the primitive updates do ----------

  // No reference of the inode is block a.
  ghost predicate Unreferenced(disk: Disk, addrs: seq<nat>, a: nat) {
    |addrs| == NDIRECT + 1 && forall k :: 0 <= k <= MAXFILE ==> Slot(disk, addrs, k) != a
  }

  ghost predicate SameSlots(disk: Disk, addrs: seq<nat>, disk': Disk, addrs': seq<nat>) {
    |addrs| == NDIRECT + 1 && |addrs'| == NDIRECT + 1 &&
    forall k :: 0 <= k <= MAXFILE ==> Slot(disk', addrs', k) == Slot(disk, addrs, k)
  }

  // Reference k0 has become a, all others are as before.
  ghost predicate OneSlot(disk: Disk, addrs: seq<nat>, disk': Disk, addrs': seq<nat>, k0: nat, a: nat) {
    |addrs| == NDIRECT + 1 && |addrs'| == NDIRECT + 1 && k0 <= MAXFILE && Slot(disk', addrs', k0) == a &&
    forall k :: 0 <= k <= MAXFILE && k != k0 ==> Slot(disk', addrs', k) == Slot(disk, addrs, k)
  }

  // Every block that has changed has been logged.
  ghost predicate Logs(disk0: Disk, l0: set<nat>, disk: Disk, logged: set<nat>) {
    disk.Keys == disk0.Keys && l0 <= logged && forall b :: b in disk0 && disk[b] != disk0[b] ==> b in logged
  }

  lemma LogsChain(disk0: Disk, l0: set<nat>, disk1: Disk, l1: set<nat>, disk: Disk, logged: set<nat>)
    requires Logs(disk0, l0, disk1, l1) && Logs(disk1, l1, disk, logged)
    ensures Logs(disk0, l0, disk, logged)
  {
  }

  lemma LogsPut(disk: Disk, l: set<nat>, b: nat, data: Data)
    requires b in disk
    ensures Logs(disk, l, disk[b := data], l + {b})
  {
  }

  // Other owners' blocks are as they were, apart from the bitmap, and what has
  // been logged since is the bitmap's or nobody else's.
  ghost predicate Confined(disk0: Disk, l0: set<nat>, disk: Disk, logged: set<nat>, sb: Super, others: set<nat>) {
    && disk.Keys == disk0.Keys
    && (forall b :: b in others && b in disk0 && !BitmapBlock(sb, b) ==> disk[b] == disk0[b])
    && (forall b :: b in logged && b !in l0 ==> b in disk0 && (BitmapBlock(sb, b) || b !in others))
  }

  lemma ConfinedNothing(disk: Disk, l: set<nat>, sb: Super, others: set<nat>)
    ensures Confined(disk, l, disk, l, sb, others)
  {
  }

  lemma ConfinedChain(disk0: Disk, l0: set<nat>, disk1: Disk, l1: set<nat>, disk: Disk, logged: set<nat>, sb: Super, others: set<nat>)
    requires Confined(disk0, l0, disk1, l1, sb, others) && Confined(disk1, l1, disk, logged, sb, others)
    ensures Confined(disk0, l0, disk, logged, sb, others)
  {
    hide BitmapBlock;
  }

  lemma ConfinedPut(disk: Disk, l: set<nat>, b: nat, data: Data, sb: Super, others: set<nat>)
    requires b in disk && b !in others
    ensures Confined(disk, l, disk[b := data], l + {b}, sb, others)
  {
    hide BitmapBlock;
  }

  lemma ConfinedAlloc(disk: Disk, sb: Super, others: set<nat>, a: nat, l: set<nat>)
    requires BBlock(sb, a) in disk && !Used(disk, sb, a) && a in disk && a < sb.size && a !in others
    ensures Confined(disk, l, Allocated(disk, sb, a), l + {BBlock(sb, a), a}, sb, others)
  {
    assert BitmapBlock(sb, BBlock(sb, a));
    hide BitmapBlock, Used, BBlock, Allocated;
    AllocatedElsewhere(disk, sb, a);
  }

  // The inode has got new blocks, at positions lo .. hi - 1 and perhaps an
  // indirect block: references stay, and every block that has come into use
  // is one of its references now.
  ghost predicate Extends(disk0: Disk, addrs0: seq<nat>, disk: Disk, addrs: seq<nat>, sb: Super, lo: nat, hi: nat) {
    && |addrs0| == NDIRECT + 1 && |addrs| == NDIRECT + 1
    && (forall k :: 0 <= k <= MAXFILE && Slot(disk0, addrs0, k) != 0 ==> Slot(disk, addrs, k) == Slot(disk0, addrs0, k))
    && (forall k :: 0 <= k < MAXFILE && !(lo <= k < hi) ==> Slot(disk, addrs, k) == Slot(disk0, addrs0, k))
    && (forall b: nat :: 0 < b < sb.size && Used(disk, sb, b) && !Used(disk0, sb, b) ==> !Unreferenced(disk, addrs, b))
  }

  lemma ExtendsNothing(disk: Disk, addrs: seq<nat>, sb: Super, lo: nat, hi: nat)
    requires |addrs| == NDIRECT + 1
    ensures Extends(disk, addrs, disk, addrs, sb, lo, hi)
  {
    hide Slot, Used;
  }

  lemma ExtendsChain(disk0: Disk, addrs0: seq<nat>, disk1: Disk, addrs1: seq<nat>, disk: Disk, addrs: seq<nat>,
                     sb: Super, lo: nat, hi: nat, lo1: nat, hi1: nat)
    requires Extends(disk0, addrs0, disk1, addrs1, sb, lo, hi) && Extends(disk1, addrs1, disk, addrs, sb, lo1, hi1)
    requires lo <= lo1 && hi1 <= hi
    ensures Extends(disk0, addrs0, disk, addrs, sb, lo, hi)
  {
    hide Slot, Used, Unreferenced;
    forall b: nat | 0 < b < sb.size && Used(disk1, sb, b) && !Used(disk0, sb, b) ensures !Unreferenced(disk, addrs, b) {
      StillReferenced(disk1, addrs1, disk, addrs, sb, lo1, hi1, b);
    }
  }

  lemma StillReferenced(disk0: Disk, addrs0: seq<nat>, disk: Disk, addrs: seq<nat>, sb: Super, lo: nat, hi: nat, b: nat)
    requires Extends(disk0, addrs0, disk, addrs, sb, lo, hi) && !Unreferenced(disk0, addrs0, b) && b != 0
    ensures !Unreferenced(disk, addrs, b)
  {
    hide Slot, Used;
    var k :| 0 <= k <= MAXFILE && Slot(disk0, addrs0, k) == b;
    assert Slot(disk, addrs, k) == b;
  }

  // One new reference, to the one block that has come into use.
  lemma ExtendsBySlot(disk0: Disk, addrs0: seq<nat>, disk: Disk, addrs: seq<nat>, sb: Super, k0: nat, a: nat, lo: nat, hi: nat)
    requires OneSlot(disk0, addrs0, disk, addrs, k0, a) && Slot(disk0, addrs0, k0) == 0 && (k0 == MAXFILE || lo <= k0 < hi)
    requires forall b: nat :: b < sb.size && Used(disk, sb, b) ==> b == a || Used(disk0, sb, b)
    ensures Extends(disk0, addrs0, disk, addrs, sb, lo, hi)
  {
    hide Slot, Used;
    assert !Unreferenced(disk, addrs, a);
  }

  // balloc and then a change of references.
  lemma OneSlotAfter(disk: Disk, disk1: Disk, addrs: seq<nat>, disk': Disk, addrs': seq<nat>, k0: nat, a: nat)
    requires SameSlots(disk, addrs, disk1, addrs) && OneSlot(disk1, addrs, disk', addrs', k0, a)
    ensures OneSlot(disk, addrs, disk', addrs', k0, a)
  {
    hide Slot;
  }

  lemma SameIndirect(disk: Disk, disk': Disk, addrs: seq<nat>)
    requires |addrs| == NDIRECT + 1 && disk'.Keys == disk.Keys
    requires addrs[NDIRECT] != 0 && addrs[NDIRECT] in disk ==> disk'[addrs[NDIRECT]] == disk[addrs[NDIRECT]]
    ensures SameSlots(disk, addrs, disk', addrs)
  {
    hide Word;
  }

  lemma SameBitmap(disk: Disk, disk': Disk, sb: Super, others: set<nat>)
    requires Image(disk, sb, others) && disk'.Keys == disk.Keys
    requires forall b :: b in others ==> b in disk && disk'[b] == disk[b]
    ensures Image(disk', sb, others) && forall b :: 0 <= b < sb.size ==> (Used(disk', sb, b) <==> Used(disk, sb, b))
  {
    hide Bit, ByteIndex, BitIndex, BBlock;
  }

  // An update of a block that is not in others and not the indirect block.
  lemma DataWritten(disk: Disk, sb: Super, addrs: seq<nat>, others: set<nat>, a: nat, data: Data)
    requires FsInv(disk, sb, addrs, others) && a in disk && a !in others && a != addrs[NDIRECT]
    ensures FsInv(disk[a := data], sb, addrs, others) && SameSlots(disk, addrs, disk[a := data], addrs)
  {
    hide Word, Used;
    SameIndirect(disk, disk[a := data], addrs);
    SameBitmap(disk, disk[a := data], sb, others);
    hide Slot;
  }

  lemma AllocBasics(disk: Disk, sb: Super, addrs: seq<nat>, others: set<nat>, a: nat)
    requires FsInv(disk, sb, addrs, others) && a < sb.size && !Used(disk, sb, a)
    ensures BBlock(sb, a) in disk && BBlock(sb, a) in others && a !in others && a != 0 && a in disk
    ensures a != BBlock(sb, a) && Unreferenced(disk, addrs, a)
    ensures addrs[NDIRECT] != a && (addrs[NDIRECT] != 0 ==> addrs[NDIRECT] != BBlock(sb, a))
  {
    hide Used, BBlock;
    if addrs[NDIRECT] != 0 {
      assert Slot(disk, addrs, MAXFILE) == addrs[NDIRECT];
    }
    hide Slot;
  }

  // balloc keeps the invariant; the new block is nobody's yet.
  lemma AllocKeeps(disk: Disk, sb: Super, addrs: seq<nat>, others: set<nat>, a: nat)
    requires FsInv(disk, sb, addrs, others) && a < sb.size && BBlock(sb, a) in disk && !Used(disk, sb, a)
    ensures a in disk && FsInv(Allocated(disk, sb, a), sb, addrs, others)
    ensures SameSlots(disk, addrs, Allocated(disk, sb, a), addrs)
    ensures OwnedBlock(Allocated(disk, sb, a), sb, others, a) && Unreferenced(disk, addrs, a) && a != 0
    ensures Allocated(disk, sb, a).Keys == disk.Keys
  {
    hide Used, BBlock, Slot, Allocated, Word;
    AllocBasics(disk, sb, addrs, others, a);
    AllocatedElsewhere(disk, sb, a);
    var disk' := Allocated(disk, sb, a);
    SameIndirect(disk, disk', addrs);
    forall c | 0 <= c < sb.size ensures Used(disk', sb, c) <==> c == a || Used(disk, sb, c) {
      AllocatedUse(disk, sb, others, a, c);
    }
  }

  lemma AllocatedElsewhere(disk: Disk, sb: Super, a: nat)
    requires BBlock(sb, a) in disk && !Used(disk, sb, a) && a in disk
    ensures Allocated(disk, sb, a).Keys == disk.Keys && Allocated(disk, sb, a)[a] == ZeroData()
    ensures forall c :: c in disk && c != a && c != BBlock(sb, a) ==> Allocated(disk, sb, a)[c] == disk[c]
  {
  }

  lemma AllocatedUse(disk: Disk, sb: Super, others: set<nat>, a: nat, c: nat)
    requires Image(disk, sb, others) && a < sb.size && BBlock(sb, a) in disk && !Used(disk, sb, a) && c < sb.size
    ensures Used(Allocated(disk, sb, a), sb, c) <==> c == a || Used(disk, sb, c)
  {
    MarkedUsed(disk, sb, a, c);
    assert BBlock(sb, c) in others && a !in others;
    OtherBlock(Marked(disk, sb, a), sb, a, c);
  }

  lemma OtherBlock(disk: Disk, sb: Super, a: nat, c: nat)
    requires BBlock(sb, c) != a
    ensures Used(disk[a := ZeroData()], sb, c) <==> Used(disk, sb, c)
  {
  }

  lemma AllocLogs(disk: Disk, sb: Super, a: nat, l: set<nat>)
    requires BBlock(sb, a) in disk && !Used(disk, sb, a) && a in disk
    ensures Logs(disk, l, Allocated(disk, sb, a), l + {BBlock(sb, a), a})
  {
    hide Used, BBlock, Allocated;
    AllocatedElsewhere(disk, sb, a);
  }

  // A new reference to a block that nobody refers to.
  lemma RefAdded(disk: Disk, sb: Super, addrs: seq<nat>, others: set<nat>, disk': Disk, addrs': seq<nat>, k0: nat, a: nat)
    requires FsInv(disk, sb, addrs, others) && Image(disk', sb, others)
    requires forall b :: 0 <= b < sb.size ==> (Used(disk', sb, b) <==> Used(disk, sb, b))
    requires OneSlot(disk, addrs, disk', addrs', k0, a) && Unreferenced(disk, addrs, a) && OwnedBlock(disk, sb, others, a)
    ensures FsInv(disk', sb, addrs', others)
  {
    hide Used, Slot;
  }

  lemma DirectSet(disk: Disk, sb: Super, addrs: seq<nat>, others: set<nat>, bn: nat, a: nat)
    requires FsInv(disk, sb, addrs, others) && bn < NDIRECT && addrs[bn] == 0
    requires OwnedBlock(disk, sb, others, a) && Unreferenced(disk, addrs, a) && a != 0
    ensures FsInv(disk, sb, addrs[bn := a], others) && OneSlot(disk, addrs, disk, addrs[bn := a], bn, a)
  {
    hide Word, Used;
    RefAdded(disk, sb, addrs, others, disk, addrs[bn := a], bn, a);
  }

  // A zeroed block becomes the indirect block.
  lemma IndirectSet(disk: Disk, sb: Super, addrs: seq<nat>, others: set<nat>, a: nat)
    requires FsInv(disk, sb, addrs, others) && addrs[NDIRECT] == 0
    requires OwnedBlock(disk, sb, others, a) && Unreferenced(disk, addrs, a) && a in disk && disk[a] == ZeroData()
    ensures FsInv(disk, sb, addrs[NDIRECT := a], others)
    ensures OneSlot(disk, addrs, disk, addrs[NDIRECT := a], MAXFILE, a)
  {
    forall j | 0 <= j < NINDIRECT ensures Word(disk[a], j) == 0 { WordOfZero(j); }
    hide Word, Used;
    RefAdded(disk, sb, addrs, others, disk, addrs[NDIRECT := a], MAXFILE, a);
  }

  // An entry of the indirect block is filled in.
  lemma EntryPut(disk: Disk, sb: Super, addrs: seq<nat>, others: set<nat>, j: nat, a: nat)
    requires FsInv(disk, sb, addrs, others) && addrs[NDIRECT] != 0 && j < NINDIRECT && addrs[NDIRECT] in disk
    requires Word(disk[addrs[NDIRECT]], j) == 0 && a < TWO32
    requires OwnedBlock(disk, sb, others, a) && Unreferenced(disk, addrs, a)
    ensures var disk' := disk[addrs[NDIRECT] := PutWord(disk[addrs[NDIRECT]], j, a)];
      FsInv(disk', sb, addrs, others) && OneSlot(disk, addrs, disk', addrs, NDIRECT + j, a)
  {
    hide Used, FsInv;
    EntryPutSlots(disk, addrs, j, a);
    EntryPutImage(disk, sb, addrs, others, PutWord(disk[addrs[NDIRECT]], j, a));
    RefAdded(disk, sb, addrs, others, disk[addrs[NDIRECT] := PutWord(disk[addrs[NDIRECT]], j, a)], addrs, NDIRECT + j, a);
  }

  lemma EntryPutSlots(disk: Disk, addrs: seq<nat>, j: nat, a: nat)
    requires |addrs| == NDIRECT + 1 && addrs[NDIRECT] != 0 && j < NINDIRECT && addrs[NDIRECT] in disk && a < TWO32
    ensures OneSlot(disk, addrs, disk[addrs[NDIRECT] := PutWord(disk[addrs[NDIRECT]], j, a)], addrs, NDIRECT + j, a)
  {
    var ind := addrs[NDIRECT];
    forall k | 0 <= k < NINDIRECT
      ensures Word(PutWord(disk[ind], j, a), k) == if k == j then a else Word(disk[ind], k)
    {
      WordAfterPut(disk[ind], j, a, k);
    }
    hide Word, PutWord;
  }

  lemma EntryPutImage(disk: Disk, sb: Super, addrs: seq<nat>, others: set<nat>, data: Data)
    requires FsInv(disk, sb, addrs, others) && addrs[NDIRECT] != 0 && addrs[NDIRECT] in disk
    ensures var disk' := disk[addrs[NDIRECT] := data];
      Image(disk', sb, others) && forall b :: 0 <= b < sb.size ==> (Used(disk', sb, b) <==> Used(disk, sb, b))
  {
    hide Used;
    assert Slot(disk, addrs, MAXFILE) == addrs[NDIRECT];
    hide Slot;
    SameBitmap(disk, disk[addrs[NDIRECT] := data], sb, others);
  }
}
