/** Writes of kernel/fs.c that log as many blocks as a write of 3 blocks' worth
    can: 10 on a disk with four bitmap blocks and 7 on one with a single one. */
module LargestWrite {
  import opened Counting
  import opened Bits
  import opened FsBlocks
  import opened Inodes
  import opened FileSystem
  import opened FileContents

  // 3072 bytes from the middle of block 11 on, the last direct one.
  const START: nat := 11776
  const FILESIZE: nat := 12288

  function Ones(n: nat): (s: seq<Byte>)
    ensures |s| == n && forall i :: 0 <= i < n ==> s[i] == 1
  {
    if n == 0 then [] else Ones(n - 1) + [1]
  }

  // A file of 12 zeroed blocks on a disk where only the blocks of free are
  // left, which are zeroed, too.
  ghost predicate Before(disk: Disk, sb: Super, addrs: seq<nat>, others: set<nat>, free: seq<nat>) {
    && FsInv(disk, sb, addrs, others) && |free| == 4 && |addrs| == NDIRECT + 1 && addrs[NDIRECT] == 0
    && (forall i, j :: 0 <= i < j < 4 ==> free[i] != free[j])
    && (forall i :: 0 <= i < 4 ==> 0 < free[i] < sb.size && !Used(disk, sb, free[i]))
    && (forall i :: 0 <= i < 4 ==> free[i] in disk && disk[free[i]] == ZeroData())
    && (forall k :: 0 <= k < NDIRECT ==> addrs[k] != 0 && addrs[k] in disk && disk[addrs[k]] == ZeroData())
    && (forall b: nat :: b < sb.size ==> b in others || b in free || exists k :: 0 <= k < NDIRECT && addrs[k] == b)
  }

  // The references before: the direct blocks and nothing else.
  lemma SlotsBefore(disk: Disk, sb: Super, addrs: seq<nat>, others: set<nat>, free: seq<nat>)
    requires Before(disk, sb, addrs, others, free)
    ensures forall k :: 0 <= k < NDIRECT ==> Slot(disk, addrs, k) == addrs[k] != 0
    ensures forall k :: NDIRECT <= k <= MAXFILE ==> Slot(disk, addrs, k) == 0
    ensures forall i, k :: 0 <= i < 4 && 0 <= k < NDIRECT ==> free[i] != addrs[k]
    ensures forall i :: 0 <= i < 4 ==> free[i] !in others
  {
    hide Used, Word;
    forall i, k | 0 <= i < 4 && 0 <= k < NDIRECT ensures free[i] != addrs[k] {
      assert Slot(disk, addrs, k) == addrs[k];
    }
  }

  // The four references that the write adds.
  ghost predicate Added(k: nat) {
    12 <= k <= 14 || k == MAXFILE
  }

  // A free block that is in use after the write is one of those references.
  lemma AddedSlot(disk0: Disk, sb: Super, addrs0: seq<nat>, others: set<nat>, free: seq<nat>, disk: Disk, addrs: seq<nat>, i: nat)
    returns (k: nat)
    requires Before(disk0, sb, addrs0, others, free) && Extends(disk0, addrs0, disk, addrs, sb, 11, 15)
    requires i < 4 && Used(disk, sb, free[i])
    ensures Added(k) && Slot(disk, addrs, k) == free[i]
  {
    hide Used, Slot, FsInv;
    SlotsBefore(disk0, sb, addrs0, others, free);
    k :| 0 <= k <= MAXFILE && Slot(disk, addrs, k) == free[i];
  }

  // On a disk that is full after the write all four references are there.
  lemma FullDisk(disk0: Disk, sb: Super, addrs0: seq<nat>, others: set<nat>, free: seq<nat>, disk: Disk, addrs: seq<nat>)
    requires Before(disk0, sb, addrs0, others, free) && Extends(disk0, addrs0, disk, addrs, sb, 11, 15)
    ensures (forall b :: 0 <= b < sb.size ==> Used(disk, sb, b)) ==> forall k :: 11 <= k <= 14 ==> Slot(disk, addrs, k) != 0
  {
    hide Used, Slot, FsInv, Before, Extends;
    StillDirect(disk0, sb, addrs0, others, free, disk, addrs);
    if forall b :: 0 <= b < sb.size ==> Used(disk, sb, b) {
      FreeBlocks(disk0, sb, addrs0, others, free);
      var k0 := AddedSlot(disk0, sb, addrs0, others, free, disk, addrs, 0);
      var k1 := AddedSlot(disk0, sb, addrs0, others, free, disk, addrs, 1);
      var k2 := AddedSlot(disk0, sb, addrs0, others, free, disk, addrs, 2);
      var k3 := AddedSlot(disk0, sb, addrs0, others, free, disk, addrs, 3);
      FourOfFour(k0, k1, k2, k3);
      forall k | 11 <= k <= 14 ensures Slot(disk, addrs, k) != 0 { }
    }
  }

  lemma StillDirect(disk0: Disk, sb: Super, addrs0: seq<nat>, others: set<nat>, free: seq<nat>, disk: Disk, addrs: seq<nat>)
    requires Before(disk0, sb, addrs0, others, free) && Extends(disk0, addrs0, disk, addrs, sb, 11, 15)
    ensures |addrs| == NDIRECT + 1
    ensures forall k :: 0 <= k < NDIRECT ==> Slot(disk, addrs, k) == addrs0[k] != 0
    ensures forall k :: 15 <= k < MAXFILE ==> Slot(disk, addrs, k) == 0
  {
    SlotsBefore(disk0, sb, addrs0, others, free);
    hide Used, Slot, FsInv;
  }

  lemma FreeBlocks(disk: Disk, sb: Super, addrs: seq<nat>, others: set<nat>, free: seq<nat>)
    requires Before(disk, sb, addrs, others, free)
    ensures |free| == 4 && 0 < free[0] < sb.size && 0 < free[1] < sb.size && 0 < free[2] < sb.size && 0 < free[3] < sb.size
    ensures free[0] != free[1] && free[0] != free[2] && free[0] != free[3] && free[1] != free[2] && free[1] != free[3]
    ensures free[2] != free[3]
  {
    hide FsInv, Used;
  }

  lemma FourOfFour(a: nat, b: nat, c: nat, d: nat)
    requires Added(a) && Added(b) && Added(c) && Added(d)
    requires a != b && a != c && a != d && b != c && b != d && c != d
    ensures a == 12 || b == 12 || c == 12 || d == 12
    ensures a == 13 || b == 13 || c == 13 || d == 13
    ensures a == 14 || b == 14 || c == 14 || d == 14
    ensures a == MAXFILE || b == MAXFILE || c == MAXFILE || d == MAXFILE
  {
  }

  // ---------- what has changed ----------

  // After a complete write the new references are exactly the free blocks.
  lemma NewIsFree(disk0: Disk, sb: Super, addrs0: seq<nat>, others: set<nat>, free: seq<nat>, disk: Disk, addrs: seq<nat>, k: nat)
    requires Before(disk0, sb, addrs0, others, free) && Extends(disk0, addrs0, disk, addrs, sb, 11, 15)
    requires FsInv(disk, sb, addrs, others) && Added(k) && Slot(disk, addrs, k) != 0
    ensures Slot(disk, addrs, k) in free
  {
    StillDirect(disk0, sb, addrs0, others, free, disk, addrs);
    assert OwnedBlock(disk, sb, others, Slot(disk, addrs, k));
    forall l | 0 <= l < NDIRECT ensures addrs0[l] != Slot(disk, addrs, k) {
      assert Slot(disk, addrs, l) != 0 ==> Slot(disk, addrs, l) != Slot(disk, addrs, k);
    }
    hide Used, Slot, Extends;
  }

  // All positions of the write have a block and its bytes are there.
  ghost predicate After(disk: Disk, sb: Super, addrs: seq<nat>, others: set<nat>) {
    && FsInv(disk, sb, addrs, others) && Backed(disk, addrs, START + 3072)
    && forall i :: START <= i < START + 3072 ==> ByteAt(disk, addrs, i) == 1
  }

  lemma AllAdded(disk: Disk, sb: Super, addrs: seq<nat>, others: set<nat>, k: nat)
    requires After(disk, sb, addrs, others) && Added(k)
    ensures Slot(disk, addrs, k) != 0
  {
    hide FsInv, Word;
    BackedSize(disk, addrs, START + 3072);
    if k == MAXFILE {
      assert Addr(disk, addrs, 12) != 0;
    } else {
      assert Addr(disk, addrs, k) != 0;
    }
  }

  // A block of the file in which the write has a byte has changed.
  lemma DataChanged(disk0: Disk, disk: Disk, sb: Super, addrs: seq<nat>, others: set<nat>, k: nat)
    requires After(disk, sb, addrs, others) && 11 <= k <= 14
    requires Slot(disk, addrs, k) in disk0 && disk0[Slot(disk, addrs, k)] == ZeroData()
    ensures Slot(disk, addrs, k) in disk && disk[Slot(disk, addrs, k)] != disk0[Slot(disk, addrs, k)]
  {
    hide FsInv, Word;
    var i := if k == 11 then START else k * BSIZE;
    BackedSize(disk, addrs, START + 3072);
    SlotsOwned(disk, sb, addrs, others);
    assert i / BSIZE == k && ByteAt(disk, addrs, i) == 1;
    assert Addr(disk, addrs, k) == Slot(disk, addrs, k) != 0;
  }

  // The new indirect block has an entry.
  lemma IndirectChanged(disk0: Disk, disk: Disk, sb: Super, addrs: seq<nat>, others: set<nat>)
    requires After(disk, sb, addrs, others) && Slot(disk, addrs, MAXFILE) in disk0
    requires disk0[Slot(disk, addrs, MAXFILE)] == ZeroData()
    ensures Slot(disk, addrs, MAXFILE) in disk && disk[Slot(disk, addrs, MAXFILE)] != disk0[Slot(disk, addrs, MAXFILE)]
  {
    hide FsInv, ByteAt;
    AllAdded(disk, sb, addrs, others, 12);
    WordOfZero(0);
    assert Addr(disk, addrs, 12) == Slot(disk, addrs, 12) != 0;
    hide Word;
  }

  // A block that has come into use has changed its bitmap block.
  lemma BitmapChanged(disk0: Disk, disk: Disk, sb: Super, b: nat)
    requires BBlock(sb, b) in disk0 && disk.Keys == disk0.Keys && Used(disk, sb, b) && !Used(disk0, sb, b)
    ensures disk[BBlock(sb, b)] != disk0[BBlock(sb, b)]
  {
  }

  // Four different elements of a list of four are all of them.
  lemma AllFour(free: seq<nat>, a: nat, b: nat, c: nat, d: nat, i: nat)
    requires |free| == 4 && i < 4 && a in free && b in free && c in free && d in free
    requires a != b && a != c && a != d && b != c && b != d && c != d
    ensures free[i] == a || free[i] == b || free[i] == c || free[i] == d
  {
  }

  // Every free block is one of the new references.
  lemma FreeIsNew(disk0: Disk, sb: Super, addrs0: seq<nat>, others: set<nat>, free: seq<nat>, disk: Disk, addrs: seq<nat>, i: nat)
    returns (k: nat)
    requires Before(disk0, sb, addrs0, others, free) && Extends(disk0, addrs0, disk, addrs, sb, 11, 15)
    requires After(disk, sb, addrs, others) && i < 4
    ensures Added(k) && Slot(disk, addrs, k) == free[i]
  {
    hide Slot, Before, Extends, ByteAt, Backed, Used;
    forall l | Added(l) ensures Slot(disk, addrs, l) != 0 && Slot(disk, addrs, l) in free {
      AllAdded(disk, sb, addrs, others, l);
      NewIsFree(disk0, sb, addrs0, others, free, disk, addrs, l);
    }
    FreeBlocks(disk0, sb, addrs0, others, free);
    var a, b, c, d := Slot(disk, addrs, 12), Slot(disk, addrs, 13), Slot(disk, addrs, 14), Slot(disk, addrs, MAXFILE);
    assert Added(12) && Added(13) && Added(14) && Added(MAXFILE);
    AllFour(free, a, b, c, d, i);
    k := if free[i] == a then 12 else if free[i] == b then 13 else if free[i] == c then 14 else MAXFILE;
  }

  // The write has changed the last direct block, the four free blocks and
  // their bitmap blocks.
  lemma Changed(disk0: Disk, sb: Super, addrs0: seq<nat>, others: set<nat>, free: seq<nat>, disk: Disk, addrs: seq<nat>, i: nat)
    requires Before(disk0, sb, addrs0, others, free) && Extends(disk0, addrs0, disk, addrs, sb, 11, 15)
    requires After(disk, sb, addrs, others) && disk.Keys == disk0.Keys && i < 4
    ensures |addrs0| == NDIRECT + 1 && addrs0[11] in disk0 && disk[addrs0[11]] != disk0[addrs0[11]]
    ensures free[i] in disk0 && disk[free[i]] != disk0[free[i]]
    ensures BBlock(sb, free[i]) in disk0 && disk[BBlock(sb, free[i])] != disk0[BBlock(sb, free[i])]
  {
    hide Slot, Extends, ByteAt, Backed, Used, BBlock, After, Refs;
    StillDirect(disk0, sb, addrs0, others, free, disk, addrs);
    DataChanged(disk0, disk, sb, addrs, others, 11);
    var k := FreeIsNew(disk0, sb, addrs0, others, free, disk, addrs, i);
    if k == MAXFILE {
      IndirectChanged(disk0, disk, sb, addrs, others);
    } else {
      DataChanged(disk0, disk, sb, addrs, others, k);
    }
    NowUsed(disk, sb, addrs, others, k);
    BitmapChanged(disk0, disk, sb, free[i]);
  }

  lemma NowUsed(disk: Disk, sb: Super, addrs: seq<nat>, others: set<nat>, k: nat)
    requires After(disk, sb, addrs, others) && Added(k) && |addrs| == NDIRECT + 1 && Slot(disk, addrs, k) != 0
    ensures Used(disk, sb, Slot(disk, addrs, k))
  {
    hide Used, Slot, ByteAt, Backed;
    assert OwnedBlock(disk, sb, others, Slot(disk, addrs, k));
  }

  // ---------- the write ----------

  // The blocks that must be logged.
  ghost function Needed(sb: Super, a: nat, free: seq<nat>, iblock: nat): set<nat>
    requires |free| == 4
  {
    {a, free[0], free[1], free[2], free[3]} +
    {BBlock(sb, free[0]), BBlock(sb, free[1]), BBlock(sb, free[2]), BBlock(sb, free[3])} + {iblock}
  }

  lemma FileThere(disk: Disk, sb: Super, addrs: seq<nat>, others: set<nat>, free: seq<nat>)
    requires Before(disk, sb, addrs, others, free)
    ensures Backed(disk, addrs, FILESIZE)
  {
    hide FsInv, Used, Word;
  }

  lemma AllLogged(disk0: Disk, sb: Super, addrs0: seq<nat>, others: set<nat>, free: seq<nat>, disk: Disk, addrs: seq<nat>,
                  logged: set<nat>, iblock: nat)
    requires Before(disk0, sb, addrs0, others, free) && Extends(disk0, addrs0, disk, addrs, sb, 11, 15)
    requires After(disk, sb, addrs, others) && Logs(disk0, {}, disk, logged) && iblock in logged
    ensures |addrs0| == NDIRECT + 1 && |free| == 4 && Needed(sb, addrs0[11], free, iblock) <= logged
  {
    hide Before, Extends, After, BBlock;
    FreeBlocks(disk0, sb, addrs0, others, free);
    Changed(disk0, sb, addrs0, others, free, disk, addrs, 0);
    Changed(disk0, sb, addrs0, others, free, disk, addrs, 1);
    Changed(disk0, sb, addrs0, others, free, disk, addrs, 2);
    Changed(disk0, sb, addrs0, others, free, disk, addrs, 3);
  }

  lemma WrittenOnes(disk: Disk, sb: Super, addrs: seq<nat>, others: set<nat>, c0: seq<Byte>)
    requires FsInv(disk, sb, addrs, others) && Backed(disk, addrs, START + 3072) && |c0| == FILESIZE && |addrs| == NDIRECT + 1
    requires Contents(disk, addrs, START + 3072) == Splice(c0, START, Ones(3072))
    ensures After(disk, sb, addrs, others)
  {
    hide FsInv, Backed, ByteAt, Ones;
    var c := Contents(disk, addrs, START + 3072);
    forall i | START <= i < START + 3072 ensures ByteAt(disk, addrs, i) == 1 {
      assert c[i] == ByteAt(disk, addrs, i) && c[i] == Ones(3072)[i - START];
    }
  }

  // writei of 3072 bytes logs at least the needed blocks, and at most the
  // bound.
  method WriteThree(fs: Fs, iblock: nat, ghost free: seq<nat>) returns (r: int)
    requires Before(fs.disk, fs.sb, fs.addrs, fs.others, free) && fs.size == FILESIZE && fs.logged == {}
    modifies fs
    ensures r == 3072 && |old(fs.addrs)| == NDIRECT + 1 && |free| == 4
    ensures Needed(fs.sb, old(fs.addrs)[11], free, iblock) <= fs.logged && |fs.logged| <= WriteBound(fs.sb)
  {
    hide Before, FsInv, Used, Slot, Extends, Logs, Contents, Backed, Splice, ByteAt, Needed, Ones, After;
    ghost var disk0, addrs0 := fs.disk, fs.addrs;
    FileThere(disk0, fs.sb, addrs0, fs.others, free);
    BeforeInv(disk0, fs.sb, addrs0, fs.others, free);
    ghost var s;
    r, s := Writei(fs, START, Ones(3072), iblock);
    assert Ones(3072)[..3072] == Ones(3072);
    FullDisk(disk0, fs.sb, addrs0, fs.others, free, fs.disk, fs.addrs);
    BackedSize(fs.disk, fs.addrs, fs.size);
    WrittenOnes(fs.disk, fs.sb, fs.addrs, fs.others, Contents(disk0, addrs0, FILESIZE));
    AllLogged(disk0, fs.sb, addrs0, fs.others, free, fs.disk, fs.addrs, fs.logged, iblock);
    SubsetSize(fs.logged, s);
  }

  lemma BeforeInv(disk: Disk, sb: Super, addrs: seq<nat>, others: set<nat>, free: seq<nat>)
    requires Before(disk, sb, addrs, others, free)
    ensures FsInv(disk, sb, addrs, others) && |addrs| == NDIRECT + 1 && |free| == 4
  {
  }

  // ---------- two disks ----------

  // A bitmap block in which all bits are set but those of byte 100 that v
  // leaves clear.
  function BitmapData(v: Byte): Data {
    seq(1024, i => if i == 100 then v else 255)
  }

  // groups bitmap blocks from block 1 on, with v in each; all else is zero.
  function BlockOf(groups: nat, v: Byte, b: nat): Data {
    if 1 <= b <= groups then BitmapData(v) else ZeroData()
  }

  function DiskOf(groups: nat, v: Byte): Disk {
    map b: nat | 0 <= b < groups * BPB :: BlockOf(groups, v, b)
  }

  // The file is in blocks 808 .. 819.
  function FileAddrs(): (addrs: seq<nat>)
    ensures |addrs| == NDIRECT + 1
  {
    [808, 809, 810, 811, 812, 813, 814, 815, 816, 817, 818, 819, 0]
  }

  ghost predicate Hole(b: nat, v: Byte) {
    b % BPB / 8 == 100 && !Bit(v, b % BPB % 8)
  }

  ghost function Others(groups: nat, v: Byte): set<nat> {
    set b: nat | 0 <= b < groups * BPB && !Hole(b, v) && !(808 <= b < 820)
  }

  lemma UsedThere(groups: nat, v: Byte, b: nat)
    requires 1 <= groups <= 4 && b < groups * BPB
    ensures BBlock(Super(groups * BPB, 1), b) in DiskOf(groups, v) && 1 <= BBlock(Super(groups * BPB, 1), b) <= groups
    ensures Used(DiskOf(groups, v), Super(groups * BPB, 1), b) <==> !Hole(b, v)
  {
    var sb := Super(groups * BPB, 1);
    assert b / BPB < groups;
    assert DiskOf(groups, v)[BBlock(sb, b)] == BitmapData(v);
    AllBits(b % BPB % 8);
  }

  lemma AllBits(k: nat)
    requires k < 8
    ensures Bit(255, k) && (Bit(254, k) <==> k > 0) && (Bit(240, k) <==> k > 3)
  {
    assert Bit(255, 0) && Bit(127, 0) && Bit(63, 0) && Bit(31, 0) && Bit(15, 0) && Bit(7, 0) && Bit(3, 0) && Bit(1, 0);
    assert !Bit(254, 0) && !Bit(240, 0) && !Bit(120, 0) && !Bit(60, 0) && !Bit(30, 0);
    match k
    case 0 =>
    case 1 => assert 255 / 2 == 127 && 254 / 2 == 127 && 240 / 2 == 120;
    case 2 => BitStep(255, 2); BitStep(254, 2); BitStep(240, 2); BitStep(127, 1); BitStep(120, 1);
    case _ => HighBits(k);
  }

  lemma BitStep(b: nat, k: nat)
    requires k > 0
    ensures Bit(b, k) == Bit(b / 2, k - 1)
  {
  }

  lemma HighBits(k: nat)
    requires 3 <= k < 8
    ensures Bit(255, k) && Bit(254, k) && (Bit(240, k) <==> k > 3)
  {
    BitStep(255, k); BitStep(254, k); BitStep(240, k);
    BitStep(127, k - 1); BitStep(120, k - 1);
    BitStep(63, k - 2); BitStep(60, k - 2);
    if k > 3 {
      BitStep(31, k - 3); BitStep(30, k - 3);
      if k > 4 { BitStep(15, k - 4); if k > 5 { BitStep(7, k - 5); if k > 6 { BitStep(3, k - 6); } } }
    }
  }

  // Holes that the list free has all of.
  ghost predicate Holes(groups: nat, v: Byte, free: seq<nat>) {
    && |free| == 4 && (forall i, j :: 0 <= i < j < 4 ==> free[i] != free[j])
    && (forall i :: 0 <= i < 4 ==> free[i] < groups * BPB && Hole(free[i], v))
    && (forall b: nat :: b < groups * BPB && Hole(b, v) ==> b in free)
  }

  lemma ImageOf(groups: nat, v: Byte)
    requires 1 <= groups <= 4
    ensures Image(DiskOf(groups, v), Super(groups * BPB, 1), Others(groups, v))
  {
    hide Used, BBlock, Bit;
    forall b: nat | b < groups * BPB
      ensures BBlock(Super(groups * BPB, 1), b) in Others(groups, v)
      ensures Used(DiskOf(groups, v), Super(groups * BPB, 1), b) <==> !Hole(b, v)
    {
      UsedThere(groups, v, b);
    }
    hide Hole;
    NoHole(0, v);
  }

  lemma NoHole(b: nat, v: Byte)
    requires b < 800 || 808 <= b < 820
    ensures !Hole(b, v)
  {
  }

  lemma FileSlots(groups: nat, v: Byte)
    ensures forall k :: 0 <= k < NDIRECT ==> Slot(DiskOf(groups, v), FileAddrs(), k) == 808 + k == FileAddrs()[k]
    ensures forall k :: NDIRECT <= k <= MAXFILE ==> Slot(DiskOf(groups, v), FileAddrs(), k) == 0
  {
    hide Word, DiskOf;
  }

  lemma FileOf(groups: nat, v: Byte)
    requires 1 <= groups <= 4
    ensures FsInv(DiskOf(groups, v), Super(groups * BPB, 1), FileAddrs(), Others(groups, v))
  {
    hide Used, Slot, Hole, FileAddrs, DiskOf, Image;
    ImageOf(groups, v);
    FileSlots(groups, v);
    forall k | 0 <= k <= MAXFILE && Slot(DiskOf(groups, v), FileAddrs(), k) != 0
      ensures OwnedBlock(DiskOf(groups, v), Super(groups * BPB, 1), Others(groups, v), Slot(DiskOf(groups, v), FileAddrs(), k))
    {
      assert Slot(DiskOf(groups, v), FileAddrs(), k) == 808 + k;
      UsedThere(groups, v, 808 + k);
      NoHole(808 + k, v);
    }
  }

  lemma BeforeHolds(groups: nat, v: Byte, free: seq<nat>)
    requires 1 <= groups <= 4 && Holes(groups, v, free)
    ensures Before(DiskOf(groups, v), Super(groups * BPB, 1), FileAddrs(), Others(groups, v), free)
  {
    hide Used, FsInv, Bit;
    FileOf(groups, v);
    forall i | 0 <= i < 4
      ensures 0 < free[i] < groups * BPB && !Used(DiskOf(groups, v), Super(groups * BPB, 1), free[i])
      ensures free[i] in DiskOf(groups, v) && DiskOf(groups, v)[free[i]] == ZeroData()
    {
      UsedThere(groups, v, free[i]);
    }
    forall b: nat | b < groups * BPB
      ensures b in Others(groups, v) || b in free || exists k :: 0 <= k < NDIRECT && FileAddrs()[k] == b
    {
      if 808 <= b < 820 { assert FileAddrs()[b - 808] == b; }
    }
  }

  // On a disk with four bitmap blocks, each with one free block: 10 blocks.
  method TenBlocks() returns (fs: Fs, r: int)
    ensures r == 3072 && |fs.logged| == 10 && WriteBound(fs.sb) == 10
  {
    hide Before, DiskOf, FsInv, Needed;
    ghost var free := [800, 8992, 17184, 25376];
    FourHoles();
    BeforeHolds(4, 254, free);
    BeforeInv(DiskOf(4, 254), Super(4 * BPB, 1), FileAddrs(), Others(4, 254), free);
    fs := new Fs(Super(4 * BPB, 1), DiskOf(4, 254), FileAddrs(), FILESIZE, Others(4, 254));
    r := WriteThree(fs, 33, free);
    NeededTen();
    SubsetSize(Needed(fs.sb, 819, free, 33), fs.logged);
  }

  // On a disk with one bitmap block: 7.
  method SevenBlocks() returns (fs: Fs, r: int)
    ensures r == 3072 && |fs.logged| == 7 && WriteBound(fs.sb) == 7
  {
    hide Before, DiskOf, FsInv, Needed;
    ghost var free := [800, 801, 802, 803];
    OneGroup();
    BeforeHolds(1, 240, free);
    BeforeInv(DiskOf(1, 240), Super(BPB, 1), FileAddrs(), Others(1, 240), free);
    fs := new Fs(Super(BPB, 1), DiskOf(1, 240), FileAddrs(), FILESIZE, Others(1, 240));
    r := WriteThree(fs, 33, free);
    NeededSeven();
    SubsetSize(Needed(fs.sb, 819, free, 33), fs.logged);
  }

  lemma FourHoles()
    ensures Holes(4, 254, [800, 8992, 17184, 25376])
  {
    forall k | 0 <= k < 8 ensures Bit(254, k) <==> k > 0 { AllBits(k); }
    hide Bit;
    forall b: nat | b < 4 * BPB && Hole(b, 254) ensures b in [800, 8992, 17184, 25376] {
      assert b % BPB == 800;
    }
  }

  lemma OneGroup()
    ensures Holes(1, 240, [800, 801, 802, 803])
  {
    forall k | 0 <= k < 8 ensures Bit(240, k) <==> k > 3 { AllBits(k); }
    hide Bit;
    forall b: nat | b < BPB && Hole(b, 240) ensures b in [800, 801, 802, 803] {
      assert 800 <= b < 804;
    }
  }

  lemma NeededTen()
    ensures |Needed(Super(4 * BPB, 1), 819, [800, 8992, 17184, 25376], 33)| == 10
  {
    assert Needed(Super(4 * BPB, 1), 819, [800, 8992, 17184, 25376], 33) == {819, 800, 8992, 17184, 25376, 1, 2, 3, 4, 33};
  }

  lemma NeededSeven()
    ensures |Needed(Super(BPB, 1), 819, [800, 801, 802, 803], 33)| == 7
  {
    assert Needed(Super(BPB, 1), 819, [800, 801, 802, 803], 33) == {819, 800, 801, 802, 803, 1, 33};
  }
}
