/** itrunc of kernel/fs.c: it frees exactly the blocks of the inode. */
module Truncate {
  import opened Bits
  import opened FsBlocks
  import opened Inodes
  import opened FileSystem
  import opened FileContents

  // Block b is one of the first n references of the inode.
  ghost predicate Among(disk: Disk, addrs: seq<nat>, n: nat, b: nat) {
    |addrs| == NDIRECT + 1 && b != 0 && exists k :: 0 <= k < n && k <= MAXFILE && Slot(disk, addrs, k) == b
  }

  // From disk0 to disk the first n references have been freed, and nothing
  // but bits of the bitmap has changed.
  ghost predicate Freed(disk0: Disk, sb: Super, addrs: seq<nat>, disk: Disk, n: nat) {
    && disk.Keys == disk0.Keys
    && (forall b :: b in disk0 && !BitmapBlock(sb, b) ==> disk[b] == disk0[b])
    && (forall b: nat :: b < sb.size ==> (Used(disk, sb, b) <==> Used(disk0, sb, b) && !Among(disk0, addrs, n, b)))
  }

  lemma FreedStart(disk: Disk, sb: Super, addrs: seq<nat>)
    ensures Freed(disk, sb, addrs, disk, 0)
  {
    hide Used, Slot;
  }

  lemma AmongNext(disk: Disk, addrs: seq<nat>, n: nat, b: nat)
    requires |addrs| == NDIRECT + 1 && n <= MAXFILE
    ensures Among(disk, addrs, n + 1, b) <==> Among(disk, addrs, n, b) || (b != 0 && Slot(disk, addrs, n) == b)
  {
    hide Slot;
  }

  lemma FreedSkip(disk0: Disk, sb: Super, addrs: seq<nat>, disk: Disk, n: nat)
    requires Freed(disk0, sb, addrs, disk, n) && |addrs| == NDIRECT + 1 && n <= MAXFILE && Slot(disk0, addrs, n) == 0
    ensures Freed(disk0, sb, addrs, disk, n + 1)
  {
    hide Used, Slot, Among;
    forall b: nat ensures Among(disk0, addrs, n + 1, b) <==> Among(disk0, addrs, n, b) { AmongNext(disk0, addrs, n, b); }
  }

  // No reference occurs twice, so the next one is still marked as in use.
  lemma FreedHas(disk0: Disk, sb: Super, addrs: seq<nat>, others: set<nat>, disk: Disk, n: nat)
    requires FsInv(disk0, sb, addrs, others) && Freed(disk0, sb, addrs, disk, n) && n <= MAXFILE
    requires Slot(disk0, addrs, n) != 0
    ensures Slot(disk0, addrs, n) < sb.size && Used(disk, sb, Slot(disk0, addrs, n))
  {
    hide Used, Slot;
  }

  lemma FreedNext(disk0: Disk, sb: Super, addrs: seq<nat>, others: set<nat>, disk: Disk, n: nat)
    requires FsInv(disk0, sb, addrs, others) && Freed(disk0, sb, addrs, disk, n) && n <= MAXFILE
    requires Slot(disk0, addrs, n) != 0 && Used(disk, sb, Slot(disk0, addrs, n))
    ensures Freed(disk0, sb, addrs, Unmarked(disk, sb, Slot(disk0, addrs, n)), n + 1)
  {
    hide Used, Slot, Among, Unmarked, Refs, BBlock;
    BlockBound(disk0, sb, addrs, others);
    var a := Slot(disk0, addrs, n);
    FreedHas(disk0, sb, addrs, others, disk, n);
    UnmarkedElsewhere(disk, sb, a);
    forall b: nat | b < sb.size
      ensures Used(Unmarked(disk, sb, a), sb, b) <==> Used(disk0, sb, b) && !Among(disk0, addrs, n + 1, b)
    {
      UnmarkedUsed(disk, sb, a, b);
      AmongNext(disk0, addrs, n, b);
      ZeroUsed(disk0, sb, addrs, others, n);
    }
  }

  lemma ZeroUsed(disk: Disk, sb: Super, addrs: seq<nat>, others: set<nat>, n: nat)
    requires FsInv(disk, sb, addrs, others)
    ensures !Among(disk, addrs, n, 0)
  {
  }

  lemma UnmarkedElsewhere(disk: Disk, sb: Super, a: nat)
    requires Used(disk, sb, a)
    ensures Unmarked(disk, sb, a).Keys == disk.Keys
    ensures forall b :: b in disk && b != BBlock(sb, a) ==> Unmarked(disk, sb, a)[b] == disk[b]
  {
  }

  // Without an indirect block there is nothing after the direct blocks.
  lemma FreedRest(disk0: Disk, sb: Super, addrs: seq<nat>, disk: Disk, n: nat)
    requires Freed(disk0, sb, addrs, disk, n) && |addrs| == NDIRECT + 1 && addrs[NDIRECT] == 0 && NDIRECT <= n <= MAXFILE
    ensures Freed(disk0, sb, addrs, disk, MAXFILE + 1)
    decreases MAXFILE - n
  {
    hide Freed;
    FreedSkip(disk0, sb, addrs, disk, n);
    if n < MAXFILE { FreedRest(disk0, sb, addrs, disk, n + 1); }
  }

  // The indirect block is not part of the bitmap, so it is still there.
  lemma IndirectStays(disk0: Disk, sb: Super, addrs: seq<nat>, others: set<nat>, disk: Disk, n: nat)
    requires FsInv(disk0, sb, addrs, others) && Freed(disk0, sb, addrs, disk, n) && addrs[NDIRECT] != 0
    ensures addrs[NDIRECT] in disk && disk[addrs[NDIRECT]] == disk0[addrs[NDIRECT]]
  {
    hide Used, Among, Refs, BBlock;
    SlotsOwned(disk0, sb, addrs, others);
  }

  function NoAddrs(): seq<nat> {
    seq(NDIRECT + 1, _ => 0)
  }

  lemma FreedAll(disk0: Disk, sb: Super, addrs: seq<nat>, others: set<nat>, disk: Disk)
    requires FsInv(disk0, sb, addrs, others) && Freed(disk0, sb, addrs, disk, MAXFILE + 1)
    ensures FsInv(disk, sb, NoAddrs(), others)
  {
    hide Used, BBlock;
    forall b | b in others ensures !Among(disk0, addrs, MAXFILE + 1, b) {
      hide Slot;
    }
    forall k | 0 <= k <= MAXFILE ensures Slot(disk, NoAddrs(), k) == 0 { hide Word; }
    hide Slot, Among, Freed;
    FreedImage(disk0, sb, addrs, others, disk);
  }

  lemma FreedImage(disk0: Disk, sb: Super, addrs: seq<nat>, others: set<nat>, disk: Disk)
    requires Image(disk0, sb, others) && Freed(disk0, sb, addrs, disk, MAXFILE + 1)
    requires forall b :: b in others ==> !Among(disk0, addrs, MAXFILE + 1, b)
    ensures Image(disk, sb, others)
  {
    hide Used, BBlock, Among;
  }

  // Blocks that have changed are logged, and only bitmap blocks are.
  ghost predicate LoggedBitmap(disk0: Disk, l0: set<nat>, disk: Disk, logged: set<nat>, sb: Super) {
    Logs(disk0, l0, disk, logged) && forall b :: b in logged ==> b in l0 || BitmapBlock(sb, b)
  }

  lemma LoggedUnmarked(disk0: Disk, l0: set<nat>, disk: Disk, logged: set<nat>, sb: Super, a: nat)
    requires LoggedBitmap(disk0, l0, disk, logged, sb) && Used(disk, sb, a) && a < sb.size
    ensures LoggedBitmap(disk0, l0, Unmarked(disk, sb, a), logged + {BBlock(sb, a)}, sb)
  {
    hide Used, Unmarked, BBlock;
    UnmarkedElsewhere(disk, sb, a);
  }

  lemma NothingLogged(disk: Disk, l: set<nat>, sb: Super)
    ensures LoggedBitmap(disk, l, disk, l, sb)
  {
  }

  // bfree of reference n, if there is one.
  method FreeSlot(fs: Fs, a: nat, ghost n: nat, ghost disk0: Disk, ghost addrs0: seq<nat>, ghost l0: set<nat>)
    requires FsInv(disk0, fs.sb, addrs0, fs.others) && n <= MAXFILE && a == Slot(disk0, addrs0, n)
    requires Freed(disk0, fs.sb, addrs0, fs.disk, n) && LoggedBitmap(disk0, l0, fs.disk, fs.logged, fs.sb)
    modifies fs`disk, fs`logged
    ensures Freed(disk0, fs.sb, addrs0, fs.disk, n + 1) && LoggedBitmap(disk0, l0, fs.disk, fs.logged, fs.sb)
  {
    hide FsInv, Freed, Used, Slot, BBlock, Unmarked, LoggedBitmap;
    BlockBound(disk0, fs.sb, addrs0, fs.others);
    if a != 0 {
      FreedHas(disk0, fs.sb, addrs0, fs.others, fs.disk, n);
      FreedNext(disk0, fs.sb, addrs0, fs.others, fs.disk, n);
      LoggedUnmarked(disk0, l0, fs.disk, fs.logged, fs.sb, a);
      fs.Bfree(a);
    } else {
      FreedSkip(disk0, fs.sb, addrs0, fs.disk, n);
    }
  }

  // The loop over the indirect block, and the indirect block itself.
  method FreeIndirect(fs: Fs, ghost disk0: Disk, ghost addrs0: seq<nat>, ghost l0: set<nat>)
    requires FsInv(disk0, fs.sb, addrs0, fs.others) && |fs.addrs| == NDIRECT + 1 && fs.addrs[NDIRECT] == addrs0[NDIRECT] != 0
    requires Freed(disk0, fs.sb, addrs0, fs.disk, NDIRECT) && LoggedBitmap(disk0, l0, fs.disk, fs.logged, fs.sb)
    modifies fs`disk, fs`logged
    ensures Freed(disk0, fs.sb, addrs0, fs.disk, MAXFILE + 1) && LoggedBitmap(disk0, l0, fs.disk, fs.logged, fs.sb)
  {
    hide FsInv, Freed, Slot, LoggedBitmap, Word;
    BlockBound(disk0, fs.sb, addrs0, fs.others);
    SlotsOwned(disk0, fs.sb, addrs0, fs.others);
    IndirectStays(disk0, fs.sb, addrs0, fs.others, fs.disk, NDIRECT);
    var ind := fs.addrs[NDIRECT];
    var data := fs.disk[ind];
    var j := 0;
    while j < NINDIRECT
      invariant 0 <= j <= NINDIRECT
      invariant Freed(disk0, fs.sb, addrs0, fs.disk, NDIRECT + j) && LoggedBitmap(disk0, l0, fs.disk, fs.logged, fs.sb)
    {
      EntrySlot(disk0, addrs0, j);
      FreeSlot(fs, Word(data, j), NDIRECT + j, disk0, addrs0, l0);
      j := j + 1;
    }
    LastSlot(disk0, addrs0);
    FreeSlot(fs, ind, MAXFILE, disk0, addrs0, l0);
  }

  lemma EntrySlot(disk: Disk, addrs: seq<nat>, j: nat)
    requires |addrs| == NDIRECT + 1 && j < NINDIRECT && addrs[NDIRECT] != 0 && addrs[NDIRECT] in disk
    ensures Slot(disk, addrs, NDIRECT + j) == Word(disk[addrs[NDIRECT]], j)
  {
    hide Word;
  }

  lemma LastSlot(disk: Disk, addrs: seq<nat>)
    requires |addrs| == NDIRECT + 1
    ensures Slot(disk, addrs, MAXFILE) == addrs[NDIRECT]
    ensures forall i :: 0 <= i < NDIRECT ==> Slot(disk, addrs, i) == addrs[i]
  {
  }

  // itrunc. Every block of the file becomes free and no other; the panic of
  // bfree is never reached. Only bitmap blocks and the inode are logged.
  method Itrunc(fs: Fs, iblock: nat)
    requires fs.Valid()
    modifies fs
    ensures fs.Valid() && fs.size == 0 && Contents(fs.disk, fs.addrs, 0) == [] && fs.addrs == NoAddrs()
    ensures fs.disk.Keys == old(fs.disk).Keys
    ensures forall b :: b in fs.disk && !BitmapBlock(fs.sb, b) ==> fs.disk[b] == old(fs.disk)[b]
    ensures forall b: nat :: b < fs.sb.size ==>
      (Used(fs.disk, fs.sb, b) <==> Used(old(fs.disk), fs.sb, b) && !Among(old(fs.disk), old(fs.addrs), MAXFILE + 1, b))
    ensures forall b :: b in fs.logged ==> b in old(fs.logged) || b == iblock || BitmapBlock(fs.sb, b)
    ensures Logs(old(fs.disk), old(fs.logged), fs.disk, fs.logged) && iblock in fs.logged
  {
    hide FsInv, Used, Slot, Among, BitmapBlock, LoggedBitmap, Logs;
    ghost var disk0, addrs0, l0 := fs.disk, fs.addrs, fs.logged;
    FreeDirect(fs);
    if fs.addrs[NDIRECT] != 0 {
      FreeIndirect(fs, disk0, addrs0, l0);
      fs.addrs := fs.addrs[NDIRECT := 0];
    } else {
      FreedRest(disk0, fs.sb, addrs0, fs.disk, NDIRECT);
    }
    FreedAll(disk0, fs.sb, addrs0, fs.others, fs.disk);
    assert fs.addrs == NoAddrs();
    fs.size := 0;
    LoggedInode(disk0, l0, fs.disk, fs.logged, fs.sb, iblock);
    // iupdate
    fs.logged := fs.logged + {iblock};
  }

  lemma LoggedInode(disk0: Disk, l0: set<nat>, disk: Disk, logged: set<nat>, sb: Super, iblock: nat)
    requires LoggedBitmap(disk0, l0, disk, logged, sb)
    ensures Logs(disk0, l0, disk, logged + {iblock})
    ensures forall b :: b in logged + {iblock} ==> b in l0 || b == iblock || BitmapBlock(sb, b)
  {
    hide BitmapBlock;
  }

  // The loop over the direct blocks.
  method FreeDirect(fs: Fs)
    requires fs.Valid()
    modifies fs`disk, fs`logged, fs`addrs
    ensures Freed(old(fs.disk), fs.sb, old(fs.addrs), fs.disk, NDIRECT) && LoggedBitmap(old(fs.disk), old(fs.logged), fs.disk, fs.logged, fs.sb)
    ensures |fs.addrs| == |old(fs.addrs)| == NDIRECT + 1 && fs.addrs[NDIRECT] == old(fs.addrs)[NDIRECT]
    ensures forall i :: 0 <= i < NDIRECT ==> fs.addrs[i] == 0
  {
    hide FsInv, Freed, Slot, LoggedBitmap;
    ghost var disk0, addrs0, l0 := fs.disk, fs.addrs, fs.logged;
    NothingLogged(disk0, l0, fs.sb);
    BlockBound(disk0, fs.sb, addrs0, fs.others);
    FreedStart(disk0, fs.sb, addrs0);
    LastSlot(disk0, addrs0);
    var i := 0;
    while i < NDIRECT
      invariant 0 <= i <= NDIRECT && |fs.addrs| == NDIRECT + 1
      invariant forall j :: i <= j <= NDIRECT ==> fs.addrs[j] == addrs0[j]
      invariant forall j :: 0 <= j < i ==> fs.addrs[j] == 0
      invariant Freed(disk0, fs.sb, addrs0, fs.disk, i) && LoggedBitmap(disk0, l0, fs.disk, fs.logged, fs.sb)
    {
      FreeSlot(fs, fs.addrs[i], i, disk0, addrs0, l0);
      fs.addrs := fs.addrs[i := 0];
      i := i + 1;
    }
  }

  // An empty file in any image.
  lemma EmptyFile(disk: Disk, sb: Super, others: set<nat>)
    requires Image(disk, sb, others)
    ensures FsInv(disk, sb, NoAddrs(), others) && Backed(disk, NoAddrs(), 0)
  {
    hide Image, Word;
  }

  // A small image: the boot block, a bitmap that marks it and itself, and two
  // free blocks.
  lemma SmallImage() returns (disk: Disk, sb: Super)
    ensures Image(disk, sb, {0, 1}) && !Used(disk, sb, 2) && !Used(disk, sb, 3) && sb.size == 4
  {
    hide Used, Bit, ByteIndex, BitIndex;
    sb := Super(4, 1);
    var bits := ThreeFirst();
    disk := map[0 := ZeroData(), 1 := bits, 2 := ZeroData(), 3 := ZeroData()];
    forall b: nat | b < 4 ensures Used(disk, sb, b) <==> b < 2 { UsedSmall(disk, sb, b); }
  }

  lemma ThreeFirst() returns (d: Data)
    ensures d[0] == 3
  {
    d := ZeroData()[0 := 3];
  }

  lemma UsedSmall(disk: Disk, sb: Super, b: nat)
    requires b < 4 && sb == Super(4, 1) && 1 in disk && disk[1][0] == 3
    ensures Used(disk, sb, b) <==> b < 2
  {
    assert ByteIndex(b) == 0 && BitIndex(b) == b;
    assert Bit(3, 0) && Bit(3, 1) && !Bit(3, 2) && !Bit(3, 3);
  }
}
