/** A write to a file through the log: iupdate puts the inode on the disk, and
    whatever a crash leaves, the file is found with its old bytes or with its
    new ones, and all other files are found as they were. */
module FileCrash {
  import opened Counting
  import opened Bits
  import opened FsBlocks
  import opened Inodes
  import opened FileSystem
  import opened FileContents
  import LogDisk
  import WriteAheadLog
  import W = Blocks

  // ---------- bytes and words ----------

  function Words(d: Data): (b: W.Block) {
    seq(256, j requires 0 <= j < 256 => Word(d, j))
  }

  function ByteOf(w: int, i: nat): (x: Byte) {
    if i == 0 then w % 0x100 else if i == 1 then w / 0x100 % 0x100 else if i == 2 then w / 0x1_0000 % 0x100
    else w / 0x100_0000 % 0x100
  }

  function Bytes(b: W.Block): (d: Data) {
    seq(1024, i requires 0 <= i < 1024 => ByteOf(b[i / 4], i % 4))
  }

  lemma DigitsOf(x: Byte, y: Byte, z: Byte, u: Byte)
    ensures var w := x as int + 0x100 * (y as int) + 0x1_0000 * (z as int) + 0x100_0000 * (u as int);
      ByteOf(w, 0) == x && ByteOf(w, 1) == y && ByteOf(w, 2) == z && ByteOf(w, 3) == u
  {
    var w := x as int + 0x100 * (y as int) + 0x1_0000 * (z as int) + 0x100_0000 * (u as int);
    assert w / 0x100 == y as int + 0x100 * (z as int) + 0x1_0000 * (u as int);
    assert w / 0x1_0000 == z as int + 0x100 * (u as int);
    assert w / 0x100_0000 == u as int;
  }

  lemma BytesOfWords(d: Data)
    ensures Bytes(Words(d)) == d
  {
    forall i | 0 <= i < 1024 ensures Bytes(Words(d))[i] == d[i] {
      var j := i / 4;
      DigitsOf(d[4 * j], d[4 * j + 1], d[4 * j + 2], d[4 * j + 3]);
      assert Words(d)[j] == Word(d, j) && i == 4 * j + i % 4;
    }
  }

  // ---------- the inode on the disk ----------

  const IPB: nat := 16

  // Word 2 of an inode is its size, the next 13 are its block references.
  function InodeSize(d: Data, slot: nat): (n: nat)
    requires slot < IPB
  {
    Word(d, 16 * slot + 2)
  }

  function InodeAddrs(d: Data, slot: nat): (addrs: seq<nat>)
    requires slot < IPB
    ensures |addrs| == NDIRECT + 1
  {
    seq<nat>(13, i requires 0 <= i < 13 => Word(d, 16 * slot + 3 + i))
  }

  ghost predicate Fits(addrs: seq<nat>, size: nat) {
    |addrs| == NDIRECT + 1 && size < TWO32 && forall i :: 0 <= i < |addrs| ==> addrs[i] < TWO32
  }

  // The memmove of iupdate, k words of it.
  function PutAddrs(d: Data, slot: nat, addrs: seq<nat>, k: nat): (r: Data)
    requires slot < IPB && k <= 13 && Fits(addrs, 0)
  {
    if k == 0 then d else PutWord(PutAddrs(d, slot, addrs, k - 1), 16 * slot + 2 + k, addrs[k - 1])
  }

  function PutInode(d: Data, slot: nat, addrs: seq<nat>, size: nat): (r: Data)
    requires slot < IPB && Fits(addrs, size)
  {
    PutAddrs(PutWord(d, 16 * slot + 2, size), slot, addrs, 13)
  }

  lemma {:induction false} AfterPutAddrs(d: Data, slot: nat, addrs: seq<nat>, k: nat, j: nat)
    requires slot < IPB && k <= 13 && Fits(addrs, 0) && j < NINDIRECT
    ensures Word(PutAddrs(d, slot, addrs, k), j) ==
      if 16 * slot + 3 <= j < 16 * slot + 3 + k then addrs[j - 16 * slot - 3] else Word(d, j)
  {
    hide Word, PutWord;
    if k > 0 {
      AfterPutAddrs(d, slot, addrs, k - 1, j);
      WordAfterPut(PutAddrs(d, slot, addrs, k - 1), 16 * slot + 2 + k, addrs[k - 1], j);
    }
  }

  lemma AfterPutInode(d: Data, slot: nat, addrs: seq<nat>, size: nat, j: nat)
    requires slot < IPB && Fits(addrs, size) && j < NINDIRECT
    ensures Word(PutInode(d, slot, addrs, size), j) ==
      if j == 16 * slot + 2 then size
      else if 16 * slot + 3 <= j < 16 * slot + 16 then addrs[j - 16 * slot - 3] else Word(d, j)
  {
    hide Word, PutWord, PutAddrs;
    AfterPutAddrs(PutWord(d, 16 * slot + 2, size), slot, addrs, 13, j);
    WordAfterPut(d, 16 * slot + 2, size, j);
  }

  // What iupdate stores is what ilock reads back, and the other inodes of the
  // block stay.
  lemma InodeRoundTrip(d: Data, slot: nat, addrs: seq<nat>, size: nat, other: nat)
    requires slot < IPB && Fits(addrs, size) && other < IPB
    ensures var r := PutInode(d, slot, addrs, size);
      if other == slot then InodeSize(r, other) == size && InodeAddrs(r, other) == addrs
      else InodeSize(r, other) == InodeSize(d, other) && InodeAddrs(r, other) == InodeAddrs(d, other)
  {
    hide Word, PutInode;
    var r := PutInode(d, slot, addrs, size);
    AfterPutInode(d, slot, addrs, size, 16 * other + 2);
    forall i | 0 <= i < 13 ensures InodeAddrs(r, other)[i] == if other == slot then addrs[i] else InodeAddrs(d, other)[i] {
      AfterPutInode(d, slot, addrs, size, 16 * other + 3 + i);
    }
  }

  // ---------- files on a disk ----------

  // The inode in this slot of block iblock is that of a file with contents c.
  ghost predicate File(disk: Disk, iblock: nat, slot: nat, c: seq<Byte>) {
    && iblock in disk && slot < IPB && InodeSize(disk[iblock], slot) <= MAXBYTES
    && Contents(disk, InodeAddrs(disk[iblock], slot), InodeSize(disk[iblock], slot)) == c
  }

  // Inode and blocks of the file are there, outside of the log.
  ghost predicate Sound(disk: Disk, l: LogDisk.Layout, iblock: nat, slot: nat) {
    && iblock in disk && slot < IPB && !LogDisk.InLog(l, iblock)
    && Backed(disk, InodeAddrs(disk[iblock], slot), InodeSize(disk[iblock], slot))
    && forall k :: 0 <= k <= MAXFILE ==> Outside(disk, l, Slot(disk, InodeAddrs(disk[iblock], slot), k))
  }

  ghost predicate Outside(disk: Disk, l: LogDisk.Layout, a: nat) {
    a != 0 ==> a in disk && !LogDisk.InLog(l, a)
  }

  // disk' has the same inode in the slot and the same data in its blocks.
  ghost predicate SameBlocks(disk: Disk, disk': Disk, iblock: nat, slot: nat) {
    && iblock in disk && iblock in disk' && slot < IPB
    && InodeSize(disk'[iblock], slot) == InodeSize(disk[iblock], slot)
    && InodeAddrs(disk'[iblock], slot) == InodeAddrs(disk[iblock], slot)
    && forall k :: 0 <= k <= MAXFILE ==> SameData(disk, disk', Slot(disk, InodeAddrs(disk[iblock], slot), k))
  }

  ghost predicate SameData(disk: Disk, disk': Disk, a: nat) {
    a != 0 ==> a in disk && a in disk' && disk'[a] == disk[a]
  }

  lemma SameAddr(disk: Disk, disk': Disk, addrs: seq<nat>, k: nat)
    requires |addrs| == NDIRECT + 1 && k <= MAXFILE && SameData(disk, disk', Slot(disk, addrs, MAXFILE))
    ensures Slot(disk', addrs, k) == Slot(disk, addrs, k)
  {
    hide Word;
  }

  lemma SameFile(disk: Disk, disk': Disk, l: LogDisk.Layout, iblock: nat, slot: nat, c: seq<Byte>)
    requires Sound(disk, l, iblock, slot) && SameBlocks(disk, disk', iblock, slot) && File(disk, iblock, slot, c)
    ensures Sound(disk', l, iblock, slot) && File(disk', iblock, slot, c)
  {
    var addrs, n := InodeAddrs(disk[iblock], slot), InodeSize(disk[iblock], slot);
    forall k | 0 <= k <= MAXFILE ensures Slot(disk', addrs, k) == Slot(disk, addrs, k) { SameAddr(disk, disk', addrs, k); }
    forall bn | 0 <= bn < MAXFILE ensures Addr(disk', addrs, bn) == Addr(disk, addrs, bn) {
      assert Slot(disk', addrs, bn) == Slot(disk, addrs, bn);
    }
    hide Addr, InodeAddrs, InodeSize;
    forall i | 0 <= i < n ensures ByteAt(disk', addrs, i) == ByteAt(disk, addrs, i) {
      assert SameData(disk, disk', Slot(disk, addrs, i / BSIZE));
    }
  }

  // ---------- what the log keeps ----------

  // The disk of the file system as it is in the blocks of h.
  ghost function Stored(h: W.Disk): (disk: Disk) {
    map k | k in h :: Bytes(h[k])
  }

  // The blocks outside of the log are those of the file system.
  ghost predicate Shows(d: W.Disk, l: LogDisk.Layout, disk: Disk) {
    forall k :: k in disk && !LogDisk.InLog(l, k) ==> k in d && Bytes(d[k]) == disk[k]
  }

  lemma FileShown(d: W.Disk, l: LogDisk.Layout, disk: Disk, iblock: nat, slot: nat, c: seq<Byte>)
    requires Shows(d, l, disk) && Sound(disk, l, iblock, slot) && File(disk, iblock, slot, c)
    ensures File(Stored(LogDisk.Home(d, l)), iblock, slot, c)
  {
    hide Bytes, Slot, InodeAddrs, InodeSize, Backed, File;
    var disk' := Stored(LogDisk.Home(d, l));
    assert forall k :: k in disk && !LogDisk.InLog(l, k) ==> k in disk' && disk'[k] == disk[k];
    forall k | 0 <= k <= MAXFILE ensures SameData(disk, disk', Slot(disk, InodeAddrs(disk[iblock], slot), k)) {
      assert Outside(disk, l, Slot(disk, InodeAddrs(disk[iblock], slot), k));
    }
    SameFile(disk, disk', l, iblock, slot, c);
  }

  // The disk after a crash at write j of the commit, crashes in the recoveries
  // as js says, and a recovery that finishes.
  ghost function Recovered(d: W.Disk, view: W.Disk, dirty: map<nat, nat>, l: LogDisk.Layout, bs: seq<nat>, j: nat, js: seq<nat>): W.Disk
    requires WriteAheadLog.ReadyToCommit(d, view, dirty, l, bs) && j <= 2 * |bs| + 2
  {
    WriteAheadLog.CrashDuringCommit(d, view, dirty, l, bs, j, js);
    var c := LogDisk.AfterCrashes(LogDisk.CommitDisk(d, l, bs, WriteAheadLog.Values(view, bs), j), l, js);
    LogDisk.RecoveryDisk(c, l, |LogDisk.Logged(c, l)| + 1)
  }

  // A file, in disk0 before the transaction and in disk1 after it, is found
  // as it was or as it was to become.
  lemma CrashedFile(d: W.Disk, view: W.Disk, dirty: map<nat, nat>, l: LogDisk.Layout, bs: seq<nat>, j: nat, js: seq<nat>,
                    disk0: Disk, disk1: Disk, iblock: nat, slot: nat, c0: seq<Byte>, c1: seq<Byte>)
    requires WriteAheadLog.ReadyToCommit(d, view, dirty, l, bs) && j <= 2 * |bs| + 2
    requires Shows(d, l, disk0) && Sound(disk0, l, iblock, slot) && File(disk0, iblock, slot, c0)
    requires Shows(view, l, disk1) && Sound(disk1, l, iblock, slot) && File(disk1, iblock, slot, c1)
    ensures File(Stored(LogDisk.Home(Recovered(d, view, dirty, l, bs, j, js), l)), iblock, slot, if j <= |bs| then c0 else c1)
  {
    hide Shows, Sound, File, Stored, LogDisk.Home, WriteAheadLog.ReadyToCommit, LogDisk.CommitDisk, LogDisk.RecoveryDisk;
    WriteAheadLog.CrashDuringCommit(d, view, dirty, l, bs, j, js);
    FileShown(d, l, disk0, iblock, slot, c0);
    FileShown(view, l, disk1, iblock, slot, c1);
  }

  // ---------- a write, its transaction and a crash ----------

  // The log is apart from the bitmap and from all files.
  ghost predicate LogApart(l: LogDisk.Layout, sb: Super, others: set<nat>) {
    forall k :: LogDisk.InLog(l, k) ==> k in others && !BitmapBlock(sb, k)
  }

  // Block iblock is one of the inode blocks, and its slot has this inode.
  ghost predicate InodeAt(disk: Disk, sb: Super, others: set<nat>, l: LogDisk.Layout, iblock: nat, slot: nat,
                          addrs: seq<nat>, size: nat) {
    && iblock in disk && iblock in others && !BitmapBlock(sb, iblock) && !LogDisk.InLog(l, iblock) && slot < IPB
    && InodeSize(disk[iblock], slot) == size && InodeAddrs(disk[iblock], slot) == addrs
  }

  lemma InodeSound(disk: Disk, sb: Super, addrs: seq<nat>, others: set<nat>, size: nat, l: LogDisk.Layout, iblock: nat, slot: nat)
    requires FsInv(disk, sb, addrs, others) && Backed(disk, addrs, size) && LogApart(l, sb, others)
    requires InodeAt(disk, sb, others, l, iblock, slot, addrs, size)
    ensures Sound(disk, l, iblock, slot) && File(disk, iblock, slot, Contents(disk, addrs, size))
  {
    hide Used, Word, InodeSize, InodeAddrs, BitmapBlock, Slot;
    forall k | 0 <= k <= MAXFILE ensures Outside(disk, l, Slot(disk, addrs, k)) {
      if Slot(disk, addrs, k) != 0 { assert OwnedBlock(disk, sb, others, Slot(disk, addrs, k)); }
    }
  }

  lemma InodeFits(disk: Disk, sb: Super, addrs: seq<nat>, others: set<nat>, size: nat)
    requires FsInv(disk, sb, addrs, others) && Backed(disk, addrs, size)
    ensures Fits(addrs, size)
  {
    hide Used, Word, BBlock;
    forall i | 0 <= i < 13 ensures addrs[i] < TWO32 {
      assert Slot(disk, addrs, if i < NDIRECT then i else MAXFILE) == addrs[i];
      if addrs[i] != 0 { assert OwnedBlock(disk, sb, others, addrs[i]); }
    }
  }

  lemma UseStays(disk: Disk, sb: Super, iblock: nat, data: Data, b: nat)
    requires iblock in disk && !BitmapBlock(sb, iblock) && b < sb.size
    ensures Used(disk[iblock := data], sb, b) <==> Used(disk, sb, b)
  {
    hide Bit, ByteIndex, BitIndex, BBlock;
    assert BBlock(sb, b) != iblock;
  }

  lemma SlotsStay(disk: Disk, sb: Super, addrs: seq<nat>, others: set<nat>, iblock: nat, data: Data)
    requires FsInv(disk, sb, addrs, others) && iblock in disk && iblock in others
    ensures SameSlots(disk, addrs, disk[iblock := data], addrs)
  {
    hide Used, Word;
    assert Slot(disk, addrs, MAXFILE) == addrs[NDIRECT];
    hide Slot;
    if addrs[NDIRECT] != 0 { assert OwnedBlock(disk, sb, others, Slot(disk, addrs, MAXFILE)); }
    SameIndirect(disk, disk[iblock := data], addrs);
  }

  lemma SameInv(disk: Disk, sb: Super, addrs: seq<nat>, others: set<nat>, disk': Disk)
    requires FsInv(disk, sb, addrs, others) && SameSlots(disk, addrs, disk', addrs) && disk'.Keys == disk.Keys
    requires forall b :: 0 <= b < sb.size ==> (Used(disk', sb, b) <==> Used(disk, sb, b))
    ensures FsInv(disk', sb, addrs, others)
  {
    hide Slot, Used, BBlock;
    assert forall k :: 0 <= k <= MAXFILE && Slot(disk, addrs, k) != 0 ==> OwnedBlock(disk, sb, others, Slot(disk, addrs, k));
  }

  // A change of an inode block leaves the file alone.
  lemma InodeWritten(disk: Disk, sb: Super, addrs: seq<nat>, others: set<nat>, size: nat, iblock: nat, data: Data)
    requires FsInv(disk, sb, addrs, others) && Backed(disk, addrs, size)
    requires iblock in disk && iblock in others && !BitmapBlock(sb, iblock)
    ensures var disk' := disk[iblock := data];
      && FsInv(disk', sb, addrs, others) && Backed(disk', addrs, size)
      && Contents(disk', addrs, size) == Contents(disk, addrs, size)
  {
    hide Used, BitmapBlock, FsInv, Backed, Contents, SameSlots;
    var disk' := disk[iblock := data];
    forall b | 0 <= b < sb.size ensures Used(disk', sb, b) <==> Used(disk, sb, b) { UseStays(disk, sb, iblock, data, b); }
    SlotsStay(disk, sb, addrs, others, iblock, data);
    SameInv(disk, sb, addrs, others, disk');
    BackedSize(disk, addrs, size);
    SameContents(disk, sb, addrs, others, size, iblock, data);
  }

  lemma SameContents(disk: Disk, sb: Super, addrs: seq<nat>, others: set<nat>, size: nat, iblock: nat, data: Data)
    requires FsInv(disk, sb, addrs, others) && Backed(disk, addrs, size) && iblock in disk && iblock in others
    requires SameSlots(disk, addrs, disk[iblock := data], addrs)
    ensures Backed(disk[iblock := data], addrs, size)
    ensures Contents(disk[iblock := data], addrs, size) == Contents(disk, addrs, size)
  {
    hide Slot, Addr, Used;
    var disk' := disk[iblock := data];
    SlotIsAddr(disk, addrs);
    SlotIsAddr(disk', addrs);
    forall bn | 0 <= bn < MAXFILE ensures Addr(disk', addrs, bn) == Addr(disk, addrs, bn) {
      assert Slot(disk', addrs, bn) == Slot(disk, addrs, bn);
    }
    forall i | 0 <= i < size ensures ByteAt(disk', addrs, i) == ByteAt(disk, addrs, i) {
      assert OwnedBlock(disk, sb, others, Slot(disk, addrs, i / BSIZE));
    }
  }

  // The blocks of s in some order.
  ghost function SeqOf(s: set<nat>): (bs: seq<nat>)
    ensures |bs| == |s| && Elems(bs) == s
  {
    if s == {} then []
    else
      var x :| x in s;
      var rest := SeqOf(s - {x});
      assert forall y :: y in [x] + rest <==> y == x || y in Elems(rest);
      [x] + rest
  }

  // What the cache shows once the blocks t have the contents they have in disk.
  ghost function ViewOf(d: W.Disk, disk: Disk, t: set<nat>): W.Disk {
    map k | k in d :: if k in t && k in disk then Words(disk[k]) else d[k]
  }

  ghost function DirtyOf(t: set<nat>): map<nat, nat> {
    map k | k in t :: 0
  }

  // Blocks that are logged are there, outside of the log.
  ghost predicate AtHome(t: set<nat>, disk: Disk, l: LogDisk.Layout) {
    forall b :: b in t ==> b in disk && !LogDisk.InLog(l, b)
  }

  lemma LoggedAtHome(disk0: Disk, disk: Disk, t: set<nat>, sb: Super, others: set<nat>, l: LogDisk.Layout, iblock: nat)
    requires Confined(disk0, {iblock}, disk, t, sb, others) && LogApart(l, sb, others)
    requires iblock in disk0 && !LogDisk.InLog(l, iblock)
    ensures AtHome(t, disk, l)
  {
    hide BitmapBlock;
  }

  lemma ViewShows(d: W.Disk, l: LogDisk.Layout, disk0: Disk, disk: Disk, t: set<nat>)
    requires Shows(d, l, disk0) && Logs(disk0, {}, disk, t)
    ensures Shows(ViewOf(d, disk, t), l, disk)
  {
    hide Words, Bytes, LogDisk.InLog;
    forall k | k in disk && !LogDisk.InLog(l, k) ensures k in d && Bytes(ViewOf(d, disk, t)[k]) == disk[k] {
      BytesOfWords(disk[k]);
    }
  }

  lemma BlocksAtHome(d: W.Disk, l: LogDisk.Layout, disk: Disk, t: set<nat>)
    requires AtHome(t, disk, l) && forall k :: k in disk && !LogDisk.InLog(l, k) ==> k in d
    ensures LogDisk.HomeBlocks(d, l, SeqOf(t))
  {
    hide SeqOf, LogDisk.InLog;
    var bs := SeqOf(t);
    forall i | 0 <= i < |bs| ensures bs[i] in d && !LogDisk.InLog(l, bs[i]) {
      assert bs[i] in Elems(bs);
    }
  }

  // The operation's blocks make a transaction, and the cache shows its result.
  lemma TransactionOf(d: W.Disk, l: LogDisk.Layout, disk0: Disk, disk: Disk, t: set<nat>)
    requires Shows(d, l, disk0) && LogDisk.Transaction(d, l, [], []) && Logs(disk0, {}, disk, t) && AtHome(t, disk, l)
    requires |t| <= 10 < l.size
    ensures WriteAheadLog.ReadyToCommit(d, ViewOf(d, disk, t), DirtyOf(t), l, SeqOf(t))
    ensures Shows(ViewOf(d, disk, t), l, disk)
  {
    hide Words, Bytes, LogDisk.Transaction, LogDisk.InLog, SeqOf, LogDisk.HomeBlocks, WriteAheadLog.ReadyToCommit, AtHome, Shows,
      Elems;
    ShowsKeys(d, l, disk0, disk, t);
    BlocksAtHome(d, l, disk, t);
    ViewShows(d, l, disk0, disk, t);
    assert ViewOf(d, disk, t).Keys == d.Keys;
    assert DirtyOf(t).Keys == t;
    ReadyFrom(d, ViewOf(d, disk, t), DirtyOf(t), l, SeqOf(t));
  }

  lemma ShowsKeys(d: W.Disk, l: LogDisk.Layout, disk0: Disk, disk: Disk, t: set<nat>)
    requires Shows(d, l, disk0) && Logs(disk0, {}, disk, t)
    ensures forall k :: k in disk && !LogDisk.InLog(l, k) ==> k in d
  {
    hide Bytes, LogDisk.InLog;
  }

  lemma ReadyFrom(d: W.Disk, view: W.Disk, dirty: map<nat, nat>, l: LogDisk.Layout, bs: seq<nat>)
    requires view.Keys == d.Keys && LogDisk.HomeBlocks(d, l, bs) && LogDisk.Transaction(d, l, [], []) && |bs| <= 10 < l.size
    requires dirty.Keys == Elems(bs) && forall k :: k in d && k !in dirty ==> view[k] == d[k]
    ensures WriteAheadLog.ReadyToCommit(d, view, dirty, l, bs)
  {
    hide LogDisk.LogOk, LogDisk.Logged, LogDisk.InLog, Elems;
  }

  lemma ConfinedKeys(disk0: Disk, disk: Disk, t: set<nat>, sb: Super, others: set<nat>, iblock: nat)
    requires Confined(disk0, {iblock}, disk, t, sb, others)
    requires iblock in disk0 && iblock in others && !BitmapBlock(sb, iblock)
    ensures iblock in disk && disk[iblock] == disk0[iblock]
  {
    hide BitmapBlock;
  }

  lemma LogsInode(disk0: Disk, disk: Disk, t: set<nat>, iblock: nat, data: Data)
    requires Logs(disk0, {}, disk, t) && iblock in t && iblock in disk
    ensures Logs(disk0, {}, disk[iblock := data], t)
  {
  }

  lemma AtHomeStill(t: set<nat>, disk: Disk, iblock: nat, data: Data, l: LogDisk.Layout)
    requires AtHome(t, disk, l)
    ensures AtHome(t, disk[iblock := data], l)
  {
    hide LogDisk.InLog;
  }

  // Other owners' blocks and the other inodes are as they were.
  ghost predicate Updated(disk0: Disk, disk: Disk, sb: Super, others: set<nat>, iblock: nat, slot: nat) {
    && disk.Keys == disk0.Keys && iblock in disk0
    && (forall b :: b in others && b in disk0 && !BitmapBlock(sb, b) && b != iblock ==> disk[b] == disk0[b])
    && (forall o: nat :: o < IPB && o != slot ==>
         InodeSize(disk[iblock], o) == InodeSize(disk0[iblock], o) && InodeAddrs(disk[iblock], o) == InodeAddrs(disk0[iblock], o))
  }

  lemma InodeUpdated(disk0: Disk, disk: Disk, t: set<nat>, sb: Super, others: set<nat>, iblock: nat, slot: nat,
                     addrs: seq<nat>, size: nat)
    requires Confined(disk0, {iblock}, disk, t, sb, others) && iblock in disk0 && disk[iblock] == disk0[iblock]
    requires slot < IPB && Fits(addrs, size)
    ensures Updated(disk0, disk[iblock := PutInode(disk[iblock], slot, addrs, size)], sb, others, iblock, slot)
  {
    hide BitmapBlock, PutInode, InodeSize, InodeAddrs;
    forall o: nat | o < IPB && o != slot
      ensures var r := PutInode(disk[iblock], slot, addrs, size);
        InodeSize(r, o) == InodeSize(disk0[iblock], o) && InodeAddrs(r, o) == InodeAddrs(disk0[iblock], o)
    {
      InodeRoundTrip(disk[iblock], slot, addrs, size, o);
    }
  }

  // The inode in this slot of block ib is of another file than that in slot
  // of iblock, with blocks of its own.
  ghost predicate OtherFile(disk: Disk, sb: Super, others: set<nat>, iblock: nat, slot: nat, ib: nat, sl: nat) {
    && ib in disk && sl < IPB && (ib, sl) != (iblock, slot) && Theirs(sb, others, ib)
    && forall k :: 0 <= k <= MAXFILE ==>
         var a := Slot(disk, InodeAddrs(disk[ib], sl), k); a != 0 ==> a != iblock && Theirs(sb, others, a)
  }

  ghost predicate Theirs(sb: Super, others: set<nat>, a: nat) {
    a in others && !BitmapBlock(sb, a)
  }

  lemma OtherKept(disk0: Disk, disk: Disk, sb: Super, others: set<nat>, l: LogDisk.Layout, iblock: nat, slot: nat,
                  ib: nat, sl: nat, c: seq<Byte>)
    requires Updated(disk0, disk, sb, others, iblock, slot) && OtherFile(disk0, sb, others, iblock, slot, ib, sl)
    requires Sound(disk0, l, ib, sl) && File(disk0, ib, sl, c)
    ensures Sound(disk, l, ib, sl) && File(disk, ib, sl, c)
  {
    hide BitmapBlock, InodeSize, InodeAddrs, Slot, Backed;
    forall k | 0 <= k <= MAXFILE ensures SameData(disk0, disk, Slot(disk0, InodeAddrs(disk0[ib], sl), k)) {
      assert Outside(disk0, l, Slot(disk0, InodeAddrs(disk0[ib], sl), k));
    }
    SameFile(disk0, disk, l, ib, sl, c);
  }

  // writei and iupdate of at most three blocks as one transaction over a disk
  // d with an empty log. Returned are the blocks of the transaction, and what
  // the cache shows when it is to be committed.
  method WriteFile(fs: Fs, off: nat, src: seq<Byte>, iblock: nat, slot: nat, ghost d: W.Disk, ghost l: LogDisk.Layout)
    returns (r: int, ghost bs: seq<nat>, ghost view: W.Disk, ghost dirty: map<nat, nat>)
    requires fs.Valid() && Backed(fs.disk, fs.addrs, fs.size) && off < TWO32 && |src| <= 3 * BSIZE && fs.logged == {}
    requires LogApart(l, fs.sb, fs.others) && InodeAt(fs.disk, fs.sb, fs.others, l, iblock, slot, fs.addrs, fs.size)
    requires Shows(d, l, fs.disk) && LogDisk.Transaction(d, l, [], []) && l.size > 10
    modifies fs
    ensures fs.Valid() && Backed(fs.disk, fs.addrs, fs.size)
    ensures r == -1 <==> off > old(fs.size) || off + |src| > MAXBYTES
    ensures r == -1 ==> fs.disk == old(fs.disk) && fs.addrs == old(fs.addrs) && fs.size == old(fs.size)
    ensures r != -1 ==> 0 <= r <= |src|
    ensures r != -1 ==> (Contents(fs.disk, fs.addrs, fs.size) ==
                         Splice(Contents(old(fs.disk), old(fs.addrs), old(fs.size)), off, src[..r]))
    ensures r != -1 ==> InodeAt(fs.disk, fs.sb, fs.others, l, iblock, slot, fs.addrs, fs.size)
    ensures r != -1 ==> WriteAheadLog.ReadyToCommit(d, view, dirty, l, bs) && Elems(bs) == fs.logged
    ensures r != -1 ==> Shows(view, l, fs.disk)
    ensures r != -1 ==> Updated(old(fs.disk), fs.disk, fs.sb, fs.others, iblock, slot)
  {
    hide FsInv, Backed, Used, Contents, Splice, Extends, Logs, Slot, LastPosition, Confined, LogApart, Shows, PutInode,
      InodeSize, InodeAddrs, LogDisk.Transaction, WriteAheadLog.ReadyToCommit, AtHome, SeqOf, ViewOf, DirtyOf, BitmapBlock, Updated;
    ghost var disk0 := fs.disk;
    bs, view, dirty := [], d, map[];
    ghost var s;
    r, s := Writei(fs, off, src, iblock);
    if r == -1 { return; }
    ghost var disk1, t := fs.disk, fs.logged;
    SubsetSize(t, s);
    assert {} + {iblock} == {iblock};
    ConfinedKeys(disk0, disk1, t, fs.sb, fs.others, iblock);
    InodeFits(disk1, fs.sb, fs.addrs, fs.others, fs.size);
    // iupdate
    ghost var data := PutInode(disk1[iblock], slot, fs.addrs, fs.size);
    InodeWritten(disk1, fs.sb, fs.addrs, fs.others, fs.size, iblock, data);
    InodeRoundTrip(disk1[iblock], slot, fs.addrs, fs.size, slot);
    fs.disk := fs.disk[iblock := PutInode(fs.disk[iblock], slot, fs.addrs, fs.size)];
    LogsInode(disk0, disk1, t, iblock, data);
    LoggedAtHome(disk0, disk1, t, fs.sb, fs.others, l, iblock);
    AtHomeStill(t, disk1, iblock, data, l);
    TransactionOf(d, l, disk0, fs.disk, t);
    InodeUpdated(disk0, disk1, t, fs.sb, fs.others, iblock, slot, fs.addrs, fs.size);
    bs, view, dirty := SeqOf(t), ViewOf(d, fs.disk, t), DirtyOf(t);
  }

  // The same write, and a crash at any write of its commit followed by any
  // number of crashes in recovery: the file has its old bytes or the new ones.
  method CrashSafeWrite(fs: Fs, off: nat, src: seq<Byte>, iblock: nat, slot: nat, ghost d: W.Disk, ghost l: LogDisk.Layout)
    returns (r: int, ghost bs: seq<nat>, ghost view: W.Disk, ghost dirty: map<nat, nat>)
    requires fs.Valid() && Backed(fs.disk, fs.addrs, fs.size) && off < TWO32 && |src| <= 3 * BSIZE && fs.logged == {}
    requires LogApart(l, fs.sb, fs.others) && InodeAt(fs.disk, fs.sb, fs.others, l, iblock, slot, fs.addrs, fs.size)
    requires Shows(d, l, fs.disk) && LogDisk.Transaction(d, l, [], []) && l.size > 10
    modifies fs
    ensures r == -1 <==> off > old(fs.size) || off + |src| > MAXBYTES
    ensures r != -1 ==> 0 <= r <= |src| && WriteAheadLog.ReadyToCommit(d, view, dirty, l, bs)
    ensures r != -1 ==> forall j: nat, js :: j <= 2 * |bs| + 2 ==>
      File(Stored(LogDisk.Home(Recovered(d, view, dirty, l, bs, j, js), l)), iblock, slot,
           if j <= |bs| then Contents(old(fs.disk), old(fs.addrs), old(fs.size))
           else Splice(Contents(old(fs.disk), old(fs.addrs), old(fs.size)), off, src[..r]))
    ensures r != -1 ==> forall j: nat, js, ib: nat, sl: nat, c ::
      j <= 2 * |bs| + 2 && OtherFile(old(fs.disk), fs.sb, fs.others, iblock, slot, ib, sl) &&
      Sound(old(fs.disk), l, ib, sl) && File(old(fs.disk), ib, sl, c) ==>
      File(Stored(LogDisk.Home(Recovered(d, view, dirty, l, bs, j, js), l)), ib, sl, c)
  {
    hide FsInv, Backed, Contents, Splice, LogApart, Shows, InodeAt, LogDisk.Transaction, WriteAheadLog.ReadyToCommit, Recovered,
      Sound, File, OtherFile, Updated, Stored, LogDisk.Home;
    ghost var disk0 := fs.disk;
    BackedSize(disk0, fs.addrs, fs.size);
    ghost var c0 := Contents(disk0, fs.addrs, fs.size);
    InodeSound(disk0, fs.sb, fs.addrs, fs.others, fs.size, l, iblock, slot);
    r, bs, view, dirty := WriteFile(fs, off, src, iblock, slot, d, l);
    if r == -1 { return; }
    BackedSize(fs.disk, fs.addrs, fs.size);
    ghost var c1 := Contents(fs.disk, fs.addrs, fs.size);
    InodeSound(fs.disk, fs.sb, fs.addrs, fs.others, fs.size, l, iblock, slot);
    forall j: nat, js | j <= 2 * |bs| + 2
      ensures File(Stored(LogDisk.Home(Recovered(d, view, dirty, l, bs, j, js), l)), iblock, slot, if j <= |bs| then c0 else c1)
    {
      CrashedFile(d, view, dirty, l, bs, j, js, disk0, fs.disk, iblock, slot, c0, c1);
    }
    forall j: nat, js, ib: nat, sl: nat, c | j <= 2 * |bs| + 2 && OtherFile(disk0, fs.sb, fs.others, iblock, slot, ib, sl) &&
      Sound(disk0, l, ib, sl) && File(disk0, ib, sl, c)
      ensures File(Stored(LogDisk.Home(Recovered(d, view, dirty, l, bs, j, js), l)), ib, sl, c)
    {
      OtherKept(disk0, fs.disk, fs.sb, fs.others, l, iblock, slot, ib, sl, c);
      CrashedFile(d, view, dirty, l, bs, j, js, disk0, fs.disk, ib, sl, c, c);
    }
  }
}
