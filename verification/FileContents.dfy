/** readi and writei of kernel/fs.c against a flat sequence of bytes. */
module FileContents {
  import opened Counting
  import opened FsBlocks
  import opened Inodes
  import opened FileSystem

  const MAXBYTES: nat := 274432

  // Byte i of the file.
  ghost function ByteAt(disk: Disk, addrs: seq<nat>, i: nat): (x: Byte)
    requires |addrs| == NDIRECT + 1 && i < MAXBYTES
  {
    var a := Addr(disk, addrs, i / BSIZE);
    if a in disk then disk[a][i % BSIZE] else 0
  }

  // The file's first size bytes all have a block.
  ghost predicate Backed(disk: Disk, addrs: seq<nat>, size: nat) {
    |addrs| == NDIRECT + 1 && size <= MAXBYTES &&
    forall bn :: 0 <= bn < MAXFILE && bn * BSIZE < size ==> Addr(disk, addrs, bn) != 0
  }

  ghost function Contents(disk: Disk, addrs: seq<nat>, size: nat): (c: seq<Byte>)
    requires |addrs| == NDIRECT + 1 && size <= MAXBYTES
    ensures |c| == size && forall i :: 0 <= i < size ==> c[i] == ByteAt(disk, addrs, i)
  {
    seq(size, i requires 0 <= i < size => ByteAt(disk, addrs, i))
  }

  // c with d written over it at off.
  ghost function Splice(c: seq<Byte>, off: nat, d: seq<Byte>): (r: seq<Byte>)
    requires off <= |c|
  {
    c[..off] + d + (if off + |d| < |c| then c[off + |d|..] else [])
  }

  // Bytes from .. to of a block replaced.
  function Patched(data: Data, from: nat, chunk: seq<Byte>): (r: Data)
    requires from + |chunk| <= BSIZE
    ensures forall i :: 0 <= i < BSIZE ==> r[i] == if from <= i < from + |chunk| then chunk[i - from] else data[i]
  {
    data[..from] + chunk + data[from + |chunk|..]
  }

  // What a chunk written at off, within one block, does to the file.
  ghost predicate Wrote(disk0: Disk, addrs0: seq<nat>, disk: Disk, addrs: seq<nat>, off: nat, chunk: seq<Byte>) {
    && |addrs0| == NDIRECT + 1 && |addrs| == NDIRECT + 1
    && (forall i :: 0 <= i < MAXBYTES && off <= i < off + |chunk| ==> ByteAt(disk, addrs, i) == chunk[i - off])
    && (forall i :: 0 <= i < MAXBYTES && !(off <= i < off + |chunk|) && Addr(disk0, addrs0, i / BSIZE) != 0 ==>
         ByteAt(disk, addrs, i) == ByteAt(disk0, addrs0, i))
    && (forall k :: 0 <= k < MAXFILE && Addr(disk0, addrs0, k) != 0 ==> Addr(disk, addrs, k) != 0)
    && (off / BSIZE < MAXFILE ==> Addr(disk, addrs, off / BSIZE) != 0)
  }

  // bmap shows in no byte of a block that was there.
  lemma GrewBytes(disk0: Disk, addrs0: seq<nat>, disk: Disk, addrs: seq<nat>, bn: nat, a: nat, i: nat)
    requires Grew(disk0, addrs0, disk, addrs, bn, a) && i < MAXBYTES && Addr(disk0, addrs0, i / BSIZE) != 0
    ensures Addr(disk, addrs, i / BSIZE) == Addr(disk0, addrs0, i / BSIZE)
    ensures ByteAt(disk, addrs, i) == ByteAt(disk0, addrs0, i)
  {
    hide Addr;
  }

  lemma PatchedBytes(disk: Disk, sb: Super, addrs: seq<nat>, others: set<nat>, off: nat, chunk: seq<Byte>, i: nat)
    requires FsInv(disk, sb, addrs, others) && off < MAXBYTES && off % BSIZE + |chunk| <= BSIZE && i < MAXBYTES
    requires Addr(disk, addrs, off / BSIZE) != 0 && Addr(disk, addrs, off / BSIZE) in disk
    ensures var a := Addr(disk, addrs, off / BSIZE);
      var disk' := disk[a := Patched(disk[a], off % BSIZE, chunk)];
      && (forall k :: 0 <= k < MAXFILE ==> Addr(disk', addrs, k) == Addr(disk, addrs, k))
      && ByteAt(disk', addrs, i) == if off <= i < off + |chunk| then chunk[i - off] else ByteAt(disk, addrs, i)
  {
    hide Addr, Slot, FsInv, Word;
    BlockBound(disk, sb, addrs, others);
    var a := Addr(disk, addrs, off / BSIZE);
    var data := Patched(disk[a], off % BSIZE, chunk);
    var disk' := disk[a := data];
    SlotsOwned(disk, sb, addrs, others);
    DataWritten(disk, sb, addrs, others, a, data);
    SlotIsAddr(disk, addrs);
    SlotIsAddr(disk', addrs);
    ByteInChunk(off, |chunk|, i);
    if i / BSIZE == off / BSIZE {
      assert ByteAt(disk', addrs, i) == data[i % BSIZE];
    } else {
      OtherPosition(disk, sb, addrs, others, i / BSIZE, off / BSIZE);
    }
  }

  lemma ByteInChunk(off: nat, n: nat, i: nat)
    requires off % BSIZE + n <= BSIZE
    ensures i / BSIZE == off / BSIZE ==>
      (off <= i < off + n <==> off % BSIZE <= i % BSIZE < off % BSIZE + n) && i - off == i % BSIZE - off % BSIZE
    ensures i / BSIZE != off / BSIZE ==> !(off <= i < off + n)
  {
  }

  lemma OtherPosition(disk: Disk, sb: Super, addrs: seq<nat>, others: set<nat>, k: nat, l: nat)
    requires FsInv(disk, sb, addrs, others) && k < MAXFILE && l < MAXFILE && k != l && Addr(disk, addrs, l) != 0
    ensures Addr(disk, addrs, k) != Addr(disk, addrs, l)
  {
    hide Addr, Used;
    SlotIsAddr(disk, addrs);
    if k < l {
      assert Slot(disk, addrs, k) != 0 ==> Slot(disk, addrs, k) != Slot(disk, addrs, l);
    } else {
      assert Slot(disk, addrs, l) != Slot(disk, addrs, k);
    }
  }

  // bmap and the copy into the block, together.
  lemma ChunkWritten(disk0: Disk, addrs0: seq<nat>, disk: Disk, sb: Super, addrs: seq<nat>, others: set<nat>,
                     off: nat, chunk: seq<Byte>, a: nat)
    requires FsInv(disk, sb, addrs, others) && off < MAXBYTES && off % BSIZE + |chunk| <= BSIZE
    requires Grew(disk0, addrs0, disk, addrs, off / BSIZE, a) && a != 0 && a in disk
    ensures FsInv(disk[a := Patched(disk[a], off % BSIZE, chunk)], sb, addrs, others)
    ensures Wrote(disk0, addrs0, disk[a := Patched(disk[a], off % BSIZE, chunk)], addrs, off, chunk)
  {
    var disk' := disk[a := Patched(disk[a], off % BSIZE, chunk)];
    assert Addr(disk, addrs, off / BSIZE) == a;
    hide Addr, Slot, FsInv, Word, Patched, ByteAt;
    SlotsOwned(disk, sb, addrs, others);
    DataWritten(disk, sb, addrs, others, a, Patched(disk[a], off % BSIZE, chunk));
    forall i | 0 <= i < MAXBYTES
      ensures off <= i < off + |chunk| ==> ByteAt(disk', addrs, i) == chunk[i - off]
      ensures !(off <= i < off + |chunk|) && Addr(disk0, addrs0, i / BSIZE) != 0 ==>
        ByteAt(disk', addrs, i) == ByteAt(disk0, addrs0, i)
    {
      PatchedBytes(disk, sb, addrs, others, off, chunk, i);
      if Addr(disk0, addrs0, i / BSIZE) != 0 { GrewBytes(disk0, addrs0, disk, addrs, off / BSIZE, a, i); }
    }
    PatchedBytes(disk, sb, addrs, others, off, chunk, 0);
  }

  function Min(a: nat, b: nat): nat {
    if a < b then a else b
  }

  lemma BackedAt(disk: Disk, addrs: seq<nat>, size: nat, off: nat)
    requires Backed(disk, addrs, size) && off < size
    ensures off / BSIZE < MAXFILE && Addr(disk, addrs, off / BSIZE) != 0
  {
    hide Addr;
    assert off / BSIZE * BSIZE <= off;
  }

  // readi, for a destination that can be written: the bytes from off on, at
  // most n of them and none beyond the end. Every block it meets is there, so
  // nothing is allocated.
  method Readi(fs: Fs, off0: nat, n0: nat) returns (tot: nat, dst: seq<Byte>)
    requires fs.Valid() && Backed(fs.disk, fs.addrs, fs.size) && off0 < TWO32 && n0 < TWO32
    modifies fs
    ensures fs.Valid() && fs.disk == old(fs.disk) && fs.addrs == old(fs.addrs) && fs.size == old(fs.size)
    ensures fs.logged == old(fs.logged) && tot == |dst|
    ensures off0 > fs.size || off0 + n0 >= TWO32 ==> dst == []
    ensures off0 <= fs.size && off0 + n0 < TWO32 ==>
      dst == Contents(fs.disk, fs.addrs, fs.size)[off0..Min(off0 + n0, fs.size)]
  {
    hide FsInv, Addr, Used, Grew, ByteAt;
    dst, tot := [], 0;
    var off, n := off0, n0;
    if off > fs.size || (off + n) % TWO32 < off {
      return;
    }
    if off + n > fs.size {
      n := fs.size - off;
    }
    while tot < n
      invariant 0 <= tot <= n && off == off0 + tot && off0 + n <= fs.size
      invariant fs.Valid() && fs.disk == old(fs.disk) && fs.addrs == old(fs.addrs) && fs.size == old(fs.size)
      invariant fs.logged == old(fs.logged) && tot == |dst|
      invariant forall i :: 0 <= i < tot ==> dst[i] == ByteAt(fs.disk, fs.addrs, off0 + i)
    {
      BackedAt(fs.disk, fs.addrs, fs.size, off);
      var addr;
      ghost var bits;
      addr, bits := fs.Bmap(off / BSIZE);
      GrewIs(old(fs.disk), old(fs.addrs), fs.disk, fs.addrs, off / BSIZE, addr);
      SlotsOwned(fs.disk, fs.sb, fs.addrs, fs.others);
      var m := Min(n - tot, BSIZE - off % BSIZE);
      var chunk := fs.disk[addr][off % BSIZE..off % BSIZE + m];
      ChunkRead(fs.disk, fs.addrs, off, chunk, addr);
      dst := dst + chunk;
      tot, off := tot + m, off + m;
    }
  }

  lemma GrewIs(disk0: Disk, addrs0: seq<nat>, disk: Disk, addrs: seq<nat>, bn: nat, a: nat)
    requires Grew(disk0, addrs0, disk, addrs, bn, a)
    ensures |addrs| == NDIRECT + 1 && bn < MAXFILE && Addr(disk, addrs, bn) == a
  {
  }

  lemma ChunkRead(disk: Disk, addrs: seq<nat>, off: nat, chunk: seq<Byte>, a: nat)
    requires |addrs| == NDIRECT + 1 && off + |chunk| <= MAXBYTES && off < MAXBYTES && off % BSIZE + |chunk| <= BSIZE
    requires Addr(disk, addrs, off / BSIZE) == a && a in disk
    requires chunk == disk[a][off % BSIZE..off % BSIZE + |chunk|]
    ensures forall i :: 0 <= i < |chunk| ==> chunk[i] == ByteAt(disk, addrs, off + i)
  {
    hide Addr;
    forall i | 0 <= i < |chunk| ensures chunk[i] == ByteAt(disk, addrs, off + i) {
      ByteInChunk(off, |chunk|, off + i);
      assert (off + i) / BSIZE == off / BSIZE && (off + i) % BSIZE == off % BSIZE + i;
    }
  }

  // ---------- writei ----------

  lemma DataExtends(disk: Disk, sb: Super, addrs: seq<nat>, others: set<nat>, a: nat, data: Data, bn: nat)
    requires FsInv(disk, sb, addrs, others) && a in disk && a !in others && a != addrs[NDIRECT]
    ensures Extends(disk, addrs, disk[a := data], addrs, sb, bn, bn + 1)
  {
    hide Used, Refs;
    DataWritten(disk, sb, addrs, others, a, data);
    hide Slot;
    SameBitmap(disk, disk[a := data], sb, others);
  }

  // One iteration of writei's loop: bmap, copy into the block, log_write.
  method WriteChunk(fs: Fs, off: nat, chunk: seq<Byte>) returns (addr: nat, ghost bits: set<nat>)
    requires fs.Valid() && off < MAXBYTES && off % BSIZE + |chunk| <= BSIZE
    modifies fs
    ensures fs.Valid() && fs.size == old(fs.size)
    ensures addr != 0 ==> Wrote(old(fs.disk), old(fs.addrs), fs.disk, fs.addrs, off, chunk)
    ensures addr == 0 ==> Grew(old(fs.disk), old(fs.addrs), fs.disk, fs.addrs, off / BSIZE, 0)
    ensures addr == 0 ==> forall b :: 0 <= b < fs.sb.size ==> Used(fs.disk, fs.sb, b)
    ensures fs.logged <= old(fs.logged) + bits + NonZero(addr) + NonZero(fs.addrs[NDIRECT])
    ensures |bits| <= Allocs(old(fs.disk), old(fs.addrs), fs.addrs, off / BSIZE) && OnBitmap(bits, fs.sb)
    ensures Extends(old(fs.disk), old(fs.addrs), fs.disk, fs.addrs, fs.sb, off / BSIZE, off / BSIZE + 1)
    ensures Logs(old(fs.disk), old(fs.logged), fs.disk, fs.logged)
    ensures Confined(old(fs.disk), old(fs.logged), fs.disk, fs.logged, fs.sb, fs.others)
    ensures off / BSIZE < NDIRECT || old(fs.addrs)[NDIRECT] != 0 ==> fs.addrs[NDIRECT] == old(fs.addrs)[NDIRECT]
  {
    hide FsInv, Addr, Used, Grew, Wrote, Patched, Extends, Logs, Confined;
    addr, bits := fs.Bmap(off / BSIZE);
    if addr == 0 {
      return;
    }
    GrewIs(old(fs.disk), old(fs.addrs), fs.disk, fs.addrs, off / BSIZE, addr);
    SlotsOwned(fs.disk, fs.sb, fs.addrs, fs.others);
    ChunkWritten(old(fs.disk), old(fs.addrs), fs.disk, fs.sb, fs.addrs, fs.others, off, chunk, addr);
    ghost var data := Patched(fs.disk[addr], off % BSIZE, chunk);
    LogsPut(fs.disk, fs.logged, addr, data);
    ConfinedPut(fs.disk, fs.logged, addr, data, fs.sb, fs.others);
    ConfinedChain(old(fs.disk), old(fs.logged), fs.disk, fs.logged, fs.disk[addr := data], fs.logged + {addr}, fs.sb, fs.others);
    LogsChain(old(fs.disk), old(fs.logged), fs.disk, fs.logged, fs.disk[addr := data], fs.logged + {addr});
    DataExtends(fs.disk, fs.sb, fs.addrs, fs.others, addr, data, off / BSIZE);
    ExtendsChain(old(fs.disk), old(fs.addrs), fs.disk, fs.addrs, fs.disk[addr := data], fs.addrs, fs.sb,
                 off / BSIZE, off / BSIZE + 1, off / BSIZE, off / BSIZE + 1);
    fs.disk := fs.disk[addr := Patched(fs.disk[addr], off % BSIZE, chunk)];
    fs.logged := fs.logged + {addr};
  }

  function Max(a: nat, b: nat): nat {
    if a < b then b else a
  }

  // The first tot bytes of src are in the file at off, the rest of it is as
  // it was, and everything up to the new end has a block.
  ghost predicate Progress(disk0: Disk, addrs0: seq<nat>, size: nat, disk: Disk, addrs: seq<nat>,
                           off: nat, src: seq<Byte>, tot: nat) {
    && |addrs0| == NDIRECT + 1 && tot <= |src| && off + tot <= MAXBYTES && size <= MAXBYTES && off <= size
    && Backed(disk, addrs, Max(size, off + tot))
    && (forall i :: 0 <= i < MAXBYTES && off <= i < off + tot ==> ByteAt(disk, addrs, i) == src[i - off])
    && (forall i :: 0 <= i < size && !(off <= i < off + tot) ==> ByteAt(disk, addrs, i) == ByteAt(disk0, addrs0, i))
  }

  lemma ProgressStart(disk: Disk, addrs: seq<nat>, size: nat, off: nat, src: seq<Byte>)
    requires Backed(disk, addrs, size) && off <= size
    ensures Progress(disk, addrs, size, disk, addrs, off, src, 0)
  {
    hide Addr;
  }

  lemma ProgressNext(disk0: Disk, addrs0: seq<nat>, size: nat, disk1: Disk, addrs1: seq<nat>, disk: Disk, addrs: seq<nat>,
                     off: nat, src: seq<Byte>, tot: nat, m: nat)
    requires Progress(disk0, addrs0, size, disk1, addrs1, off, src, tot) && tot + m <= |src| && off + tot + m <= MAXBYTES
    requires Wrote(disk1, addrs1, disk, addrs, off + tot, src[tot..tot + m]) && m > 0
    requires (off + tot) % BSIZE + m <= BSIZE
    ensures Progress(disk0, addrs0, size, disk, addrs, off, src, tot + m)
  {
    hide Addr, ByteAt;
    forall bn | 0 <= bn < MAXFILE && bn * BSIZE < Max(size, off + tot + m) ensures Addr(disk, addrs, bn) != 0 {
      if bn * BSIZE >= Max(size, off + tot) {
        assert bn == (off + tot) / BSIZE;
      }
    }
    forall i | 0 <= i < MAXBYTES && off <= i < off + tot + m ensures ByteAt(disk, addrs, i) == src[i - off] {
      if i < off + tot { BackedAt(disk1, addrs1, Max(size, off + tot), i); }
    }
    forall i | 0 <= i < size && !(off <= i < off + tot + m) ensures ByteAt(disk, addrs, i) == ByteAt(disk0, addrs0, i) {
      BackedAt(disk1, addrs1, Max(size, off + tot), i);
    }
  }

  lemma ProgressSame(disk0: Disk, addrs0: seq<nat>, size: nat, disk1: Disk, addrs1: seq<nat>, disk: Disk, addrs: seq<nat>,
                     off: nat, src: seq<Byte>, tot: nat, bn: nat)
    requires Progress(disk0, addrs0, size, disk1, addrs1, off, src, tot) && Grew(disk1, addrs1, disk, addrs, bn, 0)
    ensures Progress(disk0, addrs0, size, disk, addrs, off, src, tot)
  {
    hide Addr, ByteAt;
    forall i | 0 <= i < MAXBYTES && i < Max(size, off + tot) ensures ByteAt(disk, addrs, i) == ByteAt(disk1, addrs1, i) {
      BackedAt(disk1, addrs1, Max(size, off + tot), i);
      GrewBytes(disk1, addrs1, disk, addrs, bn, 0, i);
    }
  }

  lemma ProgressIsSplice(disk0: Disk, addrs0: seq<nat>, size: nat, disk: Disk, addrs: seq<nat>, off: nat, src: seq<Byte>, tot: nat)
    requires Progress(disk0, addrs0, size, disk, addrs, off, src, tot)
    ensures Contents(disk, addrs, Max(size, off + tot)) == Splice(Contents(disk0, addrs0, size), off, src[..tot])
  {
    hide Addr, ByteAt, Backed;
  }

  // ---------- how much a write logs ----------

  // Since the log held l0, k iterations have logged the data blocks datas, the
  // bitmap blocks bits and the indirect block. If the write does not start at
  // a block boundary, the first block was there before.
  ghost predicate LogBound(l0: set<nat>, logged: set<nat>, ind0: nat, addrs: seq<nat>, bits: set<nat>, datas: set<nat>,
                           k: nat, unaligned: bool) {
    && |addrs| == NDIRECT + 1 && (ind0 != 0 ==> addrs[NDIRECT] == ind0)
    && logged <= l0 + bits + datas + NonZero(addrs[NDIRECT])
    && |datas| <= k
    && |bits| <= k - (if k > 0 && unaligned then 1 else 0) + NewIndirect(ind0, addrs)
  }

  lemma LogNext(l0: set<nat>, logged1: set<nat>, ind0: nat, addrs1: seq<nat>, bits1: set<nat>, datas: set<nat>, k: nat,
                unaligned: bool, logged: set<nat>, addrs: seq<nat>, bits: set<nat>, addr: nat)
    requires LogBound(l0, logged1, ind0, addrs1, bits1, datas, k, unaligned) && |addrs| == NDIRECT + 1
    requires logged <= logged1 + bits + NonZero(addr) + NonZero(addrs[NDIRECT])
    requires addrs1[NDIRECT] != 0 ==> addrs[NDIRECT] == addrs1[NDIRECT]
    requires |bits| <= (if k == 0 && unaligned then 0 else 1) + NewIndirect(addrs1[NDIRECT], addrs)
    ensures LogBound(l0, logged, ind0, addrs, bits1 + bits, datas + NonZero(addr), k + 1, unaligned)
  {
    UnionSize(bits1, bits);
    UnionSize(datas, NonZero(addr));
  }

  // How far k iterations of the loop get.
  ghost predicate Advanced(off: nat, n: nat, tot: nat, k: nat) {
    && tot <= n && (k == 0 ==> tot == 0)
    && (k > 0 ==> (off / BSIZE + k - 1) * BSIZE < off + tot <= (off / BSIZE + k) * BSIZE)
    && (k > 0 && tot < n ==> off + tot == (off / BSIZE + k) * BSIZE)
  }

  lemma AdvanceNext(off: nat, n: nat, tot: nat, k: nat)
    requires Advanced(off, n, tot, k) && tot < n
    ensures Advanced(off, n, tot + Min(n - tot, BSIZE - (off + tot) % BSIZE), k + 1)
  {
    if k > 0 { assert (off + tot) % BSIZE == 0; }
  }

  // Blocks logged for at most 3 blocks' worth of bytes: 4 data blocks, the
  // indirect block, the inode, and the bitmap blocks, of which a disk of at
  // most BPB blocks has only one.
  function WriteBound(sb: Super): nat {
    if sb.size <= BPB then 7 else 10
  }

  lemma SmallWriteBound(sb: Super, l0: set<nat>, logged: set<nat>, ind0: nat, addrs: seq<nat>, bits: set<nat>, datas: set<nat>,
                        k: nat, off: nat, n: nat, tot: nat, iblock: nat) returns (s: set<nat>)
    requires LogBound(l0, logged, ind0, addrs, bits, datas, k, off % BSIZE != 0)
    requires OnBitmap(bits, sb) && n <= 3 * BSIZE && tot <= n && (k > 0 ==> (off / BSIZE + k - 1) * BSIZE < off + n)
    ensures logged + {iblock} <= l0 + s && |s| <= WriteBound(sb)
  {
    var ind := NonZero(addrs[NDIRECT]);
    s := bits + datas + ind + {iblock};
    UnionSize(bits, datas);
    UnionSize(bits + datas, ind);
    UnionSize(bits + datas + ind, {iblock});
    assert k <= 4 && (off % BSIZE == 0 ==> k <= 3);
    if sb.size <= BPB { OneBitmapBlock(bits, sb); }
  }

  // Everything that holds after k iterations of writei's loop.
  ghost predicate Going(sb: Super, disk0: Disk, addrs0: seq<nat>, size: nat, l0: set<nat>, disk: Disk, addrs: seq<nat>, logged: set<nat>,
                        off: nat, src: seq<Byte>, tot: nat, k: nat, bits: set<nat>, datas: set<nat>) {
    && Progress(disk0, addrs0, size, disk, addrs, off, src, tot)
    && LogBound(l0, logged, addrs0[NDIRECT], addrs, bits, datas, k, off % BSIZE != 0)
    && (k > 0 ==> (off / BSIZE + k - 1) * BSIZE < off + |src|)
    && OnBitmap(bits, sb)
    && Extends(disk0, addrs0, disk, addrs, sb, off / BSIZE, LastPosition(off, |src|)) && Logs(disk0, l0, disk, logged)
  }

  // The position after that of the last of n bytes from off on.
  function LastPosition(off: nat, n: nat): nat {
    (off + n + BSIZE - 1) / BSIZE
  }

  method WriteStep(fs: Fs, off0: nat, src: seq<Byte>, tot: nat, ghost disk0: Disk, ghost addrs0: seq<nat>, ghost l0: set<nat>,
                   ghost k: nat, ghost bits: set<nat>, ghost datas: set<nat>)
    returns (addr: nat, m: nat, ghost bits': set<nat>, ghost datas': set<nat>)
    requires fs.Valid() && |addrs0| == NDIRECT + 1 && tot < |src| && off0 + |src| <= MAXBYTES
    requires Going(fs.sb, disk0, addrs0, fs.size, l0, fs.disk, fs.addrs, fs.logged, off0, src, tot, k, bits, datas)
    requires Advanced(off0, |src|, tot, k)
    modifies fs
    ensures fs.Valid() && fs.size == old(fs.size)
    ensures m == Min(|src| - tot, BSIZE - (off0 + tot) % BSIZE)
    ensures Going(fs.sb, disk0, addrs0, fs.size, l0, fs.disk, fs.addrs, fs.logged, off0, src, if addr == 0 then tot else tot + m,
                  k + 1, bits', datas')
    ensures addr == 0 ==> forall b :: 0 <= b < fs.sb.size ==> Used(fs.disk, fs.sb, b)
    ensures addr == 0 ==> Slot(fs.disk, fs.addrs, (off0 + tot) / BSIZE) == 0
    ensures Confined(old(fs.disk), old(fs.logged), fs.disk, fs.logged, fs.sb, fs.others)
  {
    hide FsInv, Addr, Used, Grew, Wrote, Progress, LogBound, Backed, ByteAt, Advanced, OnBitmap, Extends, Logs, LastPosition,
      Confined;
    ghost var disk1, addrs1, logged1 := fs.disk, fs.addrs, fs.logged;
    ghost var more;
    m := Min(|src| - tot, BSIZE - (off0 + tot) % BSIZE);
    FirstBlockThere(disk0, addrs0, fs.size, disk1, addrs1, off0, src, tot, k, |src|);
    addr, more := WriteChunk(fs, off0 + tot, src[tot..tot + m]);
    BlockBound(fs.disk, fs.sb, fs.addrs, fs.others);
    LogNext(l0, logged1, addrs0[NDIRECT], addrs1, bits, datas, k, off0 % BSIZE != 0, fs.logged, fs.addrs, more, addr);
    LogsChain(disk0, l0, disk1, logged1, fs.disk, fs.logged);
    InRange(off0, tot, |src|);
    ExtendsChain(disk0, addrs0, disk1, addrs1, fs.disk, fs.addrs, fs.sb, off0 / BSIZE, LastPosition(off0, |src|),
                 (off0 + tot) / BSIZE, (off0 + tot) / BSIZE + 1);
    OnBitmapJoined(bits, more, fs.sb);
    bits', datas' := bits + more, datas + NonZero(addr);
    AdvancedFrom(off0, |src|, tot, k);
    if addr == 0 {
      NoBlock(disk1, addrs1, fs.disk, fs.addrs, (off0 + tot) / BSIZE);
      ProgressSame(disk0, addrs0, fs.size, disk1, addrs1, fs.disk, fs.addrs, off0, src, tot, (off0 + tot) / BSIZE);
    } else {
      ProgressNext(disk0, addrs0, fs.size, disk1, addrs1, fs.disk, fs.addrs, off0, src, tot, m);
    }
  }

  lemma InRange(off: nat, tot: nat, n: nat)
    requires tot < n
    ensures off / BSIZE <= (off + tot) / BSIZE < LastPosition(off, n)
  {
  }

  lemma NoBlock(disk0: Disk, addrs0: seq<nat>, disk: Disk, addrs: seq<nat>, bn: nat)
    requires Grew(disk0, addrs0, disk, addrs, bn, 0)
    ensures |addrs| == NDIRECT + 1 && bn < MAXFILE && Slot(disk, addrs, bn) == 0
  {
    hide Addr;
  }

  // writei, for a source that can be read. It returns -1 or the number of
  // bytes written, which is less than asked for only if the disk is full. s
  // bounds what it logs for at most 3 blocks' worth.
  method Writei(fs: Fs, off0: nat, src: seq<Byte>, iblock: nat) returns (r: int, ghost s: set<nat>)
    requires fs.Valid() && Backed(fs.disk, fs.addrs, fs.size) && off0 < TWO32 && |src| < TWO32
    modifies fs
    ensures fs.Valid() && Backed(fs.disk, fs.addrs, fs.size)
    ensures r == -1 <==> off0 > old(fs.size) || off0 + |src| > MAXBYTES
    ensures r == -1 ==> fs.disk == old(fs.disk) && fs.addrs == old(fs.addrs) && fs.size == old(fs.size) && fs.logged == old(fs.logged)
    ensures r != -1 ==> 0 <= r <= |src| && fs.size == Max(old(fs.size), off0 + r)
    ensures r != -1 ==> (Contents(fs.disk, fs.addrs, fs.size) ==
                         Splice(Contents(old(fs.disk), old(fs.addrs), old(fs.size)), off0, src[..r]))
    ensures 0 <= r < |src| ==> forall b :: 0 <= b < fs.sb.size ==> Used(fs.disk, fs.sb, b)
    ensures |src| <= 3 * BSIZE ==> fs.logged <= old(fs.logged) + s && |s| <= WriteBound(fs.sb)
    ensures Logs(old(fs.disk), old(fs.logged), fs.disk, fs.logged) && (r != -1 ==> iblock in fs.logged)
    ensures Extends(old(fs.disk), old(fs.addrs), fs.disk, fs.addrs, fs.sb, off0 / BSIZE, LastPosition(off0, |src|))
    ensures 0 <= r < |src| ==> Slot(fs.disk, fs.addrs, (off0 + r) / BSIZE) == 0
    ensures Confined(old(fs.disk), old(fs.logged) + {iblock}, fs.disk, fs.logged, fs.sb, fs.others)
  {
    hide FsInv, Addr, Used, Progress, LogBound, Backed, ByteAt, Advanced, Going, Extends, Logs, Slot, LastPosition, Confined;
    ghost var disk0, addrs0, size0, l0 := fs.disk, fs.addrs, fs.size, fs.logged;
    BackedSize(disk0, addrs0, size0);
    s := {};
    ConfinedNothing(disk0, l0, fs.sb, fs.others);
    ConfinedInode(disk0, l0, disk0, l0, fs.sb, fs.others, iblock);
    NothingExtended(disk0, addrs0, fs.sb, l0, off0 / BSIZE, LastPosition(off0, |src|));
    var n := |src|;
    if off0 > fs.size || (off0 + n) % TWO32 < off0 {
      return -1, s;
    }
    if off0 + n > MAXBYTES {
      return -1, s;
    }
    var tot, off := 0, off0;
    ghost var k, bits, datas := 0, {}, {};
    GoingStart(fs.sb, disk0, addrs0, size0, l0, off0, src);
    while tot < n
      invariant 0 <= tot <= n && off == off0 + tot && Advanced(off0, n, tot, k)
      invariant fs.Valid() && fs.size == size0
      invariant Going(fs.sb, disk0, addrs0, size0, l0, fs.disk, fs.addrs, fs.logged, off0, src, tot, k, bits, datas)
      invariant Confined(disk0, l0, fs.disk, fs.logged, fs.sb, fs.others)
    {
      ghost var disk1, logged1 := fs.disk, fs.logged;
      var addr, m;
      addr, m, bits, datas := WriteStep(fs, off0, src, tot, disk0, addrs0, l0, k, bits, datas);
      ConfinedChain(disk0, l0, disk1, logged1, fs.disk, fs.logged, fs.sb, fs.others);
      AdvanceNext(off0, n, tot, k);
      k := k + 1;
      if addr == 0 { break; }
      tot, off := tot + m, off + m;
    }
    s := GoingDone(fs.sb, disk0, addrs0, size0, l0, fs.disk, fs.addrs, fs.logged, off0, src, tot, k, bits, datas, iblock);
    if off > fs.size {
      fs.size := off;
    }
    // iupdate
    LogsMore(disk0, l0, fs.disk, fs.logged, iblock);
    ConfinedInode(disk0, l0, fs.disk, fs.logged, fs.sb, fs.others, iblock);
    fs.logged := fs.logged + {iblock};
    r := tot;
  }

  lemma NothingExtended(disk: Disk, addrs: seq<nat>, sb: Super, l: set<nat>, lo: nat, hi: nat)
    requires |addrs| == NDIRECT + 1
    ensures Extends(disk, addrs, disk, addrs, sb, lo, hi) && Logs(disk, l, disk, l)
  {
    hide Extends;
    ExtendsNothing(disk, addrs, sb, lo, hi);
  }

  lemma LogsMore(disk0: Disk, l0: set<nat>, disk: Disk, logged: set<nat>, b: nat)
    requires Logs(disk0, l0, disk, logged)
    ensures Logs(disk0, l0, disk, logged + {b})
  {
  }

  lemma ConfinedInode(disk0: Disk, l0: set<nat>, disk: Disk, logged: set<nat>, sb: Super, others: set<nat>, iblock: nat)
    requires Confined(disk0, l0, disk, logged, sb, others)
    ensures Confined(disk0, l0 + {iblock}, disk, logged, sb, others)
    ensures Confined(disk0, l0 + {iblock}, disk, logged + {iblock}, sb, others)
  {
    hide BitmapBlock;
  }

  lemma GoingStart(sb: Super, disk: Disk, addrs: seq<nat>, size: nat, l0: set<nat>, off: nat, src: seq<Byte>)
    requires Backed(disk, addrs, size) && off <= size && |addrs| == NDIRECT + 1
    ensures Going(sb, disk, addrs, size, l0, disk, addrs, l0, off, src, 0, 0, {}, {}) && Advanced(off, |src|, 0, 0)
  {
    hide Progress, LogBound, Backed, Extends, Logs;
    NothingExtended(disk, addrs, sb, l0, off / BSIZE, LastPosition(off, |src|));
    ProgressStart(disk, addrs, size, off, src);
    LogStart(l0, addrs, off % BSIZE != 0);
  }

  lemma GoingDone(sb: Super, disk0: Disk, addrs0: seq<nat>, size: nat, l0: set<nat>, disk: Disk, addrs: seq<nat>, logged: set<nat>,
                  off: nat, src: seq<Byte>, tot: nat, k: nat, bits: set<nat>, datas: set<nat>, iblock: nat) returns (s: set<nat>)
    requires |addrs0| == NDIRECT + 1 && Going(sb, disk0, addrs0, size, l0, disk, addrs, logged, off, src, tot, k, bits, datas)
    ensures off <= size <= MAXBYTES && off + tot <= MAXBYTES && tot <= |src| && |addrs| == NDIRECT + 1
    ensures Backed(disk, addrs, Max(size, off + tot))
    ensures Contents(disk, addrs, Max(size, off + tot)) == Splice(Contents(disk0, addrs0, size), off, src[..tot])
    ensures |src| <= 3 * BSIZE ==> logged + {iblock} <= l0 + s && |s| <= WriteBound(sb)
    ensures Extends(disk0, addrs0, disk, addrs, sb, off / BSIZE, LastPosition(off, |src|)) && Logs(disk0, l0, disk, logged)
  {
    ProgressIsSplice(disk0, addrs0, size, disk, addrs, off, src, tot);
    ProgressBacked(disk0, addrs0, size, disk, addrs, off, src, tot);
    hide Progress, LogBound;
    s := {};
    if |src| <= 3 * BSIZE {
      s := SmallWriteBound(sb, l0, logged, addrs0[NDIRECT], addrs, bits, datas, k, off, |src|, tot, iblock);
    }
  }

  lemma BackedSize(disk: Disk, addrs: seq<nat>, size: nat)
    requires Backed(disk, addrs, size)
    ensures size <= MAXBYTES && |addrs| == NDIRECT + 1
  {
  }

  lemma LogStart(l0: set<nat>, addrs: seq<nat>, unaligned: bool)
    requires |addrs| == NDIRECT + 1
    ensures LogBound(l0, l0, addrs[NDIRECT], addrs, {}, {}, 0, unaligned)
  {
  }

  lemma AdvancedFrom(off: nat, n: nat, tot: nat, k: nat)
    requires Advanced(off, n, tot, k) && tot < n
    ensures (off / BSIZE + k) * BSIZE < off + n
  {
  }

  // A write that starts inside a block finds that block allocated.
  lemma FirstBlockThere(disk0: Disk, addrs0: seq<nat>, size: nat, disk: Disk, addrs: seq<nat>, off: nat, src: seq<Byte>,
                        tot: nat, k: nat, n: nat)
    requires Progress(disk0, addrs0, size, disk, addrs, off, src, tot) && Advanced(off, n, tot, k) && off + tot < MAXBYTES
    ensures k == 0 && off % BSIZE != 0 ==> Addr(disk, addrs, (off + tot) / BSIZE) != 0
    ensures |addrs| == NDIRECT + 1
  {
    hide Addr, ByteAt;
    if k == 0 && off % BSIZE != 0 {
      BackedAt(disk, addrs, Max(size, off + tot), off - 1);
      assert (off - 1) / BSIZE == off / BSIZE;
    }
  }

  lemma ProgressBacked(disk0: Disk, addrs0: seq<nat>, size: nat, disk: Disk, addrs: seq<nat>, off: nat, src: seq<Byte>, tot: nat)
    requires Progress(disk0, addrs0, size, disk, addrs, off, src, tot)
    ensures Backed(disk, addrs, Max(size, off + tot)) && off + tot <= MAXBYTES && |addrs| == NDIRECT + 1
  {
  }
}
