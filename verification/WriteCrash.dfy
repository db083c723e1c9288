/** filewrite through the log: a crash anywhere in a write of many chunks. */
module WriteCrash {
  import opened FsBlocks
  import opened Inodes
  import opened FileSystem
  import opened FileContents
  import opened FileCrash
  import FileWrite
  import LogDisk
  import WriteAheadLog
  import W = Blocks

  // One log operation of a filewrite, on the disk d: its blocks, what the
  // cache shows when it is committed, and how many bytes of the source are in
  // the file before and after it.
  datatype Step = Step(d: W.Disk, view: W.Disk, dirty: map<nat, nat>, bs: seq<nat>, from: nat, to: nat)

  ghost predicate Ready(st: Step, l: LogDisk.Layout) {
    WriteAheadLog.ReadyToCommit(st.d, st.view, st.dirty, l, st.bs)
  }

  // The file system after a crash at write j of the commit, crashes in the
  // recoveries as js says, and a recovery that finishes.
  ghost function Found(st: Step, l: LogDisk.Layout, j: nat, js: seq<nat>): Disk
    requires Ready(st, l) && j <= 2 * |st.bs| + 2
  {
    Stored(LogDisk.Home(Recovered(st.d, st.view, st.dirty, l, st.bs, j, js), l))
  }

  // The disk when the commit is over.
  ghost function Next(st: Step, l: LogDisk.Layout): W.Disk
    requires Ready(st, l)
  {
    LogDisk.CommitDisk(st.d, l, st.bs, WriteAheadLog.Values(st.view, st.bs), 2 * |st.bs| + 2)
  }

  // After a crash the file has the bytes from before the operation or those
  // from after it.
  ghost predicate Survives(st: Step, l: LogDisk.Layout, iblock: nat, slot: nat, c0: seq<Byte>, off: nat, src: seq<Byte>) {
    && Ready(st, l) && st.from <= st.to <= |src| && off <= |c0|
    && forall j: nat, js :: j <= 2 * |st.bs| + 2 ==>
         File(Found(st, l, j, js), iblock, slot, Splice(c0, off, src[..if j <= |st.bs| then st.from else st.to]))
  }

  // Every other file of disk0 has its own bytes.
  ghost predicate OthersSurvive(st: Step, l: LogDisk.Layout, disk0: Disk, sb: Super, others: set<nat>, iblock: nat, slot: nat) {
    && Ready(st, l)
    && forall j: nat, js, ib: nat, sl: nat, c ::
         (j <= 2 * |st.bs| + 2 && OtherFile(disk0, sb, others, iblock, slot, ib, sl) && Sound(disk0, l, ib, sl) &&
          File(disk0, ib, sl, c)) ==>
         File(Found(st, l, j, js), ib, sl, c)
  }

  // A finished commit leaves an empty log and what the cache showed.
  lemma Committed(st: Step, l: LogDisk.Layout, disk: Disk)
    requires Ready(st, l) && Shows(st.view, l, disk)
    ensures Shows(Next(st, l), l, disk) && LogDisk.Transaction(Next(st, l), l, [], [])
  {
    hide LogDisk.CommitDisk, LogDisk.Overlay, WriteAheadLog.Values, Bytes, LogDisk.HomeBlocks, WriteAheadLog.ReadyToCommit;
    WriteAheadLog.ReadyShape(st.d, st.view, st.dirty, l, st.bs);
    WriteAheadLog.HomeAfterCommit(st.d, l, st.bs, WriteAheadLog.Values(st.view, st.bs));
    WriteAheadLog.OverlayIsView(st.d, st.view, st.dirty, l, st.bs);
    var r := Next(st, l);
    forall k | k in disk && !LogDisk.InLog(l, k) ensures k in r && Bytes(r[k]) == disk[k] {
      assert k in LogDisk.Home(st.view, l) && k in LogDisk.Home(r, l);
    }
  }

  lemma UpdatedChain(disk0: Disk, disk1: Disk, disk: Disk, sb: Super, others: set<nat>, iblock: nat, slot: nat)
    requires Updated(disk0, disk1, sb, others, iblock, slot) && Updated(disk1, disk, sb, others, iblock, slot)
    ensures Updated(disk0, disk, sb, others, iblock, slot)
  {
    hide BitmapBlock, InodeSize, InodeAddrs;
  }

  lemma NotUpdated(disk: Disk, sb: Super, others: set<nat>, iblock: nat, slot: nat)
    requires iblock in disk
    ensures Updated(disk, disk, sb, others, iblock, slot)
  {
    hide BitmapBlock, InodeSize, InodeAddrs;
  }

  lemma StepSurvives(st: Step, l: LogDisk.Layout, disk: Disk, disk': Disk, iblock: nat, slot: nat,
                     c0: seq<Byte>, off: nat, src: seq<Byte>)
    requires Ready(st, l) && Shows(st.d, l, disk) && Shows(st.view, l, disk')
    requires st.from <= st.to <= |src| && off <= |c0|
    requires Sound(disk, l, iblock, slot) && File(disk, iblock, slot, Splice(c0, off, src[..st.from]))
    requires Sound(disk', l, iblock, slot) && File(disk', iblock, slot, Splice(c0, off, src[..st.to]))
    ensures Survives(st, l, iblock, slot, c0, off, src)
  {
    hide Shows, Sound, File, Stored, Splice, LogDisk.Home, Recovered, WriteAheadLog.ReadyToCommit;
    forall j: nat, js | j <= 2 * |st.bs| + 2
      ensures File(Found(st, l, j, js), iblock, slot, Splice(c0, off, src[..if j <= |st.bs| then st.from else st.to]))
    {
      CrashedFile(st.d, st.view, st.dirty, l, st.bs, j, js, disk, disk', iblock, slot,
                  Splice(c0, off, src[..st.from]), Splice(c0, off, src[..st.to]));
    }
  }

  lemma StepKeepsOthers(st: Step, l: LogDisk.Layout, disk0: Disk, disk: Disk, disk': Disk, sb: Super, others: set<nat>,
                        iblock: nat, slot: nat)
    requires Ready(st, l) && Shows(st.d, l, disk) && Shows(st.view, l, disk')
    requires Updated(disk0, disk, sb, others, iblock, slot) && Updated(disk0, disk', sb, others, iblock, slot)
    ensures OthersSurvive(st, l, disk0, sb, others, iblock, slot)
  {
    hide Shows, Sound, File, Stored, LogDisk.Home, Recovered, WriteAheadLog.ReadyToCommit, OtherFile, Updated;
    forall j: nat, js, ib: nat, sl: nat, c | j <= 2 * |st.bs| + 2 &&
      OtherFile(disk0, sb, others, iblock, slot, ib, sl) && Sound(disk0, l, ib, sl) && File(disk0, ib, sl, c)
      ensures File(Found(st, l, j, js), ib, sl, c)
    {
      OtherKept(disk0, disk, sb, others, l, iblock, slot, ib, sl, c);
      OtherKept(disk0, disk', sb, others, l, iblock, slot, ib, sl, c);
      CrashedFile(st.d, st.view, st.dirty, l, st.bs, j, js, disk, disk', ib, sl, c, c);
    }
  }

  // w bytes of src are in the file at off.
  ghost predicate SoFar(c0: seq<Byte>, off: nat, src: seq<Byte>, w: nat, c: seq<Byte>) {
    w <= |src| && if off <= |c0| then c == Splice(c0, off, src[..w]) else w == 0 && c == c0
  }

  lemma SoFarNext(c0: seq<Byte>, off: nat, src: seq<Byte>, w: nat, c: seq<Byte>, n1: nat, r: nat, c': seq<Byte>)
    requires SoFar(c0, off, src, w, c) && r <= n1 && w + n1 <= |src| && off + w <= |c|
    requires c' == Splice(c, off + w, src[w..w + n1][..r])
    ensures SoFar(c0, off, src, w + r, c') && off <= |c0|
    ensures c == Splice(c0, off, src[..w]) && c' == Splice(c0, off, src[..w + r]) && off + w + r <= |c'|
  {
    assert src[w..w + n1][..r] == src[w..w + r];
    assert off <= |c0|;
    FileWrite.SpliceTwice(c0, off, src[..w], src[w..w + r]);
    assert src[..w] + src[w..w + r] == src[..w + r];
  }

  // The file on a disk with an empty log, with its inode in this slot.
  ghost predicate OnDisk(fs: Fs, l: LogDisk.Layout, d: W.Disk, iblock: nat, slot: nat)
    reads fs
  {
    && fs.Valid() && Backed(fs.disk, fs.addrs, fs.size)
    && LogApart(l, fs.sb, fs.others) && InodeAt(fs.disk, fs.sb, fs.others, l, iblock, slot, fs.addrs, fs.size)
    && Shows(d, l, fs.disk) && LogDisk.Transaction(d, l, [], []) && l.size > 10
  }

  // One chunk: begin_op, writei, end_op with its commit.
  method ChunkSafely(fs: Fs, src: seq<Byte>, w: nat, n1: nat, iblock: nat, slot: nat, ghost d: W.Disk, ghost l: LogDisk.Layout,
                     ghost c0: seq<Byte>, off0: nat, ghost disk0: Disk)
    returns (r: int, ghost st: Step)
    requires OnDisk(fs, l, d, iblock, slot) && off0 + w < TWO32 && n1 <= 3 * BSIZE && w + n1 <= |src|
    requires Backed(fs.disk, fs.addrs, fs.size) && fs.size <= MAXBYTES && |fs.addrs| == NDIRECT + 1
    requires SoFar(c0, off0, src, w, Contents(fs.disk, fs.addrs, fs.size))
    requires Updated(disk0, fs.disk, fs.sb, fs.others, iblock, slot)
    modifies fs
    ensures fs.Valid() && Backed(fs.disk, fs.addrs, fs.size) && fs.size <= MAXBYTES && |fs.addrs| == NDIRECT + 1
    ensures r == -1 <==> off0 + w > old(fs.size) || off0 + w + n1 > MAXBYTES
    ensures r == -1 ==> fs.disk == old(fs.disk) && fs.addrs == old(fs.addrs) && fs.size == old(fs.size)
    ensures r != -1 ==> 0 <= r <= n1 && st.d == d && st.from == w && st.to == w + r
    ensures r != -1 ==> Survives(st, l, iblock, slot, c0, off0, src)
    ensures r != -1 ==> OthersSurvive(st, l, disk0, fs.sb, fs.others, iblock, slot)
    ensures r != -1 ==> Ready(st, l) && OnDisk(fs, l, Next(st, l), iblock, slot) && off0 + w + r <= fs.size
    ensures r != -1 ==> SoFar(c0, off0, src, w + r, Contents(fs.disk, fs.addrs, fs.size))
    ensures r != -1 ==> Updated(disk0, fs.disk, fs.sb, fs.others, iblock, slot)
  {
    hide FsInv, Backed, Contents, Splice, LogApart, Shows, InodeAt, LogDisk.Transaction, WriteAheadLog.ReadyToCommit,
      Sound, File, Updated, Next, Survives, OthersSurvive, SoFar;
    ghost var disk1, c1 := fs.disk, Contents(fs.disk, fs.addrs, fs.size);
    InodeSound(disk1, fs.sb, fs.addrs, fs.others, fs.size, l, iblock, slot);
    fs.logged := {};
    ghost var bs, view, dirty;
    r, bs, view, dirty := WriteFile(fs, off0 + w, src[w..w + n1], iblock, slot, d, l);
    BackedSize(fs.disk, fs.addrs, fs.size);
    st := Step(d, view, dirty, bs, w, w);
    if r == -1 { return; }
    st := Step(d, view, dirty, bs, w, w + r);
    ghost var c := Contents(fs.disk, fs.addrs, fs.size);
    SoFarNext(c0, off0, src, w, c1, n1, r, c);
    InodeSound(fs.disk, fs.sb, fs.addrs, fs.others, fs.size, l, iblock, slot);
    UpdatedChain(disk0, disk1, fs.disk, fs.sb, fs.others, iblock, slot);
    StepSurvives(st, l, disk1, fs.disk, iblock, slot, c0, off0, src);
    StepKeepsOthers(st, l, disk0, disk1, fs.disk, fs.sb, fs.others, iblock, slot);
    Committed(st, l, fs.disk);
  }

  // Each operation starts on the disk that the one before has left, the first
  // one on d0, and the last one leaves d.
  ghost predicate Chained(steps: seq<Step>, d0: W.Disk, d: W.Disk, l: LogDisk.Layout) {
    if steps == [] then d == d0
    else
      var st := steps[|steps| - 1];
      Ready(st, l) && d == Next(st, l) && Chained(steps[..|steps| - 1], d0, st.d, l)
  }

  // The operations write one chunk after the other; only the last may be cut.
  ghost predicate InChunks(steps: seq<Step>, w: nat) {
    && (forall i :: 0 <= i < |steps| ==> steps[i].from == i * FileWrite.CHUNK)
    && (forall i :: 0 <= i < |steps| - 1 ==> steps[i].to == steps[i + 1].from)
    && (steps != [] ==> steps[|steps| - 1].to <= steps[|steps| - 1].from + FileWrite.CHUNK)
    && w == if steps == [] then 0 else steps[|steps| - 1].to
  }

  lemma ChainNext(steps: seq<Step>, d0: W.Disk, d: W.Disk, l: LogDisk.Layout, st: Step)
    requires Chained(steps, d0, d, l) && Ready(st, l) && st.d == d
    ensures Chained(steps + [st], d0, Next(st, l), l)
  {
    hide Next, Ready;
    assert (steps + [st])[..|steps|] == steps;
  }

  lemma ChunkNext(steps: seq<Step>, w: nat, st: Step)
    requires InChunks(steps, w) && w == |steps| * FileWrite.CHUNK && st.from == w && w <= st.to <= w + FileWrite.CHUNK
    ensures InChunks(steps + [st], st.to)
  {
  }

  ghost predicate AllSurvive(steps: seq<Step>, l: LogDisk.Layout, disk0: Disk, sb: Super, others: set<nat>, iblock: nat, slot: nat,
                             c0: seq<Byte>, off: nat, src: seq<Byte>) {
    forall i :: 0 <= i < |steps| ==>
      Survives(steps[i], l, iblock, slot, c0, off, src) && OthersSurvive(steps[i], l, disk0, sb, others, iblock, slot)
  }

  lemma SurviveNext(steps: seq<Step>, l: LogDisk.Layout, disk0: Disk, sb: Super, others: set<nat>, iblock: nat, slot: nat,
                    c0: seq<Byte>, off: nat, src: seq<Byte>, st: Step)
    requires AllSurvive(steps, l, disk0, sb, others, iblock, slot, c0, off, src)
    requires Survives(st, l, iblock, slot, c0, off, src) && OthersSurvive(st, l, disk0, sb, others, iblock, slot)
    ensures AllSurvive(steps + [st], l, disk0, sb, others, iblock, slot, c0, off, src)
  {
    hide Survives, OthersSurvive;
  }

  // filewrite of n bytes, each operation committed before the next one. A
  // crash at any disk write of any of the commits, followed by any number of
  // crashes in recovery, leaves the old bytes with the first chunks of the
  // source spliced in, and every other file as it was.
  method CrashSafeFilewrite(f: FileWrite.File, n: int, src: seq<Byte>, iblock: nat, slot: nat, ghost d0: W.Disk,
                            ghost l: LogDisk.Layout)
    returns (ret: int, ghost w: nat, ghost d: W.Disk, ghost steps: seq<Step>)
    requires OnDisk(f.fs, l, d0, iblock, slot) && f.off < TWO32 && |src| < TWO32 && |src| == if n < 0 then 0 else n
    modifies f`off, f.fs
    ensures f.fs.Valid() && Backed(f.fs.disk, f.fs.addrs, f.fs.size)
    ensures w <= |src| && f.off == old(f.off) + w && ret == if f.writable && w == n then n else -1
    ensures Chained(steps, d0, d, l) && InChunks(steps, w)
    ensures AllSurvive(steps, l, old(f.fs.disk), f.fs.sb, f.fs.others, iblock, slot, old(f.Bytes()), old(f.off), src)
    ensures OnDisk(f.fs, l, d, iblock, slot) && SoFar(old(f.Bytes()), old(f.off), src, w, f.Bytes())
  {
    hide FsInv, Backed, Contents, Survives, OthersSurvive, AllSurvive, Chained, InChunks, Updated, Next, Ready, SoFar,
      InodeSize, InodeAddrs, BitmapBlock, LogApart, Shows, LogDisk.Transaction;
    w, d, steps := 0, d0, [];
    ghost var disk0, c0, off0 := f.fs.disk, f.Bytes(), f.off;
    BackedSize(f.fs.disk, f.fs.addrs, f.fs.size);
    NothingYet(disk0, d0, l, f.fs.sb, f.fs.others, iblock, slot, c0, off0, src);
    if !f.writable {
      return -1, w, d, steps;
    }
    var i := 0;
    while i < n
      invariant i == w && 0 <= i <= |src| && f.off == off0 + w < TWO32
      invariant f.fs.Valid() && Backed(f.fs.disk, f.fs.addrs, f.fs.size) && f.fs.size <= MAXBYTES && |f.fs.addrs| == NDIRECT + 1
      invariant OnDisk(f.fs, l, d, iblock, slot) && Updated(disk0, f.fs.disk, f.fs.sb, f.fs.others, iblock, slot)
      invariant SoFar(c0, off0, src, w, Contents(f.fs.disk, f.fs.addrs, f.fs.size))
      invariant Chained(steps, d0, d, l) && InChunks(steps, w) && (w < n ==> w == |steps| * FileWrite.CHUNK)
      invariant AllSurvive(steps, l, disk0, f.fs.sb, f.fs.others, iblock, slot, c0, off0, src)
    {
      var n1 := n - i;
      if n1 > FileWrite.CHUNK {
        n1 := FileWrite.CHUNK;
      }
      ghost var st;
      var r;
      r, st := ChunkSafely(f.fs, src, i, n1, iblock, slot, d, l, c0, f.off - i, disk0);
      if r >= 0 {
        ChainNext(steps, d0, d, l, st);
        ChunkNext(steps, w, st);
        SurviveNext(steps, l, disk0, f.fs.sb, f.fs.others, iblock, slot, c0, off0, src, st);
        steps, d := steps + [st], Next(st, l);
        w := w + r;
        f.off := f.off + r;
      }
      if r != n1 {
        break;
      }
      i := i + r;
    }
    ret := if i == n then n else -1;
  }

  lemma NothingYet(disk: Disk, d: W.Disk, l: LogDisk.Layout, sb: Super, others: set<nat>, iblock: nat, slot: nat,
                   c: seq<Byte>, off: nat, src: seq<Byte>)
    ensures Chained([], d, d, l) && InChunks([], 0) && SoFar(c, off, src, 0, c)
    ensures AllSurvive([], l, disk, sb, others, iblock, slot, c, off, src)
    ensures iblock in disk ==> Updated(disk, disk, sb, others, iblock, slot)
  {
    assert off <= |c| ==> Splice(c, off, src[..0]) == c;
    if iblock in disk { NotUpdated(disk, sb, others, iblock, slot); }
  }
}
