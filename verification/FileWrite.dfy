/** filewrite of kernel/file.c for an inode: a write is cut into chunks, each
    its own log operation. */
module FileWrite {
  import opened Counting
  import opened FsBlocks
  import opened Inodes
  import opened FileSystem
  import opened FileContents

  import LogOperations

  const CHUNK := (LogOperations.MAXOPBLOCKS - 1 - 1 - 2) / 2 * BSIZE

  lemma SpliceTwice(c: seq<Byte>, off: nat, d: seq<Byte>, e: seq<Byte>)
    requires off <= |c|
    ensures off + |d| <= |Splice(c, off, d)|
    ensures Splice(Splice(c, off, d), off + |d|, e) == Splice(c, off, d + e)
  {
    var s := Splice(c, off, d);
    assert s[..off + |d|] == c[..off] + d;
    if off + |d| < |c| {
      assert s[off + |d|..] == c[off + |d|..];
      if off + |d| + |e| < |c| {
        assert s[off + |d| + |e|..] == c[off + |d| + |e|..];
      }
    }
  }

  // w bytes of src have been written at off, by operations that logged the
  // blocks of txns.
  ghost predicate Written(c0: seq<Byte>, off: nat, src: seq<Byte>, w: nat, c: seq<Byte>, txns: seq<set<nat>>, bound: nat) {
    && w <= |src|
    && (off <= |c0| ==> c == Splice(c0, off, src[..w]))
    && (off > |c0| ==> w == 0 && c == c0)
    && (forall t :: t in txns ==> |t| <= bound)
  }

  lemma WrittenNext(c0: seq<Byte>, off: nat, src: seq<Byte>, w: nat, c: seq<Byte>, txns: seq<set<nat>>, bound: nat,
                    r: nat, c': seq<Byte>, t: set<nat>)
    requires Written(c0, off, src, w, c, txns, bound) && off <= |c0| && w + r <= |src| && |t| <= bound
    requires off + w <= |c| && c' == Splice(c, off + w, src[w..w + r])
    ensures Written(c0, off, src, w + r, c', txns + [t], bound)
  {
    SpliceTwice(c0, off, src[..w], src[w..w + r]);
    assert src[..w] + src[w..w + r] == src[..w + r];
  }

  lemma WrittenSame(c0: seq<Byte>, off: nat, src: seq<Byte>, w: nat, c: seq<Byte>, txns: seq<set<nat>>, bound: nat, t: set<nat>)
    requires Written(c0, off, src, w, c, txns, bound) && |t| <= bound
    ensures Written(c0, off, src, w, c, txns + [t], bound)
  {
  }

  // All blocks that the operations have logged.
  ghost function Union(txns: seq<set<nat>>): set<nat> {
    if txns == [] then {} else Union(txns[..|txns| - 1]) + txns[|txns| - 1]
  }

  lemma UnionMore(txns: seq<set<nat>>, t: set<nat>)
    ensures Union(txns + [t]) == Union(txns) + t
  {
    assert (txns + [t])[..|txns|] == txns;
  }

  lemma LogsUnion(disk0: Disk, disk1: Disk, disk: Disk, txns: seq<set<nat>>, t: set<nat>)
    requires Logs(disk0, {}, disk1, Union(txns)) && Logs(disk1, {}, disk, t)
    ensures Logs(disk0, {}, disk, Union(txns + [t]))
  {
    UnionMore(txns, t);
  }

  lemma ConfinedUnion(disk0: Disk, disk1: Disk, disk: Disk, txns: seq<set<nat>>, t: set<nat>, iblock: nat, sb: Super,
                      others: set<nat>)
    requires Confined(disk0, {iblock}, disk1, Union(txns), sb, others) && Confined(disk1, {iblock}, disk, t, sb, others)
    ensures Confined(disk0, {iblock}, disk, Union(txns + [t]), sb, others)
  {
    hide BitmapBlock;
    UnionMore(txns, t);
  }

  lemma WrittenStart(c: seq<Byte>, off: nat, src: seq<Byte>, bound: nat)
    ensures Written(c, off, src, 0, c, [], bound)
  {
  }

  lemma NothingLogged(disk: Disk, iblock: nat, sb: Super, others: set<nat>)
    ensures Logs(disk, {}, disk, Union([])) && Confined(disk, {iblock}, disk, Union([]), sb, others)
  {
  }

  class File {
    const fs: Fs
    const writable: bool
    var off: nat

    constructor (f: Fs, w: bool, o: nat)
      ensures fs == f && writable == w && off == o
    {
      fs, writable, off := f, w, o;
    }

    ghost function Bytes(): seq<Byte>
      requires fs.Valid() && Backed(fs.disk, fs.addrs, fs.size)
      reads this, fs
    {
      BackedSize(fs.disk, fs.addrs, fs.size);
      Contents(fs.disk, fs.addrs, fs.size)
    }

    // One log operation: begin_op, writei, end_op. t are the blocks it logs.
    method WriteSome(i: nat, n1: nat, src: seq<Byte>, iblock: nat, ghost c0: seq<Byte>, ghost off0: nat, ghost txns: seq<set<nat>>)
      returns (r: int, ghost t: set<nat>)
      requires fs.Valid() && Backed(fs.disk, fs.addrs, fs.size) && off < TWO32 && |src| < TWO32
      requires 0 < n1 <= CHUNK && i + n1 <= |src| && off == off0 + i && (off0 <= |c0| <==> off <= fs.size)
      requires Written(c0, off0, src, i, Bytes(), txns, WriteBound(fs.sb))
      modifies this`off, fs
      ensures fs.Valid() && Backed(fs.disk, fs.addrs, fs.size)
      ensures r == -1 <==> old(off) > old(fs.size) || old(off) + n1 > MAXBYTES
      ensures r == -1 ==> off == old(off) && fs.size == old(fs.size) && Bytes() == old(Bytes())
      ensures r != -1 ==> 0 <= r <= n1 && off == old(off) + r <= fs.size
      ensures Written(c0, off0, src, if r == -1 then i else i + r, Bytes(), txns + [t], WriteBound(fs.sb))
      ensures Logs(old(fs.disk), {}, fs.disk, t) && Confined(old(fs.disk), {iblock}, fs.disk, t, fs.sb, fs.others)
      ensures 0 <= r < n1 ==> forall b :: 0 <= b < fs.sb.size ==> Used(fs.disk, fs.sb, b)
    {
      hide FsInv, Used, Backed, Written, Contents, Splice, Extends, Logs, Slot, LastPosition, Confined;
      ghost var c := Bytes();
      fs.logged := {};
      ghost var s;
      r, s := Writei(fs, off, src[i..i + n1], iblock);
      t := fs.logged;
      assert {} + {iblock} == {iblock};
      SubsetSize(t, s);
      BackedSize(fs.disk, fs.addrs, fs.size);
      if r != -1 {
        assert src[i..i + n1][..r] == src[i..i + r];
        WrittenNext(c0, off0, src, i, c, txns, WriteBound(fs.sb), r, Bytes(), t);
      } else {
        WrittenSame(c0, off0, src, i, c, txns, WriteBound(fs.sb), t);
      }
      if r > 0 {
        off := off + r;
      }
    }

    // filewrite of n bytes. w of them have been written and the offset has
    // moved past them; the result is n if that is all, and -1 otherwise, which
    // has three possible reasons.
    method Filewrite(n: int, src: seq<Byte>, iblock: nat) returns (ret: int, ghost w: nat, ghost txns: seq<set<nat>>)
      requires fs.Valid() && Backed(fs.disk, fs.addrs, fs.size) && off < TWO32
      requires |src| < TWO32 && |src| == if n < 0 then 0 else n
      modifies this`off, fs
      ensures fs.Valid() && Backed(fs.disk, fs.addrs, fs.size)
      ensures Written(old(Bytes()), old(off), src, w, Bytes(), txns, WriteBound(fs.sb))
      ensures Logs(old(fs.disk), {}, fs.disk, Union(txns))
      ensures Confined(old(fs.disk), {iblock}, fs.disk, Union(txns), fs.sb, fs.others)
      ensures off == old(off) + w
      ensures ret == if writable && w == n then n else -1
      ensures writable && w < n ==>
        || old(off) > old(fs.size)
        || off + Min(n - w, CHUNK) > MAXBYTES
        || forall b :: 0 <= b < fs.sb.size ==> Used(fs.disk, fs.sb, b)
    {
      hide FsInv, Used, Backed, Written, Contents, Union, Confined;
      w, txns := 0, [];
      NothingLogged(fs.disk, iblock, fs.sb, fs.others);
      ghost var c0 := Bytes();
      WrittenStart(c0, off, src, WriteBound(fs.sb));
      if !writable {
        return -1, w, txns;
      }
      var i := 0;
      while i < n
        invariant i == w && 0 <= i <= |src| && off == old(off) + w
        invariant fs.Valid() && Backed(fs.disk, fs.addrs, fs.size)
        invariant Written(c0, old(off), src, w, Bytes(), txns, WriteBound(fs.sb))
        invariant off <= fs.size <==> old(off) <= old(fs.size)
        invariant off < TWO32 && Logs(old(fs.disk), {}, fs.disk, Union(txns))
        invariant Confined(old(fs.disk), {iblock}, fs.disk, Union(txns), fs.sb, fs.others)
      {
        var n1 := n - i;
        if n1 > CHUNK {
          n1 := CHUNK;
        }
        ghost var disk1 := fs.disk;
        var r, t := WriteSome(i, n1, src, iblock, c0, old(off), txns);
        LogsUnion(old(fs.disk), disk1, fs.disk, txns, t);
        ConfinedUnion(old(fs.disk), disk1, fs.disk, txns, t, iblock, fs.sb, fs.others);
        txns := txns + [t];
        if r >= 0 {
          w := w + r;
        }
        if r != n1 {
          break;
        }
        i := i + r;
      }
      ret := if i == n then n else -1;
    }
  }

  // ---------- many writes at once ----------

  // A call of filewrite: what it found and left in the file, and the blocks
  // that each of its operations logged.
  datatype Call = Call(c0: seq<Byte>, off: nat, src: seq<Byte>, w: nat, c: seq<Byte>, txns: seq<set<nat>>)

  ghost predicate Made(call: Call, sb: Super) {
    Written(call.c0, call.off, call.src, call.w, call.c, call.txns, WriteBound(sb))
  }

  // The blocks t belong to one operation of one of the calls.
  ghost predicate OfCalls(calls: seq<Call>, t: set<nat>) {
    exists i, j :: 0 <= i < |calls| && 0 <= j < |calls[i].txns| && t <= calls[i].txns[j]
  }

  // In the run es, in any interleaving, every operation is one of the calls.
  ghost predicate Runs(size: nat, calls: seq<Call>, es: seq<LogOperations.Event>) {
    es != [] ==>
      && Runs(size, calls, es[..|es| - 1])
      && (LogOperations.After(size, es[..|es| - 1]).Next? ==>
           OfCallsNext(calls, LogOperations.After(size, es[..|es| - 1]).s, es[|es| - 1]))
  }

  ghost predicate OfCallsNext(calls: seq<Call>, s: LogOperations.State, e: LogOperations.Event) {
    e.Write? && e.p in s.ops ==> OfCalls(calls, s.ops[e.p] + {e.b})
  }

  lemma CallSize(calls: seq<Call>, sb: Super, t: set<nat>)
    requires OfCalls(calls, t) && forall i :: 0 <= i < |calls| ==> Made(calls[i], sb)
    ensures |t| <= WriteBound(sb)
  {
    var i, j :| 0 <= i < |calls| && 0 <= j < |calls[i].txns| && t <= calls[i].txns[j];
    assert Made(calls[i], sb) && calls[i].txns[j] in calls[i].txns;
    SubsetSize(t, calls[i].txns[j]);
  }

  lemma {:induction false} RunsWithin(sb: Super, size: nat, budget: nat, limit: nat, calls: seq<Call>,
                                      es: seq<LogOperations.Event>)
    requires LogOperations.Legal(size, budget, limit, es) && Runs(size, calls, es)
    requires forall i :: 0 <= i < |calls| ==> Made(calls[i], sb)
    ensures LogOperations.Legal(size, WriteBound(sb), limit, es)
  {
    if es != [] {
      var front, e := es[..|es| - 1], es[|es| - 1];
      RunsWithin(sb, size, budget, limit, calls, front);
      if LogOperations.After(size, front).Next? {
        var s := LogOperations.After(size, front).s;
        if e.Write? && e.p in s.ops { CallSize(calls, sb, s.ops[e.p] + {e.b}); }
      }
    }
  }

  // On a disk with one bitmap block, as FSSIZE makes it, any number of writes
  // in any interleaving cannot make the log or the buffer cache panic, if at
  // most five buffers are held at a time.
  lemma WritesAreSafe(sb: Super, size: nat, budget: nat, limit: nat, calls: seq<Call>, es: seq<LogOperations.Event>)
    requires sb.size <= BPB && size >= LogOperations.LogDisk.LOGSIZE && 1 <= limit <= 5
    requires LogOperations.Legal(size, budget, limit, es) && Runs(size, calls, es)
    requires forall i :: 0 <= i < |calls| ==> Made(calls[i], sb)
    ensures LogOperations.After(size, es).Next?
  {
    hide LogOperations.After, LogOperations.Legal, Runs, Made;
    RunsWithin(sb, size, budget, limit, calls, es);
    LogOperations.SafeBudgets(size, WriteBound(sb), limit);
  }
}
