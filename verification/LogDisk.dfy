/** The on-disk side of kernel/log.c: what each disk write of a commit or of a
    recovery leaves behind, and what recovery makes of it after a crash. */
module LogDisk {
  import opened Blocks

  const LOGSIZE: nat := 30

  // The log occupies the blocks start .. start + size - 1; the first of them
  // is the header block.
  datatype Layout = Layout(start: nat, size: nat)

  ghost predicate InLog(l: Layout, k: nat) {
    l.start <= k < l.start + l.size
  }

  // ---------- the header block ----------

  // struct logheader: the count in word 0, the home block numbers after it.
  ghost predicate GoodHeader(b: Block) {
    && 0 <= b[0] <= LOGSIZE
    && forall i :: 1 <= i <= b[0] ==> b[i] >= 0
  }

  ghost function HeaderBlocks(b: Block): (bs: seq<nat>)
    requires GoodHeader(b)
    ensures |bs| == b[0]
  {
    seq(b[0], i requires 0 <= i < b[0] => b[i + 1])
  }

  // write_head: the count and that many numbers are stored, the rest of the
  // block keeps its old words.
  ghost function Header(b: Block, bs: seq<nat>): (r: Block)
    requires |bs| <= LOGSIZE
  {
    [|bs|] + bs + b[|bs| + 1..]
  }

  lemma HeaderRoundTrip(b: Block, bs: seq<nat>)
    requires |bs| <= LOGSIZE
    ensures GoodHeader(Header(b, bs)) && HeaderBlocks(Header(b, bs)) == bs
  {
    assert forall i :: 0 <= i < |bs| ==> Header(b, bs)[i + 1] == bs[i];
  }

  // ---------- disks with a log ----------

  ghost predicate HomeBlocks(d: Disk, l: Layout, bs: seq<nat>) {
    forall i :: 0 <= i < |bs| ==> bs[i] in d && !InLog(l, bs[i])
  }

  ghost predicate HasLog(d: Disk, l: Layout) {
    l.size >= 1 && forall k :: InLog(l, k) ==> k in d
  }

  // A disk that recovery can start from.
  ghost predicate LogOk(d: Disk, l: Layout) {
    && HasLog(d, l)
    && GoodHeader(d[l.start])
    && d[l.start][0] < l.size
    && HomeBlocks(d, l, HeaderBlocks(d[l.start]))
  }

  ghost function Logged(d: Disk, l: Layout): (bs: seq<nat>)
    requires LogOk(d, l)
  {
    HeaderBlocks(d[l.start])
  }

  // The blocks outside the log, which is all that the file system looks at.
  ghost function Home(d: Disk, l: Layout): (h: Disk) {
    map k | k in d && !InLog(l, k) :: d[k]
  }

  // install_trans after t iterations, with the log's blocks naming bs.
  ghost function Install(d: Disk, l: Layout, bs: seq<nat>, t: nat): (r: Disk)
    requires HasLog(d, l) && t <= |bs| < l.size && HomeBlocks(d, l, bs)
    ensures r.Keys == d.Keys
  {
    if t == 0 then d else Install(d, l, bs, t - 1)[bs[t - 1] := d[l.start + t]]
  }

  // What the disk stands for: its home blocks once recovery has run.
  ghost function Durable(d: Disk, l: Layout): (h: Disk)
    requires LogOk(d, l)
  {
    Home(Install(d, l, Logged(d, l), |Logged(d, l)|), l)
  }

  // The blocks bs of h overwritten with vals, in order.
  ghost function Overlay(h: Disk, bs: seq<nat>, vals: seq<Block>, t: nat): (r: Disk)
    requires t <= |bs| == |vals|
  {
    if t == 0 then h else Overlay(h, bs, vals, t - 1)[bs[t - 1] := vals[t - 1]]
  }

  // The last position below t at which bs names block k, or -1.
  ghost function Last(bs: seq<nat>, t: nat, k: nat): (i: int)
    requires t <= |bs|
    ensures -1 <= i < t
    ensures i >= 0 ==> bs[i] == k
    ensures forall j :: i < j < t ==> bs[j] != k
  {
    if t == 0 then -1 else if bs[t - 1] == k then t - 1 else Last(bs, t - 1, k)
  }

  lemma {:induction false} InstallAt(d: Disk, l: Layout, bs: seq<nat>, t: nat, k: nat)
    requires HasLog(d, l) && t <= |bs| < l.size && HomeBlocks(d, l, bs) && k in d
    ensures InLog(l, l.start + Last(bs, t, k) + 1) && l.start + Last(bs, t, k) + 1 in d
    ensures InLog(l, k) ==> Last(bs, t, k) < 0
    ensures Install(d, l, bs, t)[k] ==
      if Last(bs, t, k) < 0 then d[k] else d[l.start + Last(bs, t, k) + 1]
  {
    if t > 0 { InstallAt(d, l, bs, t - 1, k); }
  }

  lemma {:induction false} OverlayAt(h: Disk, bs: seq<nat>, vals: seq<Block>, t: nat, k: nat)
    requires t <= |bs| == |vals| && k in h
    requires forall i :: 0 <= i < |bs| ==> bs[i] in h
    ensures Overlay(h, bs, vals, t).Keys == h.Keys
    ensures Overlay(h, bs, vals, t)[k] ==
      if Last(bs, t, k) < 0 then h[k] else vals[Last(bs, t, k)]
  {
    if t > 0 { OverlayAt(h, bs, vals, t - 1, k); }
  }

  // ---------- the writes of recover_from_log ----------

  // The disk after j writes of a recovery that starts on d: the logged blocks
  // in order, then a header with count 0.
  ghost function RecoveryDisk(d: Disk, l: Layout, j: nat): (r: Disk)
    requires LogOk(d, l) && j <= |Logged(d, l)| + 1
  {
    var bs := Logged(d, l);
    if j <= |bs| then Install(d, l, bs, j)
    else Install(d, l, bs, |bs|)[l.start := Header(d[l.start], [])]
  }

  // The disk after each of the first t writes of install_trans.
  ghost function InstallTrace(d: Disk, l: Layout, bs: seq<nat>, t: nat): (r: seq<Disk>)
    requires HasLog(d, l) && t <= |bs| < l.size && HomeBlocks(d, l, bs)
    ensures |r| == t && forall j :: 0 <= j < t ==> r[j] == Install(d, l, bs, j + 1)
  {
    if t == 0 then [] else InstallTrace(d, l, bs, t - 1) + [Install(d, l, bs, t)]
  }

  lemma InstallNext(d: Disk, l: Layout, bs: seq<nat>, t: nat)
    requires HasLog(d, l) && t < |bs| < l.size && HomeBlocks(d, l, bs)
    ensures l.start + t + 1 in d && !InLog(l, bs[t]) && InLog(l, l.start + t + 1)
    ensures Install(d, l, bs, t + 1) == Install(d, l, bs, t)[bs[t] := d[l.start + t + 1]]
    ensures InstallTrace(d, l, bs, t + 1) == InstallTrace(d, l, bs, t) + [Install(d, l, bs, t + 1)]
  {
    assert InLog(l, l.start + t + 1);
  }

  // The disk after each write of a recovery.
  ghost function RecoveryTrace(d: Disk, l: Layout): (r: seq<Disk>)
    requires LogOk(d, l)
    ensures |r| == |Logged(d, l)| + 1
    ensures forall j :: 0 <= j < |r| ==> r[j] == RecoveryDisk(d, l, j + 1)
  {
    InstallTrace(d, l, Logged(d, l), |Logged(d, l)|) + [RecoveryDisk(d, l, |Logged(d, l)| + 1)]
  }

  lemma InstallTwiceAt(d: Disk, l: Layout, bs: seq<nat>, s: nat, k: nat)
    requires HasLog(d, l) && s <= |bs| < l.size && HomeBlocks(d, l, bs)
    requires k in d && !InLog(l, k)
    ensures Install(Install(d, l, bs, s), l, bs, |bs|)[k] == Install(d, l, bs, |bs|)[k]
  {
    hide Install, Last;
    var e := Install(d, l, bs, s);
    InstallAt(d, l, bs, s, k);
    InstallAt(d, l, bs, |bs|, k);
    InstallAt(e, l, bs, |bs|, k);
    InstallAt(d, l, bs, s, l.start + Last(bs, |bs|, k) + 1);
  }

  lemma InstallKeepsDurable(d: Disk, l: Layout, j: nat)
    requires LogOk(d, l) && j <= |Logged(d, l)|
    ensures LogOk(Install(d, l, Logged(d, l), j), l)
    ensures Durable(Install(d, l, Logged(d, l), j), l) == Durable(d, l)
  {
    hide Install, Last, HeaderBlocks;
    var bs := Logged(d, l);
    var r := Install(d, l, bs, j);
    assert InLog(l, l.start);
    InstallAt(d, l, bs, j, l.start);
    forall k | k in d && !InLog(l, k)
      ensures Install(r, l, bs, |bs|)[k] == Install(d, l, bs, |bs|)[k]
    {
      InstallTwiceAt(d, l, bs, j, k);
    }
  }

  // Once the header's count is 0, a disk stands for its own home blocks.
  lemma ClearedIsDurable(d: Disk, l: Layout, b: Block)
    requires HasLog(d, l)
    ensures LogOk(d[l.start := Header(b, [])], l) && Logged(d[l.start := Header(b, [])], l) == []
    ensures Durable(d[l.start := Header(b, [])], l) == Home(d[l.start := Header(b, [])], l) == Home(d, l)
  {
    HeaderRoundTrip(b, []);
    assert InLog(l, l.start);
  }

  // Wherever a recovery is cut short, the disk stands for the same contents.
  lemma RecoveryKeepsDurable(d: Disk, l: Layout, j: nat)
    requires LogOk(d, l) && j <= |Logged(d, l)| + 1
    ensures LogOk(RecoveryDisk(d, l, j), l)
    ensures Durable(RecoveryDisk(d, l, j), l) == Durable(d, l)
  {
    hide Install, Header, HeaderBlocks;
    if j <= |Logged(d, l)| {
      InstallKeepsDurable(d, l, j);
    } else {
      ClearedIsDurable(Install(d, l, Logged(d, l), |Logged(d, l)|), l, d[l.start]);
    }
  }

  // ---------- the writes of commit ----------

  // The log blocks filled with vals, t of them so far (write_log).
  ghost function Fill(d: Disk, l: Layout, vals: seq<Block>, t: nat): (r: Disk)
    requires HasLog(d, l) && t <= |vals| < l.size
    ensures r.Keys == d.Keys
  {
    if t == 0 then d else Fill(d, l, vals, t - 1)[l.start + t := vals[t - 1]]
  }

  // The disk after each of the first t writes of write_log.
  ghost function FillTrace(d: Disk, l: Layout, vals: seq<Block>, t: nat): (r: seq<Disk>)
    requires HasLog(d, l) && t <= |vals| < l.size
    ensures |r| == t && forall j :: 0 <= j < t ==> r[j] == Fill(d, l, vals, j + 1)
  {
    if t == 0 then [] else FillTrace(d, l, vals, t - 1) + [Fill(d, l, vals, t)]
  }

  lemma FillNext(d: Disk, l: Layout, vals: seq<Block>, t: nat)
    requires HasLog(d, l) && t < |vals| < l.size
    ensures Fill(d, l, vals, t + 1) == Fill(d, l, vals, t)[l.start + t + 1 := vals[t]]
    ensures FillTrace(d, l, vals, t + 1) == FillTrace(d, l, vals, t) + [Fill(d, l, vals, t + 1)]
  {
  }

  lemma {:induction false} FillAt(d: Disk, l: Layout, vals: seq<Block>, t: nat, k: nat)
    requires HasLog(d, l) && t <= |vals| < l.size && k in d
    ensures Fill(d, l, vals, t)[k] ==
      if l.start < k <= l.start + t then vals[k - l.start - 1] else d[k]
  {
    if t > 0 { FillAt(d, l, vals, t - 1, k); }
  }

  // The disk of a transaction whose header has just been written.
  ghost function Committed(d: Disk, l: Layout, bs: seq<nat>, vals: seq<Block>): (r: Disk)
    requires HasLog(d, l) && |bs| == |vals| < l.size && |bs| <= LOGSIZE
  {
    Fill(d, l, vals, |bs|)[l.start := Header(d[l.start], bs)]
  }

  // A transaction that log_write accepted: n blocks of the file system, with
  // the contents the buffers hold for them.
  ghost predicate Transaction(d: Disk, l: Layout, bs: seq<nat>, vals: seq<Block>) {
    && LogOk(d, l) && Logged(d, l) == []
    && |bs| == |vals| && |bs| <= LOGSIZE && |bs| < l.size
    && HomeBlocks(d, l, bs)
  }

  // The disk after j writes of a commit: |bs| log blocks, the header, |bs|
  // home blocks, and the header with count 0.
  ghost function CommitDisk(d: Disk, l: Layout, bs: seq<nat>, vals: seq<Block>, j: nat): (r: Disk)
    requires Transaction(d, l, bs, vals) && j <= 2 * |bs| + 2
  {
    var n := |bs|;
    if j <= n then Fill(d, l, vals, j)
    else if j <= 2 * n + 1 then Install(Committed(d, l, bs, vals), l, bs, j - n - 1)
    else Install(Committed(d, l, bs, vals), l, bs, n)[l.start := Header(Header(d[l.start], bs), [])]
  }

  // The disk after each write of a commit.
  ghost function CommitTrace(d: Disk, l: Layout, bs: seq<nat>, vals: seq<Block>): (r: seq<Disk>)
    requires Transaction(d, l, bs, vals)
    ensures |r| == 2 * |bs| + 2
    ensures forall j :: 0 <= j < |r| ==> r[j] == CommitDisk(d, l, bs, vals, j + 1)
  {
    var c := Committed(d, l, bs, vals);
    FillTrace(d, l, vals, |bs|) + [c] + InstallTrace(c, l, bs, |bs|) + [CommitDisk(d, l, bs, vals, 2 * |bs| + 2)]
  }

  lemma CommittedIsReady(d: Disk, l: Layout, bs: seq<nat>, vals: seq<Block>)
    requires Transaction(d, l, bs, vals)
    ensures LogOk(Committed(d, l, bs, vals), l) && Logged(Committed(d, l, bs, vals), l) == bs
    ensures Durable(Committed(d, l, bs, vals), l) == Overlay(Home(d, l), bs, vals, |bs|)
  {
    var c := Committed(d, l, bs, vals);
    HeaderRoundTrip(d[l.start], bs);
    assert InLog(l, l.start);
    assert c.Keys == d.Keys;
    OverlayKeys(Home(d, l), bs, vals, |bs|);
    forall k | k in d && !InLog(l, k)
      ensures Install(c, l, bs, |bs|)[k] == Overlay(Home(d, l), bs, vals, |bs|)[k]
    {
      CommittedAt(d, l, bs, vals, k);
    }
  }

  lemma {:induction false} OverlayKeys(h: Disk, bs: seq<nat>, vals: seq<Block>, t: nat)
    requires t <= |bs| == |vals|
    requires forall i :: 0 <= i < |bs| ==> bs[i] in h
    ensures Overlay(h, bs, vals, t).Keys == h.Keys
  {
    if t > 0 { OverlayKeys(h, bs, vals, t - 1); }
  }

  lemma CommittedAt(d: Disk, l: Layout, bs: seq<nat>, vals: seq<Block>, k: nat)
    requires Transaction(d, l, bs, vals) && k in d && !InLog(l, k)
    requires HasLog(Committed(d, l, bs, vals), l) && HomeBlocks(Committed(d, l, bs, vals), l, bs)
    ensures k in Overlay(Home(d, l), bs, vals, |bs|)
    ensures Install(Committed(d, l, bs, vals), l, bs, |bs|)[k] == Overlay(Home(d, l), bs, vals, |bs|)[k]
  {
    hide Install, Last, Overlay, Fill;
    var c := Committed(d, l, bs, vals);
    InstallAt(c, l, bs, |bs|, k);
    OverlayAt(Home(d, l), bs, vals, |bs|, k);
    FillAt(d, l, vals, |bs|, k);
    var i := Last(bs, |bs|, k);
    if i >= 0 {
      FillAt(d, l, vals, |bs|, l.start + i + 1);
    }
  }

  // Crash atomicity: a crash after any number of a commit's writes leaves a
  // disk that stands for the old contents before the header write and for the
  // whole transaction from the header write on.
  lemma CommitIsAtomic(d: Disk, l: Layout, bs: seq<nat>, vals: seq<Block>, j: nat)
    requires Transaction(d, l, bs, vals) && j <= 2 * |bs| + 2
    ensures LogOk(CommitDisk(d, l, bs, vals, j), l)
    ensures Durable(CommitDisk(d, l, bs, vals, j), l) ==
      if j <= |bs| then Home(d, l) else Overlay(Home(d, l), bs, vals, |bs|)
  {
    var n := |bs|;
    if j <= n {
      var r := Fill(d, l, vals, j);
      forall k | k in d && (!InLog(l, k) || k == l.start) ensures r[k] == d[k] {
        FillAt(d, l, vals, j, k);
      }
      assert Home(r, l) == Home(d, l);
    } else {
      CommittedIsReady(d, l, bs, vals);
      var c := Committed(d, l, bs, vals);
      RecoveryKeepsDurable(c, l, j - n - 1);
    }
  }

  // ---------- crashes during recovery ----------

  // The disk after a series of recoveries, the i-th of which crashes after
  // js[i] of its writes (or after the last one, if it has fewer).
  ghost function AfterCrashes(d: Disk, l: Layout, js: seq<nat>): (r: Disk)
    requires LogOk(d, l)
    ensures LogOk(r, l) && Durable(r, l) == Durable(d, l)
    decreases |js|
  {
    if js == [] then d
    else
      var j := if js[0] <= |Logged(d, l)| then js[0] else |Logged(d, l)| + 1;
      RecoveryKeepsDurable(d, l, j);
      AfterCrashes(RecoveryDisk(d, l, j), l, js[1..])
  }

  lemma RecoveryInstalls(d: Disk, l: Layout)
    requires LogOk(d, l)
    ensures var r := RecoveryDisk(d, l, |Logged(d, l)| + 1);
      LogOk(r, l) && Logged(r, l) == [] && Home(r, l) == Durable(d, l)
  {
    ClearedIsDurable(Install(d, l, Logged(d, l), |Logged(d, l)|), l, d[l.start]);
  }

  // Crash after j writes of a commit, crash again in any number of recoveries,
  // and let one recovery finish: the home blocks hold either everything the
  // transaction wrote or nothing of it, and the log is empty.
  lemma CrashAtomicity(d: Disk, l: Layout, bs: seq<nat>, vals: seq<Block>, j: nat, js: seq<nat>)
    requires Transaction(d, l, bs, vals) && j <= 2 * |bs| + 2
    requires LogOk(CommitDisk(d, l, bs, vals, j), l)
    ensures var c := AfterCrashes(CommitDisk(d, l, bs, vals, j), l, js);
      var r := RecoveryDisk(c, l, |Logged(c, l)| + 1);
      && LogOk(r, l) && Logged(r, l) == []
      && Home(r, l) == if j <= |bs| then Home(d, l) else Overlay(Home(d, l), bs, vals, |bs|)
  {
    hide CommitDisk, RecoveryDisk, AfterCrashes, Overlay;
    CommitIsAtomic(d, l, bs, vals, j);
    RecoveryInstalls(AfterCrashes(CommitDisk(d, l, bs, vals, j), l, js), l);
  }
}
