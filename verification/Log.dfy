/** kernel/log.c over the buffer cache: transactions, commit and recovery. */
module WriteAheadLog {
  import opened Blocks
  import opened BufferCache
  import opened LogDisk
  import opened Counting

  // The blocks bs sit, valid, in the pinned buffers slot, one pin each.
  ghost predicate Pinned(buf: seq<Buf>, pins: multiset<nat>, bs: seq<nat>, slot: seq<nat>) {
    && |slot| == |bs| && pins == multiset(slot)
    && (forall t :: 0 <= t < |bs| ==>
         slot[t] < |buf| && Holds(buf[slot[t]], ROOTDEV, bs[t]) && buf[slot[t]].valid)
  }

  // vals are the contents of the blocks bs.
  ghost predicate Contents(view: Disk, bs: seq<nat>, vals: seq<Block>) {
    |vals| == |bs| && forall i :: 0 <= i < |bs| ==> bs[i] in view && view[bs[i]] == vals[i]
  }

  lemma PinnedKept(buf: seq<Buf>, buf': seq<Buf>, pins: multiset<nat>, bs: seq<nat>, slot: seq<nat>)
    requires Pinned(buf, pins, bs, slot) && SamePinned(buf, buf', pins)
    ensures Pinned(buf', pins, bs, slot)
  {
    assert forall t :: 0 <= t < |slot| ==> slot[t] in multiset(slot);
  }

  lemma PinnedAt(buf: seq<Buf>, pins: multiset<nat>, bs: seq<nat>, slot: seq<nat>, t: nat)
    requires Pinned(buf, pins, bs, slot) && t < |bs|
    ensures slot[t] in pins && |pins| == |bs| && PinnedBlock(buf, pins, bs[t])
  {
    assert slot[t] in multiset(slot);
  }

  // No buffer that somebody holds has a block of the log or one of bs.
  ghost predicate HeldAway(buf: seq<Buf>, refs: multiset<nat>, l: Layout, bs: seq<nat>) {
    forall i :: i in refs && i < |buf| ==> !InLog(l, buf[i].blockno) && buf[i].blockno !in bs
  }

  ghost function HeldBlocks(buf: seq<Buf>, refs: multiset<nat>): set<nat> {
    set i | i in refs && i < |buf| :: buf[i].blockno
  }

  // The buffers that somebody holds.
  ghost function Handles(refs: multiset<nat>): set<nat> {
    set i | i in refs
  }

  lemma AwayUnheld(buf: seq<Buf>, refs: multiset<nat>, l: Layout, bs: seq<nat>, k: nat)
    requires HeldAway(buf, refs, l, bs) && (InLog(l, k) || k in bs)
    ensures Unheld(buf, refs, k)
  {
  }

  lemma AwayKept(buf: seq<Buf>, buf': seq<Buf>, refs: multiset<nat>, l: Layout, bs: seq<nat>)
    requires HeldAway(buf, refs, l, bs) && SameHeld(buf, buf', refs)
    ensures HeldAway(buf', refs, l, bs)
  {
  }

  lemma HeldChain(buf: seq<Buf>, buf1: seq<Buf>, buf2: seq<Buf>, refs: multiset<nat>)
    requires SameHeld(buf, buf1, refs) && SameHeld(buf1, buf2, refs)
    ensures SameHeld(buf, buf2, refs)
  {
  }

  lemma HeldStart(buf: seq<Buf>, refs: multiset<nat>)
    ensures SameHeld(buf, buf, refs)
  {
  }

  // Once every buffer is held or pinned, no block of the log can be read.
  lemma AllTaken(buf: seq<Buf>, refs: multiset<nat>, pins: multiset<nat>, l: Layout, bs: seq<nat>, slot: seq<nat>, k: nat)
    requires |buf| == NBUF && AllReferenced(buf) && Crowded(refs, pins)
    requires Pinned(buf, pins, bs, slot) && HeldAway(buf, refs, l, bs) && InLog(l, k) && k !in bs
    ensures NoBuffer(buf, k)
  {
    forall i | 0 <= i < NBUF ensures !Holds(buf[i], ROOTDEV, k) {
      if refs[i] == 0 {
        assert i in multiset(slot);
        var t :| 0 <= t < |slot| && slot[t] == i;
        assert bs[t] in bs;
      } else {
        assert i in refs;
      }
    }
  }

  lemma DistinctSlots(buf: seq<Buf>, pins: multiset<nat>, bs: seq<nat>, slot: seq<nat>)
    requires Pinned(buf, pins, bs, slot) && Distinct(bs)
    ensures Distinct(slot)
  {
    forall i, j | 0 <= i < j < |slot| ensures slot[i] != slot[j] {
      assert bs[i] != bs[j];
    }
  }

  lemma SlotSet(slot: seq<nat>, pins: multiset<nat>)
    requires Distinct(slot) && pins == multiset(slot)
    ensures |Handles(pins)| == |slot|
  {
    ImageSize(slot, |slot|);
    assert Handles(pins) == set i | 0 <= i < |slot| :: slot[i];
  }

  lemma HeldNotPinned(buf: seq<Buf>, refs: multiset<nat>, pins: multiset<nat>, l: Layout, bs: seq<nat>, slot: seq<nat>)
    requires Pinned(buf, pins, bs, slot) && HeldAway(buf, refs, l, bs)
    ensures Handles(refs) !! Handles(pins)
  {
    forall i | i in pins ensures i !in refs {
      assert i in multiset(slot);
      var t :| 0 <= t < |slot| && slot[t] == i;
      assert bs[t] in bs;
    }
  }

  lemma TakenAll(refs: multiset<nat>, pins: multiset<nat>)
    requires Handles(refs) + Handles(pins) <= Below(NBUF)
    ensures Crowded(refs, pins) <==> |Handles(refs) + Handles(pins)| >= NBUF
  {
    var taken := Handles(refs) + Handles(pins);
    if Crowded(refs, pins) {
      forall i: nat | i < NBUF ensures i in taken { assert refs[i] + pins[i] > 0; }
      assert taken == Below(NBUF);
    } else {
      var i :| 0 <= i < NBUF && refs[i] + pins[i] == 0;
      assert i in Below(NBUF) && i !in taken;
      SmallerSet(taken, Below(NBUF));
    }
  }

  // All buffers are taken exactly when the logged blocks and the buffers held
  // for other blocks are NBUF in number.
  lemma CrowdedExactly(buf: seq<Buf>, refs: multiset<nat>, pins: multiset<nat>, l: Layout, bs: seq<nat>, slot: seq<nat>)
    requires |buf| == NBUF && Counted(buf, refs, pins)
    requires Pinned(buf, pins, bs, slot) && Distinct(bs) && HeldAway(buf, refs, l, bs)
    ensures Crowded(refs, pins) <==> |bs| + |Handles(refs)| >= NBUF
  {
    DistinctSlots(buf, pins, bs, slot);
    SlotSet(slot, pins);
    HeldNotPinned(buf, refs, pins, l, bs, slot);
    assert Handles(refs) + Handles(pins) <= Below(NBUF);
    hide Pinned, Distinct, HeldAway, Crowded;
    TakenAll(refs, pins);
  }

  lemma {:induction false} HandlesAtMost(refs: multiset<nat>)
    ensures |Handles(refs)| <= |refs|
    decreases |refs|
  {
    if i :| i in refs {
      var rest := refs - multiset{i};
      HandlesAtMost(rest);
      assert refs == rest + multiset{i};
      assert Handles(refs) == Handles(rest) + {i};
    } else {
      assert Handles(refs) == {};
    }
  }

  lemma FewerPins(refs: multiset<nat>, pins: multiset<nat>, less: multiset<nat>)
    requires !Crowded(refs, pins)
    ensures !Crowded(refs, pins - less)
  {
    var i :| 0 <= i < NBUF && refs[i] + pins[i] == 0;
    assert refs[i] + (pins - less)[i] == 0;
  }

  lemma LogBlockUnheld(buf: seq<Buf>, refs: multiset<nat>, l: Layout, bs: seq<nat>, t: nat)
    requires HeldAway(buf, refs, l, bs) && t + 1 < l.size
    ensures Unheld(buf, refs, l.start + t + 1)
  {
    assert InLog(l, l.start + t + 1);
  }

  lemma OneReturned(refs: multiset<nat>, b: nat)
    ensures refs + multiset{b} - multiset{b} == refs
  {
  }

  lemma NotLogged(d: Disk, l: Layout, bs: seq<nat>, t: nat)
    requires HasLog(d, l) && HomeBlocks(d, l, bs) && t + 1 < l.size
    ensures l.start + t + 1 !in bs && l.start + t + 1 in d && InLog(l, l.start + t + 1)
  {
    assert InLog(l, l.start + t + 1);
  }

  // Disk, view and trace after t log blocks have been written.
  ghost predicate LogFilled(d0: Disk, view0: Disk, trace0: seq<Disk>, d: Disk, view: Disk, trace: seq<Disk>,
                            l: Layout, vals: seq<Block>, t: nat) {
    && t <= |vals| < l.size && HasLog(d0, l) && HasLog(view0, l)
    && d == Fill(d0, l, vals, t)
    && view == Fill(view0, l, vals, t)
    && trace == trace0 + FillTrace(d0, l, vals, t)
  }

  lemma FillStart(d: Disk, view: Disk, trace: seq<Disk>, l: Layout, vals: seq<Block>)
    requires HasLog(d, l) && HasLog(view, l) && |vals| < l.size
    ensures LogFilled(d, view, trace, d, view, trace, l, vals, 0)
  {
  }

  lemma FillStep(d0: Disk, view0: Disk, trace0: seq<Disk>, d: Disk, view: Disk, trace: seq<Disk>,
                 l: Layout, bs: seq<nat>, vals: seq<Block>, t: nat)
    requires LogFilled(d0, view0, trace0, d, view, trace, l, vals, t)
    requires d0.Keys == view0.Keys && t < |bs| && HomeBlocks(d0, l, bs) && Contents(view0, bs, vals)
    ensures bs[t] in d && l.start + t + 1 in d && bs[t] != l.start + t + 1 && bs[t] in view && view[bs[t]] == vals[t]
    ensures var d' := d[l.start + t + 1 := vals[t]];
      LogFilled(d0, view0, trace0, d', view[l.start + t + 1 := vals[t]], trace + [d'], l, vals, t + 1)
  {
    hide Fill, FillTrace;
    assert InLog(l, l.start + t + 1) && !InLog(l, bs[t]);
    assert l.start + t + 1 in d0 && bs[t] in view0;
    FillAt(view0, l, vals, t, bs[t]);
    FillNext(d0, l, vals, t);
    FillNext(view0, l, vals, t);
  }

  // Disk, view and trace after t home blocks have been installed.
  ghost predicate HomeInstalled(d0: Disk, view0: Disk, trace0: seq<Disk>, d: Disk, view: Disk, trace: seq<Disk>,
                                l: Layout, bs: seq<nat>, t: nat) {
    && HasLog(d0, l) && t <= |bs| < l.size && HomeBlocks(d0, l, bs) && view0.Keys == d0.Keys
    && d == Install(d0, l, bs, t)
    && view == Install(view0, l, bs, t)
    && trace == trace0 + InstallTrace(d0, l, bs, t)
  }

  // The cache has nothing newer for the blocks of the log.
  ghost predicate LogClean(d: Disk, view: Disk, dirty: map<nat, nat>, l: Layout) {
    forall k :: InLog(l, k) ==> k in d && k in view && k !in dirty && view[k] == d[k]
  }

  lemma InstallStart(d: Disk, view: Disk, trace: seq<Disk>, l: Layout, bs: seq<nat>)
    requires HasLog(d, l) && |bs| < l.size && HomeBlocks(d, l, bs) && view.Keys == d.Keys
    ensures HomeInstalled(d, view, trace, d, view, trace, l, bs, 0)
  {
  }

  lemma InstallStep(d0: Disk, view0: Disk, trace0: seq<Disk>, dirty0: map<nat, nat>, d: Disk, view: Disk, trace: seq<Disk>,
                    l: Layout, bs: seq<nat>, t: nat)
    requires HomeInstalled(d0, view0, trace0, d, view, trace, l, bs, t) && LogClean(d0, view0, dirty0, l)
    requires t < |bs|
    ensures bs[t] in d && l.start + t + 1 in d && bs[t] != l.start + t + 1
    ensures l.start + t + 1 in view && l.start + t + 1 !in dirty0
    ensures var d' := d[bs[t] := view[l.start + t + 1]];
      HomeInstalled(d0, view0, trace0, d', view[bs[t] := view[l.start + t + 1]], trace + [d'], l, bs, t + 1)
  {
    hide Install, InstallTrace;
    InstallNext(d0, l, bs, t);
    InstallNext(view0, l, bs, t);
    InstallAt(view0, l, bs, t, l.start + t + 1);
  }

  lemma CleanStep(dirty: map<nat, nat>, bs: seq<nat>, t: nat)
    requires t < |bs|
    ensures dirty - Elems(bs[..t]) - {bs[t]} == dirty - Elems(bs[..t + 1])
  {
    assert bs[..t + 1] == bs[..t] + [bs[t]];
    assert Elems(bs[..t + 1]) == Elems(bs[..t]) + {bs[t]};
  }

  lemma NothingCleaned(dirty: map<nat, nat>, bs: seq<nat>)
    ensures dirty - Elems(bs[..0]) == dirty
  {
  }

  lemma FirstPinned(buf: seq<Buf>, pins: multiset<nat>, bs: seq<nat>, slot: seq<nat>)
    requires Pinned(buf, pins, bs, slot) && |bs| > 0
    ensures |slot| == |bs| == |pins| && slot[0] in pins && slot[0] < |buf| && Holds(buf[slot[0]], ROOTDEV, bs[0])
  {
    assert slot[0] in multiset(slot);
  }

  lemma PinnedRest(buf: seq<Buf>, pins: multiset<nat>, bs: seq<nat>, slot: seq<nat>)
    requires Pinned(buf, pins, bs, slot)
    ensures |slot| == |bs| && Pinned(buf, pins, bs[0..], slot[0..])
  {
    assert bs[0..] == bs && slot[0..] == slot;
  }

  lemma NonePinned(buf: seq<Buf>, pins: multiset<nat>, bs: seq<nat>, slot: seq<nat>)
    requires Pinned(buf, pins, bs, slot) && bs == []
    ensures pins == multiset{}
  {
  }

  // One block fewer is pinned.
  lemma UnpinStep(buf: seq<Buf>, buf': seq<Buf>, pins: multiset<nat>, bs: seq<nat>, slot: seq<nat>)
    requires Pinned(buf, pins, bs, slot) && |bs| > 0 && SamePinned(buf, buf', pins)
    ensures Pinned(buf', pins - multiset{slot[0]}, bs[1..], slot[1..])
  {
    PinnedKept(buf, buf', pins, bs, slot);
    assert slot == [slot[0]] + slot[1..];
  }

  // ---------- commit as a whole ----------

  ghost function Values(view: Disk, bs: seq<nat>): (vals: seq<Block>)
    requires forall i :: 0 <= i < |bs| ==> bs[i] in view
    ensures Contents(view, bs, vals)
  {
    seq(|bs|, i requires 0 <= i < |bs| => view[bs[i]])
  }

  // The state commit starts from: the log on disk is empty, the cache has the
  // blocks bs, and there is nothing else that the disk does not have.
  ghost predicate ReadyToCommit(d: Disk, view: Disk, dirty: map<nat, nat>, l: Layout, bs: seq<nat>) {
    && view.Keys == d.Keys && HomeBlocks(d, l, bs)
    && Transaction(d, l, bs, Values(view, bs))
    && dirty.Keys <= Elems(bs)
    && (forall k :: k in d && k !in dirty ==> view[k] == d[k])
  }

  // The same while calls are active: a block that somebody holds may already
  // have changed without being logged yet.
  ghost predicate Prepared(d: Disk, view: Disk, dirty: map<nat, nat>, l: Layout, bs: seq<nat>, held: set<nat>) {
    && view.Keys == d.Keys && HomeBlocks(d, l, bs)
    && Transaction(d, l, bs, Values(view, bs))
    && dirty.Keys <= Elems(bs) + held
    && (forall k :: k in d && k !in dirty ==> view[k] == d[k])
  }

  lemma NothingUnlogged(d: Disk, view: Disk, dirty: map<nat, nat>, l: Layout, bs: seq<nat>, held: set<nat>)
    ensures ReadyToCommit(d, view, dirty, l, bs) ==> Prepared(d, view, dirty, l, bs, held)
    ensures Prepared(d, view, dirty, l, bs, held) && dirty.Keys <= Elems(bs) ==> ReadyToCommit(d, view, dirty, l, bs)
  {
  }

  lemma ReadyDirty(d: Disk, view: Disk, dirty: map<nat, nat>, l: Layout, bs: seq<nat>)
    ensures ReadyToCommit(d, view, dirty, l, bs) ==> dirty.Keys <= Elems(bs)
  {
  }

  lemma ReadyFacts(d: Disk, view: Disk, dirty: map<nat, nat>, l: Layout, bs: seq<nat>)
    requires ReadyToCommit(d, view, dirty, l, bs)
    ensures HasLog(d, l) && HasLog(view, l) && |bs| < l.size && |bs| <= LOGSIZE && InLog(l, l.start)
    ensures LogClean(d, view, dirty, l)
    ensures Transaction(view, l, bs, Values(view, bs))
  {
    assert forall k :: k in dirty ==> k in bs;
    assert InLog(l, l.start);
  }

  // The two disk images that the first half of a commit produces.
  ghost predicate HeaderOnDisk(d0: Disk, view0: Disk, trace0: seq<Disk>, d: Disk, view: Disk, trace: seq<Disk>,
                               l: Layout, bs: seq<nat>, vals: seq<Block>) {
    && Transaction(d0, l, bs, vals) && Transaction(view0, l, bs, vals)
    && d0[l.start] == view0[l.start] && d0.Keys == view0.Keys
    && d == Committed(d0, l, bs, vals)
    && view == Committed(view0, l, bs, vals)
    && trace == trace0 + FillTrace(d0, l, vals, |bs|) + [d]
    && HasLog(d, l) && HomeBlocks(d, l, bs)
  }

  // After write_log and the header write.
  lemma HeaderWritten(d0: Disk, view0: Disk, trace0: seq<Disk>, d: Disk, view: Disk, trace: seq<Disk>,
                      dirty0: map<nat, nat>, dirty: map<nat, nat>, l: Layout, bs: seq<nat>, vals: seq<Block>)
    requires Transaction(d0, l, bs, vals) && Transaction(view0, l, bs, vals) && LogClean(d0, view0, dirty0, l)
    requires d0.Keys == view0.Keys
    requires LogFilled(d0, view0, trace0, d, view, trace, l, vals, |bs|)
    requires dirty.Keys <= dirty0.Keys
    ensures l.start in d && l.start in view
    ensures d[l.start := Header(view[l.start], bs)] == Committed(d0, l, bs, vals)
    ensures view[l.start := Header(view[l.start], bs)] == Committed(view0, l, bs, vals)
    ensures LogClean(Committed(d0, l, bs, vals), Committed(view0, l, bs, vals), dirty - {l.start}, l)
    ensures HeaderOnDisk(d0, view0, trace0, Committed(d0, l, bs, vals), Committed(view0, l, bs, vals),
                         trace + [Committed(d0, l, bs, vals)], l, bs, vals)
  {
    hide Fill, FillTrace, Header;
    assert InLog(l, l.start);
    FillAt(d0, l, vals, |bs|, l.start);
    FillAt(view0, l, vals, |bs|, l.start);
    var c, cv := Committed(d0, l, bs, vals), Committed(view0, l, bs, vals);
    forall k | InLog(l, k) ensures k in c && k in cv && c[k] == cv[k] {
      FillAt(d0, l, vals, |bs|, k);
      FillAt(view0, l, vals, |bs|, k);
    }
  }

  // After install_trans and the second header write.
  lemma HeaderCleared(d0: Disk, l: Layout, bs: seq<nat>, vals: seq<Block>)
    requires Transaction(d0, l, bs, vals)
    requires HasLog(Committed(d0, l, bs, vals), l) && HomeBlocks(Committed(d0, l, bs, vals), l, bs)
    ensures var d := Install(Committed(d0, l, bs, vals), l, bs, |bs|);
      && l.start in d && d[l.start] == Header(d0[l.start], bs)
      && d[l.start := Header(Header(d0[l.start], bs), [])] == CommitDisk(d0, l, bs, vals, 2 * |bs| + 2)
  {
    hide Install;
    assert InLog(l, l.start);
    InstallAt(Committed(d0, l, bs, vals), l, bs, |bs|, l.start);
  }

  lemma HomeAfterCommit(d: Disk, l: Layout, bs: seq<nat>, vals: seq<Block>)
    requires Transaction(d, l, bs, vals)
    ensures var r := CommitDisk(d, l, bs, vals, 2 * |bs| + 2);
      LogOk(r, l) && Logged(r, l) == [] && Home(r, l) == Overlay(Home(d, l), bs, vals, |bs|)
  {
    hide Install, Header, Overlay;
    CommitIsAtomic(d, l, bs, vals, 2 * |bs| + 2);
    CommittedIsReady(d, l, bs, vals);
    ClearedIsDurable(Install(Committed(d, l, bs, vals), l, bs, |bs|), l, Header(d[l.start], bs));
  }

  // Writing what the view has for bs over the disk, or over the view itself,
  // gives the view.
  lemma OverlayIsView(d: Disk, view: Disk, dirty: map<nat, nat>, l: Layout, bs: seq<nat>)
    requires ReadyToCommit(d, view, dirty, l, bs)
    ensures Overlay(Home(d, l), bs, Values(view, bs), |bs|) == Home(view, l)
    ensures Overlay(Home(view, l), bs, Values(view, bs), |bs|) == Home(view, l)
  {
    hide Overlay, Last, Transaction;
    var vals := Values(view, bs);
    OverlayKeys(Home(d, l), bs, vals, |bs|);
    OverlayKeys(Home(view, l), bs, vals, |bs|);
    forall k | k in d && !InLog(l, k)
      ensures Overlay(Home(d, l), bs, vals, |bs|)[k] == view[k]
      ensures Overlay(Home(view, l), bs, vals, |bs|)[k] == view[k]
    {
      OverlayAt(Home(d, l), bs, vals, |bs|, k);
      OverlayAt(Home(view, l), bs, vals, |bs|, k);
    }
  }

  lemma ReadyShape(d: Disk, view: Disk, dirty: map<nat, nat>, l: Layout, bs: seq<nat>)
    requires ReadyToCommit(d, view, dirty, l, bs)
    ensures view.Keys == d.Keys && HomeBlocks(d, l, bs) && Transaction(d, l, bs, Values(view, bs))
    ensures forall i :: 0 <= i < |bs| ==> bs[i] in view
    ensures |Values(view, bs)| == |bs|
  {
  }

  lemma PinnedSize(buf: seq<Buf>, pins: multiset<nat>, bs: seq<nat>, slot: seq<nat>)
    requires Pinned(buf, pins, bs, slot)
    ensures |pins| == |bs|
  {
  }

  // What a finished commit leaves.
  ghost predicate Finished(d0: Disk, view0: Disk, trace0: seq<Disk>, d: Disk, view: Disk, trace: seq<Disk>,
                           dirty: map<nat, nat>, l: Layout, bs: seq<nat>) {
    && (forall i :: 0 <= i < |bs| ==> bs[i] in view0)
    && Transaction(d0, l, bs, Values(view0, bs))
    && trace == trace0 + CommitTrace(d0, l, bs, Values(view0, bs))
    && dirty == map[]
    && view.Keys == d.Keys
    && Transaction(d, l, [], [])
    && Home(d, l) == Home(view0, l) && Home(view, l) == Home(view0, l)
  }

  lemma Joined<T>(t0: seq<T>, a: seq<T>, c: T, b: seq<T>, e: T)
    ensures t0 + a + [c] + b + [e] == t0 + (a + [c] + b + [e])
  {
  }

  ghost predicate HeaderGone(d0: Disk, view0: Disk, trace0: seq<Disk>, d: Disk, view: Disk, trace: seq<Disk>,
                             l: Layout, bs: seq<nat>, vals: seq<Block>) {
    && Transaction(d0, l, bs, vals) && Transaction(view0, l, bs, vals)
    && d == CommitDisk(d0, l, bs, vals, 2 * |bs| + 2)
    && view == CommitDisk(view0, l, bs, vals, 2 * |bs| + 2)
    && trace == trace0 + CommitTrace(d0, l, bs, vals)
    && view.Keys == d.Keys
  }

  lemma HeaderShape(d0: Disk, view0: Disk, trace0: seq<Disk>, d: Disk, view: Disk, trace: seq<Disk>,
                    l: Layout, bs: seq<nat>, vals: seq<Block>)
    requires HeaderOnDisk(d0, view0, trace0, d, view, trace, l, bs, vals)
    ensures HasLog(d, l) && HomeBlocks(d, l, bs) && |bs| < l.size && InLog(l, l.start)
    ensures Transaction(d0, l, bs, vals) && Transaction(view0, l, bs, vals)
  {
  }

  lemma CommitInstalled(d0: Disk, view0: Disk, trace0: seq<Disk>, d2: Disk, view2: Disk, trace2: seq<Disk>,
                        d: Disk, view: Disk, trace: seq<Disk>, l: Layout, bs: seq<nat>, vals: seq<Block>)
    requires HeaderOnDisk(d0, view0, trace0, d2, view2, trace2, l, bs, vals)
    requires HomeInstalled(d2, view2, trace2, d, view, trace, l, bs, |bs|)
    ensures l.start in d && l.start in view && d.Keys == view.Keys
    ensures var d' := d[l.start := Header(view[l.start], [])];
      var view' := view[l.start := Header(view[l.start], [])];
      HeaderGone(d0, view0, trace0, d', view', trace + [d'], l, bs, vals)
  {
    hide Install, InstallTrace, FillTrace, Header, Committed, CommitDisk;
    HeaderCleared(d0, l, bs, vals);
    HeaderCleared(view0, l, bs, vals);
    Joined(trace0, FillTrace(d0, l, vals, |bs|), d2, InstallTrace(d2, l, bs, |bs|),
           CommitDisk(d0, l, bs, vals, 2 * |bs| + 2));
  }

  lemma CommitFinished(d0: Disk, view0: Disk, trace0: seq<Disk>, dirty0: map<nat, nat>, dirty1: map<nat, nat>,
                       d: Disk, view: Disk, trace: seq<Disk>, dirty: map<nat, nat>, l: Layout, bs: seq<nat>)
    requires ReadyToCommit(d0, view0, dirty0, l, bs)
    requires HeaderGone(d0, view0, trace0, d, view, trace, l, bs, Values(view0, bs))
    requires dirty1.Keys <= dirty0.Keys && dirty == dirty1 - Elems(bs) - {l.start}
    ensures Finished(d0, view0, trace0, d, view, trace, dirty, l, bs)
  {
    hide CommitDisk, CommitTrace, Overlay, Elems, Values, HomeBlocks;
    var vals := Values(view0, bs);
    assert dirty == map[] by {
      assert forall k :: k in dirty1 ==> k in Elems(bs);
    }
    HomeAfterCommit(d0, l, bs, vals);
    HomeAfterCommit(view0, l, bs, vals);
    OverlayIsView(d0, view0, dirty0, l, bs);
  }

  // Crash after j writes of this commit, and again in any number of recoveries:
  // the file system ends up with its contents before the transaction or with
  // exactly what the cache showed when the commit began.
  lemma CrashDuringCommit(d: Disk, view: Disk, dirty: map<nat, nat>, l: Layout, bs: seq<nat>, j: nat, js: seq<nat>)
    requires ReadyToCommit(d, view, dirty, l, bs) && j <= 2 * |bs| + 2
    ensures LogOk(CommitDisk(d, l, bs, Values(view, bs), j), l)
    ensures var c := AfterCrashes(CommitDisk(d, l, bs, Values(view, bs), j), l, js);
      var r := RecoveryDisk(c, l, |Logged(c, l)| + 1);
      LogOk(r, l) && Logged(r, l) == [] && Home(r, l) == if j <= |bs| then Home(d, l) else Home(view, l)
  {
    hide CommitDisk, Overlay, Values, AfterCrashes, RecoveryDisk, LogOk, HomeBlocks;
    ReadyShape(d, view, dirty, l, bs);
    CommitIsAtomic(d, l, bs, Values(view, bs), j);
    CrashAtomicity(d, l, bs, Values(view, bs), j, js);
    OverlayIsView(d, view, dirty, l, bs);
  }

  lemma RecoverShape(d: Disk, l: Layout)
    requires LogOk(d, l)
    ensures HasLog(d, l) && l.start in d && GoodHeader(d[l.start]) && Logged(d, l) == HeaderBlocks(d[l.start])
    ensures HomeBlocks(d, l, Logged(d, l)) && |Logged(d, l)| < l.size
    ensures LogClean(d, d, map[], l)
  {
    assert InLog(l, l.start);
  }

  lemma RecoveryDone(d0: Disk, trace0: seq<Disk>, d: Disk, view: Disk, trace: seq<Disk>, l: Layout)
    requires LogOk(d0, l)
    requires HomeInstalled(d0, d0, trace0, d, view, trace, l, Logged(d0, l), |Logged(d0, l)|)
    ensures l.start in d && view == d
    ensures var r := d[l.start := Header(view[l.start], [])];
      && r == RecoveryDisk(d0, l, |Logged(d0, l)| + 1)
      && trace + [r] == trace0 + RecoveryTrace(d0, l)
      && Transaction(r, l, [], []) && Home(r, l) == Durable(d0, l)
  {
    hide Install, InstallTrace, Header, HeaderBlocks;
    assert InLog(l, l.start);
    InstallAt(d0, l, Logged(d0, l), |Logged(d0, l)|, l.start);
    RecoveryInstalls(d0, l);
  }

  // ---------- log_write ----------

  lemma LoggedOnce(block: seq<nat>, n: nat, k: nat)
    requires n < |block| && Distinct(block[..n]) && k !in block[..n]
    ensures block[n := k][..n + 1] == block[..n] + [k] && Distinct(block[..n] + [k])
  {
    assert forall i :: 0 <= i < n ==> block[..n][i] in block[..n];
  }

  lemma PinnedOneMore(buf: seq<Buf>, pins: multiset<nat>, bs: seq<nat>, slot: seq<nat>, b: nat)
    requires Pinned(buf, pins, bs, slot) && b < |buf| && buf[b].dev == ROOTDEV && buf[b].valid
    ensures Pinned(buf[b := buf[b].(refcnt := buf[b].refcnt + 1)], pins + multiset{b},
                   bs + [buf[b].blockno], slot + [b])
  {
  }

  // Contents, locks and counts change, blocks and pins stay.
  lemma PinnedOnly(buf: seq<Buf>, buf': seq<Buf>, pins: multiset<nat>, bs: seq<nat>, slot: seq<nat>, b: nat)
    requires Pinned(buf, pins, bs, slot) && OnlyTwo(buf, buf', b, b)
    ensures Pinned(buf', pins, bs, slot)
  {
  }

  lemma PinnedSomewhere(buf: seq<Buf>, pins: multiset<nat>, bs: seq<nat>, slot: seq<nat>, k: nat)
    requires Pinned(buf, pins, bs, slot) && k in bs
    ensures exists i :: i in pins && i < |buf| && Holds(buf[i], ROOTDEV, k)
  {
    var t :| 0 <= t < |bs| && bs[t] == k;
    assert slot[t] in multiset(slot);
  }

  // A logged update keeps the transaction in order.
  lemma PreparedAfterUpdate(d: Disk, view: Disk, dirty: map<nat, nat>, l: Layout, bs: seq<nat>, bs': seq<nat>,
                            k: nat, v: Block, b: nat, held: set<nat>)
    requires Prepared(d, view, dirty, l, bs, held) && k in d && !InLog(l, k)
    requires bs' == if k in bs then bs else bs + [k]
    requires |bs'| <= LOGSIZE && |bs'| < l.size
    ensures Prepared(d, view[k := v], dirty[k := b], l, bs', held)
  {
    assert forall x :: x in bs' <==> x in bs || x == k;
    assert view[k := v].Keys == d.Keys;
    assert dirty[k := b].Keys == dirty.Keys + {k};
    assert forall x :: x in dirty ==> x in Elems(bs) + held;
    forall i | 0 <= i < |bs'| ensures bs'[i] in d && !InLog(l, bs'[i]) {
      assert bs'[i] in bs';
    }
  }

  // b is locked and valid, with contents v of block k.
  ghost predicate Reading(b: Buf, k: nat, v: Block) {
    b.locked && b.valid && Holds(b, ROOTDEV, k) && b.data == v
  }

  lemma OneMoreHeld(buf: seq<Buf>, buf': seq<Buf>, refs: multiset<nat>, l: Layout, b: nat, k: nat)
    requires HeldAway(buf, refs, l, []) && SameHeld(buf, buf', refs) && !InLog(l, k)
    requires b < |buf'| && buf'[b].blockno == k
    ensures HeldAway(buf', refs + multiset{b}, l, [])
    ensures HeldBlocks(buf, refs) <= HeldBlocks(buf', refs + multiset{b})
  {
    forall i | i in refs && i < |buf| ensures buf[i].blockno in HeldBlocks(buf', refs + multiset{b}) {
      assert i in refs + multiset{b} && buf'[i] == buf[i];
    }
  }

  lemma MoreHeld(d: Disk, view: Disk, dirty: map<nat, nat>, l: Layout, bs: seq<nat>, held: set<nat>, held': set<nat>)
    requires Prepared(d, view, dirty, l, bs, held) && held <= held'
    ensures Prepared(d, view, dirty, l, bs, held')
  {
  }

  lemma HeldHome(buf: seq<Buf>, refs: multiset<nat>, l: Layout, b: nat)
    requires HeldAway(buf, refs, l, []) && b in refs && b < |buf|
    ensures !InLog(l, buf[b].blockno)
  {
  }

  lemma HeldBlocksSame(buf: seq<Buf>, buf1: seq<Buf>, buf2: seq<Buf>, refs: multiset<nat>, b: nat, l: Layout)
    requires HeldAway(buf, refs, l, []) && OnlyTwo(buf, buf1, b, b) && OnlyTwo(buf1, buf2, b, b)
    ensures HeldAway(buf2, refs, l, []) && HeldBlocks(buf2, refs) == HeldBlocks(buf, refs)
    ensures SameHeld(buf, buf2, refs[b := 0])
  {
    assert forall i :: 0 <= i < |buf| ==> buf2[i].blockno == buf[i].blockno;
    assert b !in refs[b := 0];
  }

  lemma OneFewerHeld(buf: seq<Buf>, buf': seq<Buf>, refs: multiset<nat>, l: Layout, b: nat)
    requires HeldAway(buf, refs, l, []) && OnlyTwo(buf, buf', b, b) && b < |buf|
    ensures HeldAway(buf', refs - multiset{b}, l, [])
    ensures HeldBlocks(buf, refs) - {buf[b].blockno} <= HeldBlocks(buf', refs - multiset{b})
    ensures SameHeld(buf, buf', (refs - multiset{b})[b := 0])
  {
    assert forall i :: 0 <= i < |buf| ==> buf'[i].blockno == buf[i].blockno;
    assert forall i :: i in refs - multiset{b} ==> i in refs;
    assert forall i :: i in refs && i != b ==> i in refs - multiset{b};
    assert b !in (refs - multiset{b})[b := 0];
  }

  lemma FewerHeld(d: Disk, view: Disk, dirty: map<nat, nat>, l: Layout, bs: seq<nat>, held: set<nat>, held': set<nat>,
                  k: nat)
    requires Prepared(d, view, dirty, l, bs, held) && held - {k} <= held' && (k in dirty ==> k in bs)
    ensures Prepared(d, view, dirty, l, bs, held')
  {
    forall x | x in dirty ensures x in Elems(bs) + held' { assert x in Elems(bs) + held; }
  }

  lemma HeldThrough(buf0: seq<Buf>, buf1: seq<Buf>, buf2: seq<Buf>, buf3: seq<Buf>, refs: multiset<nat>, b: nat)
    requires b !in refs && SameHeld(buf0, buf1, refs)
    requires SameHeld(buf1, buf2, (refs + multiset{b})[b := 0]) && SameHeld(buf2, buf3, refs[b := 0])
    ensures SameHeld(buf0, buf3, refs)
  {
    assert refs[b := 0] == refs && (refs + multiset{b})[b := 0] == refs;
  }

  lemma TwoStart(buf: seq<Buf>, b: nat)
    ensures OnlyTwo(buf, buf, b, b)
  {
  }

  class Log {
    const cache: Cache
    const l: Layout
    // lh, the in-memory header: block[..n] are the blocks logged so far.
    var n: nat
    var block: seq<nat>
    var outstanding: int
    // The buffer that each logged block is pinned in.
    ghost var slot: seq<nat>

    // initlog, up to recovery: the header in memory starts out zeroed.
    constructor (c: Cache, layout: Layout)
      ensures cache == c && l == layout && n == 0 && |block| == LOGSIZE && outstanding == 0 && slot == []
    {
      cache, l, n, block, outstanding := c, layout, 0, seq(LOGSIZE, _ => 0), 0;
      slot := [];
    }

    // write_log: the cached contents of the logged blocks go to the log.
    // Buffers of other blocks may be held by anybody meanwhile.
    method WriteLog(ghost vals: seq<Block>) returns (ok: bool)
      requires n <= |block|
      requires cache.Valid() && HeldAway(cache.buf, cache.refs, l, block[..n])
      requires HasLog(cache.disk, l) && HomeBlocks(cache.disk, l, block[..n]) && n < l.size
      requires Pinned(cache.buf, cache.pins, block[..n], slot) && Distinct(block[..n])
      requires |vals| == n && Contents(cache.view, block[..n], vals)
      modifies cache
      ensures ok <==> n == 0 || !Crowded(old(cache.refs), old(cache.pins))
      ensures ok ==> cache.Valid() && cache.refs == old(cache.refs) && cache.pins == old(cache.pins)
      ensures ok ==> SameHeld(old(cache.buf), cache.buf, cache.refs)
      ensures ok ==> LogFilled(old(cache.disk), old(cache.view), old(cache.trace),
                               cache.disk, cache.view, cache.trace, l, vals, n)
      ensures ok ==> cache.dirty.Keys <= old(cache.dirty).Keys
      ensures ok ==> Pinned(cache.buf, cache.pins, block[..n], slot)
    {
      hide Cache.Valid, SamePinned, SameHeld, NoBuffer, AllReferenced, Pinned, PinnedBlock, Referring, Room, Available,
        InLog, Contents, Distinct, HomeBlocks, LogFilled, HeldAway, Unheld, Crowded;
      ghost var bs, refs, pins := block[..n], cache.refs, cache.pins;
      cache.SameKeys();
      FillStart(cache.disk, cache.view, cache.trace, l, vals);
      if n > 0 { NoneLeft(bs, refs, pins); }
      hide HasLog;
      HeldStart(cache.buf, refs);
      ok := true;
      var tail := 0;
      while tail < n
        invariant 0 <= tail <= n
        invariant cache.Valid() && cache.refs == refs && cache.pins == pins
        invariant SameHeld(old(cache.buf), cache.buf, refs)
        invariant HeldAway(cache.buf, refs, l, bs)
        invariant LogFilled(old(cache.disk), old(cache.view), old(cache.trace),
                            cache.disk, cache.view, cache.trace, l, vals, tail)
        invariant cache.dirty.Keys <= old(cache.dirty).Keys
        invariant Pinned(cache.buf, pins, bs, slot)
        invariant tail == 0 ==> cache.buf == old(cache.buf)
        invariant tail > 0 ==> !Crowded(refs, pins)
      {
        PinnedAt(cache.buf, pins, bs, slot, tail);
        FillStep(old(cache.disk), old(cache.view), old(cache.trace),
                 cache.disk, cache.view, cache.trace, l, bs, vals, tail);
        AwayUnheld(cache.buf, refs, l, bs, bs[tail]);
        LogBlockUnheld(cache.buf, refs, l, bs, tail);
        ghost var buf := cache.buf;
        ok := cache.WriteLogBlock(block[tail], l.start + tail + 1);
        if !ok { return; }
        PinnedKept(buf, cache.buf, pins, bs, slot);
        AwayKept(buf, cache.buf, refs, l, bs);
        HeldChain(old(cache.buf), buf, cache.buf, refs);
        tail := tail + 1;
      }
    }

    // With every buffer taken, the first bread of write_log fails.
    lemma NoneLeft(bs: seq<nat>, refs: multiset<nat>, pins: multiset<nat>)
      requires cache.Valid() && refs == cache.refs && pins == cache.pins
      requires HasLog(cache.disk, l) && HomeBlocks(cache.disk, l, bs) && l.size > 1
      requires Pinned(cache.buf, pins, bs, slot) && HeldAway(cache.buf, refs, l, bs)
      ensures Crowded(refs, pins) ==> NoBuffer(cache.buf, l.start + 1)
    {
      NotLogged(cache.disk, l, bs, 0);
      AwayUnheld(cache.buf, refs, l, bs, l.start + 1);
      cache.Quiet(l.start + 1);
      if Crowded(refs, pins) {
        AllTaken(cache.buf, refs, pins, l, bs, slot, l.start + 1);
      }
    }

    // install_trans: the log's blocks go to their home blocks.
    method InstallTrans(recovering: bool) returns (ok: bool)
      requires n <= |block| && n < l.size
      requires cache.Valid() && HeldAway(cache.buf, cache.refs, l, block[..n])
      requires HasLog(cache.disk, l) && HomeBlocks(cache.disk, l, block[..n])
      requires LogClean(cache.disk, cache.view, cache.dirty, l)
      requires if recovering then cache.refs == cache.pins == multiset{}
               else !Crowded(cache.refs, cache.pins) && Pinned(cache.buf, cache.pins, block[..n], slot)
      modifies cache
      ensures ok && cache.Valid() && cache.refs == old(cache.refs) && cache.pins == multiset{}
      ensures SameHeld(old(cache.buf), cache.buf, cache.refs)
      ensures HomeInstalled(old(cache.disk), old(cache.view), old(cache.trace),
                            cache.disk, cache.view, cache.trace, l, block[..n], n)
      ensures cache.dirty == old(cache.dirty) - Elems(block[..n])
    {
      hide Cache.Valid, SamePinned, SameHeld, NoBuffer, Pinned, PinnedBlock, Referring, Room, Available, InLog,
        HomeBlocks, HasLog, HomeInstalled, LogClean, Elems, HeldAway, Unheld, Crowded;
      ghost var bs, refs := block[..n], cache.refs;
      cache.SameKeys();
      InstallStart(cache.disk, cache.view, cache.trace, l, bs);
      HeldStart(cache.buf, refs);
      NothingCleaned(cache.dirty, bs);
      if !recovering { PinnedRest(cache.buf, cache.pins, bs, slot); }
      ok := true;
      var tail := 0;
      while tail < n
        invariant 0 <= tail <= n && ok && (!recovering ==> |slot| == n)
        invariant cache.Valid() && cache.refs == refs && SameHeld(old(cache.buf), cache.buf, refs)
        invariant HeldAway(cache.buf, refs, l, bs)
        invariant HomeInstalled(old(cache.disk), old(cache.view), old(cache.trace),
                                cache.disk, cache.view, cache.trace, l, bs, tail)
        invariant cache.dirty == old(cache.dirty) - Elems(bs[..tail])
        invariant recovering ==> cache.pins == multiset{}
        invariant !recovering ==> Pinned(cache.buf, cache.pins, bs[tail..], slot[tail..]) && !Crowded(refs, cache.pins)
      {
        InstallStep(old(cache.disk), old(cache.view), old(cache.trace), old(cache.dirty),
                    cache.disk, cache.view, cache.trace, l, bs, tail);
        CleanStep(old(cache.dirty), bs, tail);
        ghost var buf, pins := cache.buf, cache.pins;
        LogBlockUnheld(buf, refs, l, bs, tail);
        AwayUnheld(buf, refs, l, bs, bs[tail]);
        if !recovering {
          FirstPinned(buf, pins, bs[tail..], slot[tail..]);
          FewerPins(refs, pins, multiset{slot[tail]});
        }
        ok := cache.InstallBlock(l.start + tail + 1, block[tail], recovering, if recovering then 0 else slot[tail]);
        if !recovering { UnpinStep(buf, cache.buf, pins, bs[tail..], slot[tail..]); }
        AwayKept(buf, cache.buf, refs, l, bs);
        HeldChain(old(cache.buf), buf, cache.buf, refs);
        tail := tail + 1;
      }
      assert bs[..n] == bs;
      if !recovering { NonePinned(cache.buf, cache.pins, bs[n..], slot[n..]); }
    }

    // write_head: the header in memory goes to the header block.
    method WriteHead() returns (ok: bool)
      requires n <= LOGSIZE && |block| == LOGSIZE
      requires cache.Valid() && Unheld(cache.buf, cache.refs, l.start) && l.start in cache.disk && l.start in cache.view
      modifies cache
      ensures ok <==> !NoBuffer(old(cache.buf), l.start)
      ensures !Crowded(old(cache.refs), old(cache.pins)) ==> ok
      ensures ok ==> cache.Valid() && cache.refs == old(cache.refs) && cache.pins == old(cache.pins)
      ensures ok ==> cache.disk == old(cache.disk)[l.start := Header(old(cache.view)[l.start], block[..n])]
      ensures ok ==> cache.view == old(cache.view)[l.start := Header(old(cache.view)[l.start], block[..n])]
      ensures ok ==> cache.trace == old(cache.trace) + [cache.disk]
      ensures ok ==> cache.dirty == old(cache.dirty) - {l.start}
      ensures ok ==> SamePinned(old(cache.buf), cache.buf, cache.pins) && SameHeld(old(cache.buf), cache.buf, cache.refs)
    {
      hide Cache.Valid, SamePinned, SameHeld, SameBlocks, OnlyTwo, Unheld, NoBuffer, Crowded;
      ghost var refs, pins := cache.refs, cache.pins;
      var b;
      ok, b := cache.ReadOne(l.start);
      if !ok { return; }
      ghost var buf := cache.buf;
      OneReturned(refs, b);
      var data := HeaderWords(cache.buf[b].data);
      cache.StoreOne(b, data);
      OneDone(old(cache.buf), buf, cache.buf, refs, pins, b);
    }

    method HeaderWords(b: Block) returns (data: Block)
      requires n <= LOGSIZE && |block| == LOGSIZE
      ensures data == Header(b, block[..n])
    {
      data := b[0 := n];
      var i := 0;
      while i < n
        invariant 0 <= i <= n
        invariant data == [n] + block[..i] + b[i + 1..]
      {
        data := data[i + 1 := block[i]];
        i := i + 1;
      }
    }

    // read_head: the header block goes to the header in memory.
    method ReadHead() returns (ok: bool)
      requires |block| == LOGSIZE
      requires cache.Valid() && cache.refs == multiset{} && cache.pins == multiset{}
      requires l.start in cache.disk && l.start in cache.view && l.start !in cache.dirty
      requires GoodHeader(cache.view[l.start])
      modifies this`n, this`block, cache`buf, cache`next, cache`prev, cache`order, cache`refs
      ensures ok && cache.Valid() && cache.refs == multiset{}
      ensures n <= LOGSIZE && |block| == LOGSIZE && block[..n] == HeaderBlocks(cache.view[l.start])
    {
      hide Cache.Valid, SamePinned, SameHeld, SameBlocks, OnlyTwo, NoBuffer;
      cache.NotCrowded();
      var b;
      ok, b := cache.ReadOne(l.start);
      var data := cache.buf[b].data;
      n := data[0];
      var i := 0;
      while i < n
        invariant 0 <= i <= n == data[0] && |block| == LOGSIZE
        modifies this`block
        invariant forall j :: 0 <= j < i ==> block[j] == data[j + 1]
      {
        block := block[i := data[i + 1]];
        i := i + 1;
      }
      cache.ReleaseOne(b);
    }

    // Between the steps of file system calls. Some buffers, of blocks outside
    // the log, are held; what is in the cache only is logged or held.
    ghost predicate Ready()
      reads this, cache
    {
      && n <= LOGSIZE && |block| == LOGSIZE && cache.Valid()
      && Distinct(block[..n]) && Pinned(cache.buf, cache.pins, block[..n], slot)
      && HeldAway(cache.buf, cache.refs, l, [])
      && Prepared(cache.disk, cache.view, cache.dirty, l, block[..n], HeldBlocks(cache.buf, cache.refs))
    }

    // With no call active: who still holds a buffer only reads it, and the
    // logged blocks are free.
    ghost predicate Idle()
      reads this, cache
    {
      && n <= LOGSIZE && |block| == LOGSIZE && cache.Valid()
      && Distinct(block[..n]) && Pinned(cache.buf, cache.pins, block[..n], slot)
      && HeldAway(cache.buf, cache.refs, l, block[..n])
      && ReadyToCommit(cache.disk, cache.view, cache.dirty, l, block[..n])
    }

    lemma IdleIsReady()
      ensures Idle() <==> Ready() && HeldAway(cache.buf, cache.refs, l, block[..n]) && cache.dirty.Keys <= Elems(block[..n])
    {
      if n <= LOGSIZE && |block| == LOGSIZE {
        hide Cache.Valid, Pinned, Distinct, ReadyToCommit, Prepared, HeldBlocks, InLog;
        NothingUnlogged(cache.disk, cache.view, cache.dirty, l, block[..n], HeldBlocks(cache.buf, cache.refs));
        ReadyDirty(cache.disk, cache.view, cache.dirty, l, block[..n]);
      }
    }

    // The first half of commit: write_log and the header write.
    method LogTransaction() returns (ok: bool)
      requires Idle() && n > 0
      modifies cache
      ensures ok <==> !Crowded(old(cache.refs), old(cache.pins))
      ensures ok ==> cache.Valid() && cache.refs == old(cache.refs) && cache.pins == old(cache.pins)
      ensures ok ==> cache.dirty.Keys <= old(cache.dirty.Keys) && SameHeld(old(cache.buf), cache.buf, cache.refs)
      ensures ok ==> HeaderOnDisk(old(cache.disk), old(cache.view), old(cache.trace), cache.disk, cache.view, cache.trace,
                                  l, block[..n], old(Values(cache.view, block[..n])))
      ensures ok ==> LogClean(cache.disk, cache.view, cache.dirty, l)
      ensures ok ==> Pinned(cache.buf, cache.pins, block[..n], slot)
    {
      ghost var d0, v0, tr0, dirty0, bs := cache.disk, cache.view, cache.trace, cache.dirty, block[..n];
      hide Cache.Valid, Pinned, Distinct, ReadyToCommit, Transaction, HasLog, HomeBlocks, LogClean, LogFilled,
        Contents, Values, Committed, Header, SamePinned, InLog, Elems, HeaderOnDisk, SameHeld, HeldAway, Unheld, Crowded;
      ReadyFacts(d0, v0, dirty0, l, bs);
      ReadyShape(d0, v0, dirty0, l, bs);
      ghost var vals, buf0, refs := Values(v0, bs), cache.buf, cache.refs;
      ok := WriteLog(vals);
      if !ok { return; }
      ghost var buf, pins := cache.buf, cache.pins;
      HeaderWritten(d0, v0, tr0, cache.disk, cache.view, cache.trace, dirty0, cache.dirty, l, bs, vals);
      AwayKept(buf0, buf, refs, l, bs);
      AwayUnheld(buf, refs, l, bs, l.start);
      ok := WriteHead();
      PinnedKept(buf, cache.buf, pins, bs, slot);
      HeldChain(buf0, buf, cache.buf, refs);
    }

    // Erase the transaction from the log.
    method ClearHead()
      requires |block| == LOGSIZE
      requires cache.Valid() && Unheld(cache.buf, cache.refs, l.start)
      requires cache.pins == multiset{} && !Crowded(cache.refs, multiset{})
      requires l.start in cache.disk && l.start in cache.view
      modifies this`n, this`slot, cache
      ensures n == 0 && slot == [] && cache.Valid() && cache.refs == old(cache.refs) && cache.pins == multiset{}
      ensures SameHeld(old(cache.buf), cache.buf, cache.refs)
      ensures cache.disk == old(cache.disk)[l.start := Header(old(cache.view)[l.start], [])]
      ensures cache.view == old(cache.view)[l.start := Header(old(cache.view)[l.start], [])]
      ensures cache.trace == old(cache.trace) + [cache.disk]
      ensures cache.dirty == old(cache.dirty) - {l.start}
    {
      hide Cache.Valid, SamePinned, SameHeld, Header, Unheld, Crowded, NoBuffer;
      n, slot := 0, [];
      assert block[..n] == [];
      var ok := WriteHead();
    }

    // The second half: install_trans and clearing the header.
    method InstallAndClear(ghost d0: Disk, ghost v0: Disk, ghost tr0: seq<Disk>, ghost vals: seq<Block>)
      requires n <= LOGSIZE && |block| == LOGSIZE
      requires cache.Valid() && HeldAway(cache.buf, cache.refs, l, block[..n]) && !Crowded(cache.refs, cache.pins)
      requires HeaderOnDisk(d0, v0, tr0, cache.disk, cache.view, cache.trace, l, block[..n], vals)
      requires LogClean(cache.disk, cache.view, cache.dirty, l)
      requires Pinned(cache.buf, cache.pins, block[..n], slot)
      modifies this`n, this`slot, cache
      ensures n == 0 && slot == [] && cache.Valid() && cache.refs == old(cache.refs) && cache.pins == multiset{}
      ensures SameHeld(old(cache.buf), cache.buf, cache.refs)
      ensures HeaderGone(d0, v0, tr0, cache.disk, cache.view, cache.trace, l, old(block[..n]), vals)
      ensures cache.dirty == old(cache.dirty) - Elems(old(block[..n])) - {l.start}
    {
      hide Cache.Valid, Pinned, Transaction, HasLog, HomeBlocks, LogClean, HomeInstalled, SameHeld, HeldAway, Unheld,
        Committed, CommitDisk, CommitTrace, Header, SamePinned, InLog, Elems, HeaderOnDisk, HeaderGone, Crowded;
      ghost var bs, buf0, refs := block[..n], cache.buf, cache.refs;
      FewerPins(refs, cache.pins, cache.pins);
      assert cache.pins - cache.pins == multiset{};
      HeaderShape(d0, v0, tr0, cache.disk, cache.view, cache.trace, l, bs, vals);
      ghost var d2, v2, tr2 := cache.disk, cache.view, cache.trace;
      var ok := InstallTrans(false);
      ghost var buf := cache.buf;
      AwayKept(buf0, buf, refs, l, bs);
      AwayUnheld(buf, refs, l, bs, l.start);
      CommitInstalled(d0, v0, tr0, d2, v2, tr2, cache.disk, cache.view, cache.trace, l, bs, vals);
      ClearHead();
      HeldChain(buf0, buf, cache.buf, refs);
    }

    // commit, with no file system call active; others may be reading. It
    // fails, in bget, exactly when the transaction's blocks and the buffers
    // that others hold are all the buffers there are.
    method Commit() returns (ok: bool)
      requires Idle()
      modifies this`n, this`slot, cache
      ensures ok <==> old(n) == 0 || old(n) + |Handles(old(cache.refs))| < NBUF
      ensures |old(cache.refs)| + |old(cache.pins)| < NBUF ==> ok
      ensures ok ==> n == 0 && Idle()
      ensures ok ==> cache.refs == old(cache.refs) && SameHeld(old(cache.buf), cache.buf, cache.refs)
      ensures ok && old(n) > 0 ==>
        Finished(old(cache.disk), old(cache.view), old(cache.trace), cache.disk, cache.view, cache.trace,
                 cache.dirty, l, old(block[..n]))
      ensures ok && old(n) == 0 ==> cache.trace == old(cache.trace) && cache.disk == old(cache.disk)
                                    && cache.view == old(cache.view)
    {
      hide Cache.Valid, Pinned, Distinct, ReadyToCommit, HeaderOnDisk, HeaderGone, LogClean, Finished, Elems,
        HomeBlocks, Transaction, SameHeld, HeldAway, Crowded, Handles;
      ghost var buf0, refs := cache.buf, cache.refs;
      HowMany(block[..n], refs, cache.pins);
      HeldStart(buf0, refs);
      ok := true;
      if n > 0 {
        ghost var d0, v0, tr0, dirty0, bs := cache.disk, cache.view, cache.trace, cache.dirty, block[..n];
        ReadyFacts(d0, v0, dirty0, l, bs);
        ReadyShape(d0, v0, dirty0, l, bs);
        ghost var vals := Values(v0, bs);
        ok := LogTransaction();
        if !ok { return; }
        ghost var dirty1, buf := cache.dirty, cache.buf;
        AwayKept(buf0, buf, refs, l, bs);
        InstallAndClear(d0, v0, tr0, vals);
        CommitFinished(d0, v0, tr0, dirty0, dirty1, cache.disk, cache.view, cache.trace, cache.dirty, l, bs);
        HeldChain(buf0, buf, cache.buf, refs);
        AwayKept(buf0, cache.buf, refs, l, bs);
        IdleAgain(d0, v0, tr0, bs);
      }
    }

    // The buffers taken while nobody holds a logged block.
    lemma HowMany(bs: seq<nat>, refs: multiset<nat>, pins: multiset<nat>)
      requires cache.Valid() && refs == cache.refs && pins == cache.pins
      requires Pinned(cache.buf, pins, bs, slot) && Distinct(bs) && HeldAway(cache.buf, refs, l, bs)
      ensures Crowded(refs, pins) <==> |bs| + |Handles(refs)| >= NBUF
      ensures |refs| + |pins| < NBUF ==> |bs| + |Handles(refs)| < NBUF
    {
      hide Pinned, Distinct, HeldAway, Crowded, Handles;
      CrowdedExactly(cache.buf, refs, pins, l, bs, slot);
      PinnedSize(cache.buf, pins, bs, slot);
      HandlesAtMost(refs);
    }

    lemma IdleAgain(d0: Disk, view0: Disk, trace0: seq<Disk>, bs: seq<nat>)
      requires n == 0 && |block| == LOGSIZE && slot == []
      requires cache.Valid() && HeldAway(cache.buf, cache.refs, l, bs) && cache.pins == multiset{}
      requires Finished(d0, view0, trace0, cache.disk, cache.view, cache.trace, cache.dirty, l, bs)
      ensures Idle()
    {
      cache.CleanAgrees();
      assert block[..n] == [];
    }

    // recover_from_log, on the empty cache of a system that just booted.
    method RecoverFromLog()
      requires |block| == LOGSIZE && cache.Valid() && cache.refs == multiset{} && cache.pins == multiset{}
      requires cache.dirty == map[] && LogOk(cache.disk, l)
      modifies this`n, this`block, this`slot, cache
      ensures n == 0 && Idle() && cache.refs == multiset{}
      ensures cache.trace == old(cache.trace + RecoveryTrace(cache.disk, l))
      ensures cache.disk == old(RecoveryDisk(cache.disk, l, |Logged(cache.disk, l)| + 1))
      ensures Home(cache.disk, l) == Home(cache.view, l) == old(Durable(cache.disk, l))
    {
      ghost var d0, tr0 := cache.disk, cache.trace;
      cache.CleanAgrees();
      assert cache.view == d0;
      RecoverBlocks();
      IdleAfterRecovery();
    }

    method RecoverBlocks()
      requires |block| == LOGSIZE && cache.Valid() && cache.refs == multiset{} && cache.pins == multiset{}
      requires cache.dirty == map[] && cache.view == cache.disk && LogOk(cache.disk, l)
      modifies this`n, this`block, this`slot, cache
      ensures n == 0 && slot == [] && |block| == LOGSIZE
      ensures cache.Valid() && cache.refs == multiset{} && cache.pins == multiset{} && cache.dirty == map[]
      ensures cache.trace == old(cache.trace + RecoveryTrace(cache.disk, l))
      ensures cache.disk == cache.view == old(RecoveryDisk(cache.disk, l, |Logged(cache.disk, l)| + 1))
      ensures Transaction(cache.disk, l, [], []) && Home(cache.disk, l) == old(Durable(cache.disk, l))
    {
      ghost var d0, tr0 := cache.disk, cache.trace;
      RecoverShape(d0, l);
      hide Cache.Valid, Pinned, Transaction, HasLog, HomeBlocks, LogClean, HomeInstalled, LogOk, Logged, GoodHeader,
        HeaderBlocks, RecoveryDisk, RecoveryTrace, Header, SamePinned, InLog, Elems, Durable;
      var ok := ReadHead();
      ok := InstallTrans(true);
      cache.NotCrowded();
      RecoveryDone(d0, tr0, cache.disk, cache.view, cache.trace, l);
      ClearHead();
    }

    lemma IdleAfterRecovery()
      requires n == 0 && |block| == LOGSIZE && slot == []
      requires cache.Valid() && cache.refs == multiset{} && cache.pins == multiset{} && cache.dirty == map[]
      requires cache.disk == cache.view && Transaction(cache.disk, l, [], [])
      ensures Idle()
    {
      assert block[..n] == [];
    }

    // The scan for log absorption.
    method FindLogged(k: nat) returns (i: nat)
      requires n <= |block|
      ensures i <= n && k !in block[..i]
      ensures if k in block[..n] then i < n && block[i] == k else i == n
    {
      i := 0;
      while i < n && block[i] != k
        invariant 0 <= i <= n
        invariant k !in block[..i]
      {
        i := i + 1;
      }
    }

    // log_write of a held, modified buffer. Returning false stands for one of
    // its two panics.
    method LogWrite(b: nat) returns (ok: bool)
      requires n <= LOGSIZE && |block| == LOGSIZE && Distinct(block[..n])
      requires cache.Valid() && Pinned(cache.buf, cache.pins, block[..n], slot)
      requires b < NBUF && b in cache.refs && cache.buf[b].locked && cache.buf[b].valid
      modifies this`n, this`block, this`slot, cache`buf, cache`pins
      ensures ok <==> old(n) < LOGSIZE && old(n) < l.size - 1 && outstanding >= 1
      ensures !ok ==> block == old(block) && n == old(n) && cache.buf == old(cache.buf) && cache.pins == old(cache.pins)
      ensures n <= LOGSIZE && |block| == LOGSIZE && Distinct(block[..n])
      ensures cache.Valid() && Pinned(cache.buf, cache.pins, block[..n], slot)
      ensures ok ==> block[..n] == if old(cache.buf[b]).blockno in old(block[..n]) then old(block[..n])
                                   else old(block[..n]) + [old(cache.buf[b]).blockno]
      ensures ok ==> |cache.buf| == NBUF && cache.buf[b].refcnt > 1
      ensures ok ==> cache.buf[b] == old(cache.buf[b]).(refcnt := cache.buf[b].refcnt)
      ensures ok ==> OnlyTwo(old(cache.buf), cache.buf, b, b)
    {
      hide Cache.Valid, Pinned, Distinct, OnlyTwo;
      cache.HeldAndPinned(b);
      TwoStart(cache.buf, b);
      if n >= LOGSIZE || n >= l.size - 1 {
        return false;
      }
      if outstanding < 1 {
        return false;
      }
      var k := cache.buf[b].blockno;
      var i := FindLogged(k);
      block := block[i := k];
      if i == n {
        LoggedOnce(old(block), n, k);
        PinnedOneMore(cache.buf, cache.pins, old(block)[..n], slot, b);
        cache.Bpin(b);
        OneChanged(old(cache.buf), b, cache.buf[b], b);
        n := n + 1;
        slot := slot + [b];
      } else {
        assert block == old(block);
        PinnedAt(cache.buf, cache.pins, block[..n], slot, i);
      }
      return true;
    }

    // bread, by anybody, of a block outside the log that nobody holds.
    method Hold(k: nat) returns (ok: bool, b: nat)
      requires Ready() && k in cache.disk && !InLog(l, k) && Unheld(cache.buf, cache.refs, k)
      modifies cache`buf, cache`refs
      ensures ok <==> !NoBuffer(old(cache.buf), k)
      ensures |old(cache.refs)| + |cache.pins| < NBUF ==> ok
      ensures Ready() && (!ok ==> cache.refs == old(cache.refs))
      ensures ok ==> cache.refs == old(cache.refs) + multiset{b} && b !in old(cache.refs)
      ensures ok ==> SameHeld(old(cache.buf), cache.buf, old(cache.refs))
      ensures ok ==> b < |cache.buf| && Reading(cache.buf[b], k, cache.view[k])
    {
      hide Cache.Valid, Pinned, Distinct, Prepared, SamePinned, SameHeld, InLog, Unheld, NoBuffer, Crowded, HeldAway,
        HeldBlocks;
      ghost var bs, buf, refs := block[..n], cache.buf, cache.refs;
      if |refs| + |cache.pins| < NBUF { cache.NotCrowded(); }
      ok, b := cache.ReadOne(k);
      if ok {
        PinnedKept(buf, cache.buf, cache.pins, bs, slot);
        OneMoreHeld(buf, cache.buf, refs, l, b, k);
        MoreHeld(cache.disk, cache.view, cache.dirty, l, bs, HeldBlocks(buf, refs), HeldBlocks(cache.buf, cache.refs));
      }
    }

    // The data of a held buffer changes and the block is logged. Returning
    // false stands for a panic of log_write.
    method UpdateHeld(b: nat, data: Block) returns (ok: bool)
      requires Ready() && b in cache.refs && b < |cache.buf| && cache.buf[b].locked && cache.buf[b].valid
      modifies this`n, this`block, this`slot, cache`buf, cache`pins, cache`view, cache`dirty
      ensures ok <==> old(n) < LOGSIZE && old(n) < l.size - 1 && outstanding >= 1
      ensures ok ==> Ready() && SameHeld(old(cache.buf), cache.buf, cache.refs[b := 0])
      ensures ok ==> b < |cache.buf| && Reading(cache.buf[b], old(cache.buf[b].blockno), data)
      ensures ok ==> cache.view == old(cache.view)[old(cache.buf[b].blockno) := data]
      ensures ok ==> block[..n] == if old(cache.buf[b].blockno) in old(block[..n]) then old(block[..n])
                                   else old(block[..n]) + [old(cache.buf[b].blockno)]
    {
      hide Cache.Valid, Pinned, Distinct, Prepared, SameHeld, SameBlocks, OnlyTwo, InLog, HeldAway, HeldBlocks;
      ghost var d, v0, dirty0, bs, buf, refs := cache.disk, cache.view, cache.dirty, block[..n], cache.buf, cache.refs;
      cache.HeldAndPinned(b);
      ghost var k := buf[b].blockno;
      cache.Modify(b, data);
      ghost var buf1 := cache.buf;
      OneChanged(buf, b, buf1[b], b);
      PinnedOnly(buf, buf1, cache.pins, bs, slot, b);
      ok := LogWrite(b);
      if !ok { return; }
      HeldHome(buf, refs, l, b);
      HeldBlocksSame(buf, buf1, cache.buf, refs, b, l);
      cache.SameKeys();
      PreparedAfterUpdate(d, v0, dirty0, l, bs, block[..n], k, data, b, HeldBlocks(buf, refs));
    }

    // brelse of a buffer whose changes, if any, have been logged.
    method Drop(b: nat)
      requires Ready() && b in cache.refs && b < |cache.buf| && cache.buf[b].locked
      requires cache.buf[b].blockno in cache.dirty ==> cache.buf[b].blockno in block[..n]
      modifies cache`buf, cache`next, cache`prev, cache`order, cache`refs
      ensures Ready() && cache.refs == old(cache.refs) - multiset{b}
      ensures SameHeld(old(cache.buf), cache.buf, cache.refs[b := 0])
    {
      hide Cache.Valid, Pinned, Distinct, Prepared, SameHeld, SameBlocks, OnlyTwo, InLog, HeldAway, HeldBlocks;
      ghost var bs, buf, refs := block[..n], cache.buf, cache.refs;
      cache.HeldAndPinned(b);
      if buf[b].blockno in bs { PinnedSomewhere(buf, cache.pins, bs, slot, buf[b].blockno); }
      cache.ReleaseOne(b);
      PinnedOnly(buf, cache.buf, cache.pins, bs, slot, b);
      OneFewerHeld(buf, cache.buf, refs, l, b);
      FewerHeld(cache.disk, cache.view, cache.dirty, l, bs, HeldBlocks(buf, refs), HeldBlocks(cache.buf, cache.refs),
                buf[b].blockno);
    }

    // The update of one block as file system calls do it: bread, change the
    // data, log_write, brelse; the caller may hold other buffers, as bmap
    // holds the indirect block while it allocates.
    method UpdateBlock(k: nat, data: Block) returns (ok: bool)
      requires Ready() && k in cache.disk && !InLog(l, k) && Unheld(cache.buf, cache.refs, k)
      modifies this`n, this`block, this`slot, cache
      ensures ok <==> !NoBuffer(old(cache.buf), k) && old(n) < LOGSIZE && old(n) < l.size - 1 && outstanding >= 1
      ensures |old(cache.refs)| + |old(cache.pins)| < NBUF ==> !NoBuffer(old(cache.buf), k)
      ensures ok ==> Ready() && cache.view == old(cache.view)[k := data]
      ensures ok ==> cache.refs == old(cache.refs) && SameHeld(old(cache.buf), cache.buf, cache.refs)
      ensures ok ==> cache.disk == old(cache.disk) && cache.trace == old(cache.trace)
      ensures ok ==> block[..n] == if k in old(block[..n]) then old(block[..n]) else old(block[..n]) + [k]
    {
      hide Ready, SameHeld, NoBuffer, InLog, Unheld;
      ghost var refs, buf0 := cache.refs, cache.buf;
      var b;
      ok, b := Hold(k);
      if !ok { return; }
      ghost var buf1 := cache.buf;
      OneReturned(refs, b);
      ok := UpdateHeld(b, data);
      if !ok { return; }
      ghost var buf2 := cache.buf;
      Drop(b);
      HeldThrough(buf0, buf1, buf2, cache.buf, refs, b);
    }
  }
}
