/** The allocator of user/umalloc.c (Kernighan and Ritchie, section 8.7). An
    address counts units of one header; heap memory lies above the static
    header base. */
module Umalloc {
  const UNIT := 16 // sizeof(Header)
  const TWO31: nat := 0x8000_0000
  const TWO32: nat := 0x1_0000_0000

  datatype Opt = None | Some(v: nat)

  // ---------- the free list ----------

  ghost function After(fl: seq<nat>, i: nat): (j: nat)
    requires i < |fl|
    ensures j < |fl|
  {
    if i + 1 < |fl| then i + 1 else 0
  }

  // fl is the circular list from base on, in order of addresses: the only
  // link that goes down is the one back to base.
  ghost predicate Ring(ptr: map<nat, nat>, fl: seq<nat>, base: nat) {
    && |fl| > 0 && fl[0] == base && Sorted(fl)
    && (forall i: nat :: i < |fl| ==> Link(ptr, fl, i))
  }

  ghost predicate Sorted(fl: seq<nat>) {
    forall i, j :: 0 <= i < j < |fl| ==> fl[i] < fl[j]
  }

  ghost predicate Link(ptr: map<nat, nat>, fl: seq<nat>, i: nat)
    requires i < |fl|
  {
    fl[i] in ptr && ptr[fl[i]] == fl[After(fl, i)]
  }

  // Every free block ends before the next one begins; base is empty.
  ghost predicate Sized(size: map<nat, nat>, fl: seq<nat>, base: nat, brk: nat) {
    && |fl| > 0 && fl[0] == base < brk
    && (forall i :: 0 <= i < |fl| ==> fl[i] in size && fl[i] + size[fl[i]] <= brk)
    && size[fl[0]] == 0 && (forall i :: 0 < i < |fl| ==> size[fl[i]] > 0)
    && (forall i, j :: 0 <= i < j < |fl| ==> fl[i] + size[fl[i]] <= fl[j])
  }

  // No two neighbours other than those at e touch.
  ghost predicate Apart(size: map<nat, nat>, fl: seq<nat>, e: set<nat>) {
    && (forall i :: 0 <= i < |fl| ==> fl[i] in size)
    && (forall i: nat :: i + 1 < |fl| && i !in e ==> fl[i] + size[fl[i]] != fl[i + 1])
  }

  // ---------- blocks in use ----------

  ghost predicate Lives(size: map<nat, nat>, fl: seq<nat>, live: map<nat, nat>, base: nat, brk: nat) {
    && (forall i :: 0 <= i < |fl| ==> fl[i] in size)
    && (forall b :: b in live ==> b in size && size[b] == live[b] && live[b] > 0 && base < b && b + live[b] <= brk)
    && (forall b, c :: b in live && c in live && b < c ==> b + live[b] <= c)
    && (forall b, i :: b in live && 0 <= i < |fl| ==> b + live[b] <= fl[i] || fl[i] + size[fl[i]] <= b)
  }

  ghost predicate InFree(size: map<nat, nat>, fl: seq<nat>, u: nat) {
    exists i :: 0 <= i < |fl| && fl[i] in size && fl[i] <= u < fl[i] + size[fl[i]]
  }

  ghost predicate InLive(live: map<nat, nat>, u: nat) {
    exists b :: b in live && b <= u < b + live[b]
  }

  // The blocks make up exactly the memory got from sbrk.
  ghost predicate Covered(size: map<nat, nat>, fl: seq<nat>, live: map<nat, nat>, arena: set<nat>) {
    forall u: nat :: u in arena <==> InFree(size, fl, u) || InLive(live, u)
  }

  ghost predicate Whole(ptr: map<nat, nat>, size: map<nat, nat>, fl: seq<nat>, live: map<nat, nat>, arena: set<nat>,
                        base: nat, brk: nat) {
    && Ring(ptr, fl, base) && Sized(size, fl, base, brk) && Lives(size, fl, live, base, brk)
    && Covered(size, fl, live, arena)
  }

  // ---------- a block enters the free list ----------

  ghost function Inserted(fl: seq<nat>, k: nat, b: nat): seq<nat>
    requires k < |fl|
  {
    fl[..k + 1] + [b] + fl[k + 1..]
  }

  lemma InsertedAt(fl: seq<nat>, k: nat, b: nat)
    requires k < |fl|
    ensures |Inserted(fl, k, b)| == |fl| + 1 && Inserted(fl, k, b)[k + 1] == b
    ensures forall i :: 0 <= i <= k ==> Inserted(fl, k, b)[i] == fl[i]
    ensures forall i :: k + 1 < i <= |fl| ==> Inserted(fl, k, b)[i] == fl[i - 1]
  {
  }

  // Block b belongs after entry k.
  ghost predicate Fits(fl: seq<nat>, k: nat, b: nat) {
    k < |fl| && fl[k] < b && (k + 1 < |fl| ==> b < fl[k + 1])
  }

  lemma InsertSorted(fl: seq<nat>, k: nat, b: nat)
    requires Sorted(fl) && Fits(fl, k, b)
    ensures Sorted(Inserted(fl, k, b)) && b !in fl
  {
    hide Inserted;
    InsertedAt(fl, k, b);
  }

  lemma InsertLink(ptr: map<nat, nat>, fl: seq<nat>, k: nat, b: nat, i: nat)
    requires Fits(fl, k, b) && b !in fl && i <= |fl| && i < |Inserted(fl, k, b)|
    requires Link(ptr, fl, k) && (i < k ==> Link(ptr, fl, i) && fl[i] != fl[k])
    requires i > k + 1 ==> Link(ptr, fl, i - 1) && fl[i - 1] != fl[k]
    ensures Link(ptr[b := ptr[fl[k]]][fl[k] := b], Inserted(fl, k, b), i)
  {
    hide Inserted;
    InsertedAt(fl, k, b);
  }

  lemma InsertRing(ptr: map<nat, nat>, fl: seq<nat>, base: nat, k: nat, b: nat)
    requires Ring(ptr, fl, base) && Fits(fl, k, b) && fl[k] in ptr
    ensures Ring(ptr[b := ptr[fl[k]]][fl[k] := b], Inserted(fl, k, b), base)
  {
    hide Inserted, Link;
    InsertedAt(fl, k, b);
    InsertSorted(fl, k, b);
    var ptr', fl' := ptr[b := ptr[fl[k]]][fl[k] := b], Inserted(fl, k, b);
    forall i: nat | i < |fl'| ensures Link(ptr', fl', i) {
      InsertLink(ptr, fl, k, b, i);
    }
  }

  lemma InsertSized(size: map<nat, nat>, fl: seq<nat>, live: map<nat, nat>, base: nat, brk: nat, k: nat, b: nat)
    requires Sized(size, fl, base, brk) && Lives(size, fl, live, base, brk) && Fits(fl, k, b) && b in live
    ensures Sized(size, Inserted(fl, k, b), base, brk)
  {
    hide Inserted;
    var fl' := Inserted(fl, k, b);
    InsertedAt(fl, k, b);
    assert fl[k] + size[fl[k]] <= b;
    if k + 1 < |fl| { assert b + live[b] <= fl[k + 1]; }
  }

  lemma InsertLives(size: map<nat, nat>, fl: seq<nat>, live: map<nat, nat>, base: nat, brk: nat, k: nat, b: nat)
    requires Lives(size, fl, live, base, brk) && Fits(fl, k, b) && b in live
    ensures Lives(size, Inserted(fl, k, b), live - {b}, base, brk)
  {
    hide Inserted;
    var fl' := Inserted(fl, k, b);
    InsertedAt(fl, k, b);
  }

  lemma InsertCovered(size: map<nat, nat>, fl: seq<nat>, live: map<nat, nat>, arena: set<nat>, k: nat, b: nat)
    requires Covered(size, fl, live, arena) && k < |fl| && b in live && b in size && size[b] == live[b]
    ensures Covered(size, Inserted(fl, k, b), live - {b}, arena)
  {
    hide Inserted;
    var fl' := Inserted(fl, k, b);
    InsertedAt(fl, k, b);
    forall u: nat ensures InFree(size, fl', u) || InLive(live - {b}, u) <==> InFree(size, fl, u) || InLive(live, u) {
      if InFree(size, fl, u) {
        var i :| 0 <= i < |fl| && fl[i] in size && fl[i] <= u < fl[i] + size[fl[i]];
        assert fl'[if i <= k then i else i + 1] == fl[i];
      }
      if InLive(live, u) {
        var c :| c in live && c <= u < c + live[c];
        if c == b { assert fl'[k + 1] == b; } else { assert c in live - {b}; }
      }
      if InFree(size, fl', u) {
        var i :| 0 <= i < |fl'| && fl'[i] in size && fl'[i] <= u < fl'[i] + size[fl'[i]];
        if i == k + 1 { assert b in live; } else { assert fl[if i <= k then i else i - 1] == fl'[i]; }
      }
    }
  }

  lemma InsertApart(size: map<nat, nat>, fl: seq<nat>, k: nat, b: nat)
    requires Apart(size, fl, {}) && k < |fl| && b in size
    ensures Apart(size, Inserted(fl, k, b), {k, k + 1})
  {
    hide Inserted;
    var fl' := Inserted(fl, k, b);
    InsertedAt(fl, k, b);
  }

  // ---------- two free blocks that touch become one ----------

  ghost function Removed(fl: seq<nat>, k: nat): seq<nat>
    requires k < |fl|
  {
    fl[..k] + fl[k + 1..]
  }

  lemma RemovedAt(fl: seq<nat>, k: nat)
    requires k < |fl|
    ensures |Removed(fl, k)| == |fl| - 1
    ensures forall i :: 0 <= i < k ==> Removed(fl, k)[i] == fl[i]
    ensures forall i :: k <= i < |fl| - 1 ==> Removed(fl, k)[i] == fl[i + 1]
  {
  }

  lemma RemoveLink(ptr: map<nat, nat>, fl: seq<nat>, k: nat, i: nat)
    requires k + 1 < |fl| && i + 1 < |fl| && i < |Removed(fl, k + 1)| && Link(ptr, fl, k + 1)
    requires i < k ==> Link(ptr, fl, i) && fl[i] != fl[k]
    requires i > k ==> Link(ptr, fl, i + 1) && fl[i + 1] != fl[k]
    ensures Link(ptr[fl[k] := ptr[fl[k + 1]]], Removed(fl, k + 1), i)
  {
    hide Removed;
    RemovedAt(fl, k + 1);
  }

  lemma RemoveRing(ptr: map<nat, nat>, fl: seq<nat>, base: nat, k: nat)
    requires Ring(ptr, fl, base) && k + 1 < |fl| && fl[k + 1] in ptr
    ensures Ring(ptr[fl[k] := ptr[fl[k + 1]]], Removed(fl, k + 1), base)
  {
    hide Removed, Link;
    RemovedAt(fl, k + 1);
    var ptr', fl' := ptr[fl[k] := ptr[fl[k + 1]]], Removed(fl, k + 1);
    forall i: nat | i < |fl'| ensures Link(ptr', fl', i) {
      RemoveLink(ptr, fl, k, i);
    }
  }

  lemma MergeSized(size: map<nat, nat>, fl: seq<nat>, base: nat, brk: nat, k: nat)
    requires Sized(size, fl, base, brk) && 0 < k && k + 1 < |fl| && fl[k] + size[fl[k]] == fl[k + 1]
    requires Sorted(fl)
    ensures Sized(size[fl[k] := size[fl[k]] + size[fl[k + 1]]], Removed(fl, k + 1), base, brk)
  {
    hide Removed;
    var fl' := Removed(fl, k + 1);
    RemovedAt(fl, k + 1);
  }

  lemma MergeLives(size: map<nat, nat>, fl: seq<nat>, live: map<nat, nat>, base: nat, brk: nat, k: nat)
    requires Lives(size, fl, live, base, brk) && k + 1 < |fl| && fl[k] + size[fl[k]] == fl[k + 1]
    requires size[fl[k]] > 0 && size[fl[k + 1]] > 0 && Sorted(fl)
    ensures Lives(size[fl[k] := size[fl[k]] + size[fl[k + 1]]], Removed(fl, k + 1), live, base, brk)
  {
    hide Removed;
    var fl' := Removed(fl, k + 1);
    RemovedAt(fl, k + 1);
    assert forall b :: b in live ==> b != fl[k];
    assert forall b :: b in live ==> b + live[b] <= fl[k] || fl[k + 1] + size[fl[k + 1]] <= b;
  }

  lemma MergeCovered(size: map<nat, nat>, fl: seq<nat>, live: map<nat, nat>, arena: set<nat>, k: nat)
    requires Covered(size, fl, live, arena) && k + 1 < |fl| && fl[k] in size && fl[k + 1] in size
    requires fl[k] + size[fl[k]] == fl[k + 1] && Sorted(fl)
    ensures Covered(size[fl[k] := size[fl[k]] + size[fl[k + 1]]], Removed(fl, k + 1), live, arena)
  {
    hide Removed;
    var fl', size' := Removed(fl, k + 1), size[fl[k] := size[fl[k]] + size[fl[k + 1]]];
    RemovedAt(fl, k + 1);
    forall u: nat ensures InFree(size', fl', u) <==> InFree(size, fl, u) {
      if InFree(size, fl, u) {
        var i :| 0 <= i < |fl| && fl[i] in size && fl[i] <= u < fl[i] + size[fl[i]];
        var i' := if i <= k then i else i - 1;
        assert i != k + 1 ==> fl'[i'] == fl[i];
        assert fl'[i'] in size' && fl'[i'] <= u < fl'[i'] + size'[fl'[i']];
      }
      if InFree(size', fl', u) {
        var i :| 0 <= i < |fl'| && fl'[i] in size' && fl'[i] <= u < fl'[i] + size'[fl'[i]];
        if i == k {
          assert fl[k] <= u < fl[k] + size[fl[k]] || fl[k + 1] <= u < fl[k + 1] + size[fl[k + 1]];
        } else {
          assert fl[if i < k then i else i + 1] == fl'[i];
        }
      }
    }
  }

  lemma MergeApart(size: map<nat, nat>, fl: seq<nat>, k: nat, e: set<nat>)
    requires Apart(size, fl, e) && k + 1 < |fl| && fl[k] + size[fl[k]] == fl[k + 1]
    requires Sorted(fl)
    requires forall i :: i in e ==> i <= k
    ensures Apart(size[fl[k] := size[fl[k]] + size[fl[k + 1]]], Removed(fl, k + 1), e - {k})
  {
    hide Removed;
    var fl', size' := Removed(fl, k + 1), size[fl[k] := size[fl[k]] + size[fl[k + 1]]];
    RemovedAt(fl, k + 1);
    forall i: nat | i + 1 < |fl'| && i !in e - {k} ensures fl'[i] + size'[fl'[i]] != fl'[i + 1] {
      if i == k {
        assert fl[k + 1] + size[fl[k + 1]] != fl[k + 2];
      } else if i < k {
        assert fl[i] + size[fl[i]] != fl[i + 1];
      } else {
        assert fl[i + 1] + size[fl[i + 1]] != fl[i + 2];
      }
    }
  }

  // ---------- a free block is handed out ----------

  lemma TakeSized(size: map<nat, nat>, fl: seq<nat>, base: nat, brk: nat, k: nat)
    requires Sized(size, fl, base, brk) && k + 1 < |fl|
    ensures Sized(size, Removed(fl, k + 1), base, brk)
  {
    hide Removed;
    RemovedAt(fl, k + 1);
  }

  lemma TakeLives(size: map<nat, nat>, fl: seq<nat>, live: map<nat, nat>, base: nat, brk: nat, k: nat)
    requires Sized(size, fl, base, brk) && Lives(size, fl, live, base, brk) && Sorted(fl) && k + 1 < |fl|
    ensures Lives(size, Removed(fl, k + 1), live[fl[k + 1] := size[fl[k + 1]]], base, brk) && fl[k + 1] !in live
  {
    hide Removed;
    RemovedAt(fl, k + 1);
    assert fl[0] < fl[k + 1];
    assert forall c :: c in live ==> c + live[c] <= fl[k + 1] || fl[k + 1] + size[fl[k + 1]] <= c;
    assert forall i :: 0 <= i < |fl| && i != k + 1 ==>
      fl[i] + size[fl[i]] <= fl[k + 1] || fl[k + 1] + size[fl[k + 1]] <= fl[i];
  }

  lemma TakeApart(size: map<nat, nat>, fl: seq<nat>, base: nat, brk: nat, k: nat)
    requires Sized(size, fl, base, brk) && Apart(size, fl, {}) && Sorted(fl) && k + 1 < |fl|
    ensures Apart(size, Removed(fl, k + 1), {})
  {
    hide Removed;
    RemovedAt(fl, k + 1);
    var fl' := Removed(fl, k + 1);
    forall i: nat | i + 1 < |fl'| ensures fl'[i] + size[fl'[i]] != fl'[i + 1] {
      if i == k {
        assert fl[k] + size[fl[k]] <= fl[k + 1] < fl[k + 2];
      } else if i < k {
        assert fl[i] + size[fl[i]] != fl[i + 1];
      } else {
        assert fl[i + 1] + size[fl[i + 1]] != fl[i + 2];
      }
    }
  }

  lemma TakeCovered(size: map<nat, nat>, fl: seq<nat>, live: map<nat, nat>, arena: set<nat>, k: nat)
    requires Covered(size, fl, live, arena) && k + 1 < |fl| && fl[k + 1] in size && fl[k + 1] !in live
    ensures Covered(size, Removed(fl, k + 1), live[fl[k + 1] := size[fl[k + 1]]], arena)
  {
    hide Removed;
    RemovedAt(fl, k + 1);
    var b := fl[k + 1];
    var fl', live' := Removed(fl, k + 1), live[b := size[b]];
    forall u: nat ensures InFree(size, fl', u) || InLive(live', u) <==> InFree(size, fl, u) || InLive(live, u) {
      if InFree(size, fl, u) {
        var i :| 0 <= i < |fl| && fl[i] in size && fl[i] <= u < fl[i] + size[fl[i]];
        if i == k + 1 { assert b in live'; } else { assert fl'[if i <= k then i else i - 1] == fl[i]; }
      }
      if InLive(live, u) {
        var c :| c in live && c <= u < c + live[c];
        assert c in live';
      }
      if InFree(size, fl', u) {
        var i :| 0 <= i < |fl'| && fl'[i] in size && fl'[i] <= u < fl'[i] + size[fl'[i]];
        assert fl[if i <= k then i else i + 1] == fl'[i];
      }
      if InLive(live', u) {
        var c :| c in live' && c <= u < c + live'[c];
        if c == b { assert fl[k + 1] == b; } else { assert c in live; }
      }
    }
  }

  // The last n units of block k are split off.
  ghost function SplitSize(size: map<nat, nat>, p: nat, n: nat): map<nat, nat>
    requires p in size && n < size[p]
  {
    size[p := size[p] - n][p + (size[p] - n) := n]
  }

  lemma SplitInside(size: map<nat, nat>, fl: seq<nat>, live: map<nat, nat>, base: nat, brk: nat, k: nat, n: nat)
    requires Sized(size, fl, base, brk) && Lives(size, fl, live, base, brk) && Sorted(fl)
    requires 0 < k < |fl| && 0 < n < size[fl[k]]
    ensures var b := fl[k] + (size[fl[k]] - n); b !in fl && b !in live && fl[k] !in live && fl[k] > base
  {
    var b := fl[k] + (size[fl[k]] - n);
    forall i | 0 <= i < |fl| ensures fl[i] != b {
      if i > k { assert fl[k] + size[fl[k]] <= fl[i]; }
    }
    assert forall c :: c in live ==> c + live[c] <= fl[k] || fl[k] + size[fl[k]] <= c;
  }

  lemma SplitSized(size: map<nat, nat>, fl: seq<nat>, base: nat, brk: nat, k: nat, n: nat)
    requires Sized(size, fl, base, brk) && Sorted(fl) && 0 < k < |fl| && 0 < n < size[fl[k]]
    requires fl[k] + (size[fl[k]] - n) !in fl
    ensures Sized(SplitSize(size, fl[k], n), fl, base, brk)
  {
    var size' := SplitSize(size, fl[k], n);
    assert forall i :: 0 <= i < |fl| && i != k ==> size'[fl[i]] == size[fl[i]];
    assert size'[fl[k]] == size[fl[k]] - n;
    hide SplitSize;
  }

  lemma SplitLives(size: map<nat, nat>, fl: seq<nat>, live: map<nat, nat>, base: nat, brk: nat, k: nat, n: nat)
    requires Lives(size, fl, live, base, brk) && Sorted(fl) && k < |fl| && 0 < n < size[fl[k]] && fl[k] > base
    requires fl[k] + size[fl[k]] <= brk && fl[k] !in live
    requires var b := fl[k] + (size[fl[k]] - n); b !in fl && b !in live
    requires forall i :: 0 <= i < |fl| && i != k ==> fl[i] + size[fl[i]] <= fl[k] || fl[k] + size[fl[k]] <= fl[i]
    ensures Lives(SplitSize(size, fl[k], n), fl, live[fl[k] + (size[fl[k]] - n) := n], base, brk)
  {
    var size', b := SplitSize(size, fl[k], n), fl[k] + (size[fl[k]] - n);
    assert forall i :: 0 <= i < |fl| && i != k ==> size'[fl[i]] == size[fl[i]];
    assert size'[fl[k]] == size[fl[k]] - n && size'[b] == n;
    assert forall c :: c in live ==> c in size' && size'[c] == size[c];
    hide SplitSize;
    assert forall c :: c in live ==> c + live[c] <= fl[k] || fl[k] + size[fl[k]] <= c;
  }

  lemma SplitApart(size: map<nat, nat>, fl: seq<nat>, base: nat, brk: nat, k: nat, n: nat)
    requires Sized(size, fl, base, brk) && Apart(size, fl, {}) && Sorted(fl) && 0 < k < |fl| && 0 < n < size[fl[k]]
    ensures Apart(SplitSize(size, fl[k], n), fl, {})
  {
    var b := fl[k] + (size[fl[k]] - n);
    forall i | 0 <= i < |fl| ensures fl[i] != b {
      if i > k { assert fl[k] + size[fl[k]] <= fl[i]; }
    }
    forall i: nat | i + 1 < |fl| ensures fl[i] + SplitSize(size, fl[k], n)[fl[i]] != fl[i + 1] {
      assert fl[i] + size[fl[i]] <= fl[i + 1] && fl[i] + size[fl[i]] != fl[i + 1];
    }
  }

  lemma SplitCovered(size: map<nat, nat>, fl: seq<nat>, live: map<nat, nat>, arena: set<nat>, k: nat, n: nat)
    requires Covered(size, fl, live, arena) && Sorted(fl) && k < |fl| && fl[k] in size && 0 < n < size[fl[k]]
    requires var b := fl[k] + (size[fl[k]] - n); b !in live && b !in fl
    ensures Covered(SplitSize(size, fl[k], n), fl, live[fl[k] + (size[fl[k]] - n) := n], arena)
  {
    var size', b := SplitSize(size, fl[k], n), fl[k] + (size[fl[k]] - n);
    var live' := live[b := n];
    forall u: nat ensures InFree(size', fl, u) || InLive(live', u) <==> InFree(size, fl, u) || InLive(live, u) {
      if InFree(size, fl, u) {
        var i :| 0 <= i < |fl| && fl[i] in size && fl[i] <= u < fl[i] + size[fl[i]];
        if i == k && u >= b { assert b in live'; } else { assert fl[i] <= u < fl[i] + size'[fl[i]]; }
      }
      if InLive(live, u) {
        var c :| c in live && c <= u < c + live[c];
        assert c in live';
      }
      if InFree(size', fl, u) {
        var i :| 0 <= i < |fl| && fl[i] in size' && fl[i] <= u < fl[i] + size'[fl[i]];
        assert fl[i] <= u < fl[i] + size[fl[i]];
      }
      if InLive(live', u) {
        var c :| c in live' && c <= u < c + live'[c];
        if c == b { assert fl[k] <= u < fl[k] + size[fl[k]]; } else { assert c in live; }
      }
    }
  }

  // ---------- memory from sbrk ----------

  ghost function Region(hp: nat, nu: nat): (r: set<nat>)
    ensures forall u: nat :: u in r <==> hp <= u < hp + nu
  {
    if nu == 0 then {} else Region(hp, nu - 1) + {hp + nu - 1}
  }

  lemma NewRegion(size: map<nat, nat>, fl: seq<nat>, live: map<nat, nat>, arena: set<nat>, base: nat, brk: nat, hp: nat, nu: nat)
    requires Sized(size, fl, base, brk) && Lives(size, fl, live, base, brk) && Covered(size, fl, live, arena)
    requires hp >= brk && nu > 0
    ensures hp !in live && Sized(size[hp := nu], fl, base, hp + nu) && Lives(size[hp := nu], fl, live[hp := nu], base, hp + nu)
    ensures Covered(size[hp := nu], fl, live[hp := nu], arena + Region(hp, nu))
  {
    NewBlock(size, fl, live, base, brk, hp, nu);
    var size', live' := size[hp := nu], live[hp := nu];
    forall u: nat
      ensures InFree(size', fl, u) || InLive(live', u) <==> InFree(size, fl, u) || InLive(live, u) || u in Region(hp, nu)
    {
      if InFree(size, fl, u) {
        var i :| 0 <= i < |fl| && fl[i] in size && fl[i] <= u < fl[i] + size[fl[i]];
        assert fl[i] <= u < fl[i] + size'[fl[i]];
      }
      if InLive(live, u) {
        var c :| c in live && c <= u < c + live[c];
        assert c in live';
      }
      if u in Region(hp, nu) { assert hp in live'; }
      if InFree(size', fl, u) {
        var i :| 0 <= i < |fl| && fl[i] in size' && fl[i] <= u < fl[i] + size'[fl[i]];
        assert fl[i] <= u < fl[i] + size[fl[i]];
      }
      if InLive(live', u) {
        var c :| c in live' && c <= u < c + live'[c];
        if c != hp { assert c in live; }
      }
    }
  }

  lemma NewBlock(size: map<nat, nat>, fl: seq<nat>, live: map<nat, nat>, base: nat, brk: nat, hp: nat, nu: nat)
    requires Sized(size, fl, base, brk) && Lives(size, fl, live, base, brk) && hp >= brk && nu > 0
    ensures hp !in live && hp !in fl
    ensures Sized(size[hp := nu], fl, base, hp + nu) && Lives(size[hp := nu], fl, live[hp := nu], base, hp + nu)
  {
  }

  // ---------- whole steps ----------

  lemma Insert(ptr: map<nat, nat>, size: map<nat, nat>, fl: seq<nat>, live: map<nat, nat>, arena: set<nat>,
               base: nat, brk: nat, k: nat, b: nat)
    requires Whole(ptr, size, fl, live, arena, base, brk) && Fits(fl, k, b) && b in live && fl[k] in ptr
    ensures Whole(ptr[b := ptr[fl[k]]][fl[k] := b], size, Inserted(fl, k, b), live - {b}, arena, base, brk)
  {
    assert size[b] == live[b];
    hide Ring, Sized, Lives, Covered, Inserted;
    InsertRing(ptr, fl, base, k, b);
    InsertSized(size, fl, live, base, brk, k, b);
    InsertLives(size, fl, live, base, brk, k, b);
    InsertCovered(size, fl, live, arena, k, b);
  }

  lemma Merge(ptr: map<nat, nat>, size: map<nat, nat>, fl: seq<nat>, live: map<nat, nat>, arena: set<nat>,
              base: nat, brk: nat, k: nat)
    requires Whole(ptr, size, fl, live, arena, base, brk) && 0 < k && k + 1 < |fl| && fl[k] in size && fl[k + 1] in size
    requires fl[k] + size[fl[k]] == fl[k + 1] && fl[k + 1] in ptr
    ensures Whole(ptr[fl[k] := ptr[fl[k + 1]]], size[fl[k] := size[fl[k]] + size[fl[k + 1]]], Removed(fl, k + 1), live, arena, base, brk)
  {
    assert Sorted(fl) && size[fl[k]] > 0 && size[fl[k + 1]] > 0;
    hide Ring, Sized, Lives, Covered, Removed;
    RemoveRing(ptr, fl, base, k);
    MergeSized(size, fl, base, brk, k);
    MergeLives(size, fl, live, base, brk, k);
    MergeCovered(size, fl, live, arena, k);
  }

  lemma Take(ptr: map<nat, nat>, size: map<nat, nat>, fl: seq<nat>, live: map<nat, nat>, arena: set<nat>,
             base: nat, brk: nat, k: nat)
    requires Whole(ptr, size, fl, live, arena, base, brk) && k + 1 < |fl| && fl[k + 1] in size && fl[k + 1] in ptr
    ensures fl[k + 1] !in live
    ensures Whole(ptr[fl[k] := ptr[fl[k + 1]]], size, Removed(fl, k + 1), live[fl[k + 1] := size[fl[k + 1]]], arena, base, brk)
  {
    assert Sorted(fl);
    hide Ring, Sized, Lives, Covered, Removed;
    RemoveRing(ptr, fl, base, k);
    TakeSized(size, fl, base, brk, k);
    TakeLives(size, fl, live, base, brk, k);
    TakeCovered(size, fl, live, arena, k);
  }

  lemma Split(ptr: map<nat, nat>, size: map<nat, nat>, fl: seq<nat>, live: map<nat, nat>, arena: set<nat>,
              base: nat, brk: nat, k: nat, n: nat)
    requires Whole(ptr, size, fl, live, arena, base, brk) && 0 < k < |fl| && fl[k] in size && 0 < n < size[fl[k]]
    ensures fl[k] + (size[fl[k]] - n) !in live
    ensures Whole(ptr, SplitSize(size, fl[k], n), fl, live[fl[k] + (size[fl[k]] - n) := n], arena, base, brk)
  {
    assert Sorted(fl) && fl[k] + size[fl[k]] <= brk;
    assert forall i :: 0 <= i < |fl| && i != k ==> fl[i] + size[fl[i]] <= fl[k] || fl[k] + size[fl[k]] <= fl[i];
    hide Ring, Sized, Lives, Covered, SplitSize;
    SplitInside(size, fl, live, base, brk, k, n);
    SplitSized(size, fl, base, brk, k, n);
    SplitLives(size, fl, live, base, brk, k, n);
    SplitCovered(size, fl, live, arena, k, n);
  }

  lemma Entry(ptr: map<nat, nat>, size: map<nat, nat>, fl: seq<nat>, live: map<nat, nat>, arena: set<nat>,
              base: nat, brk: nat, k: nat)
    requires Whole(ptr, size, fl, live, arena, base, brk) && k < |fl|
    ensures fl[k] in ptr && fl[k] in size && ptr[fl[k]] == fl[After(fl, k)] && fl[0] == base && Sorted(fl)
    ensures (size[fl[k]] == 0 <==> k == 0) && fl[k] + size[fl[k]] <= brk
    ensures forall b :: b in live ==> b in size && size[b] == live[b] && b > base && b !in fl
  {
    assert Link(ptr, fl, k);
    assert Sized(size, fl, base, brk);
    assert fl[0] + size[fl[0]] <= fl[k] || k == 0;
  }

  // What free does to the headers: bp goes between p and its successor and is
  // joined with each of them that it touches.
  ghost function Joined(ptr: map<nat, nat>, size: map<nat, nat>, p: nat, bp: nat): (map<nat, nat>, map<nat, nat>)
    requires p in ptr && p in size && bp in size && ptr[p] in ptr && ptr[p] in size
  {
    var right := bp + size[bp] == ptr[p];
    var size1 := if right then size[bp := size[bp] + size[ptr[p]]] else size;
    var ptr1 := ptr[bp := if right then ptr[ptr[p]] else ptr[p]];
    if p + size1[p] == bp then (ptr1[p := ptr1[bp]], size1[p := size1[p] + size1[bp]]) else (ptr1[p := bp], size1)
  }

  lemma FreeKeeps(ptr: map<nat, nat>, size: map<nat, nat>, fl: seq<nat>, live: map<nat, nat>, arena: set<nat>,
                  base: nat, brk: nat, k: nat, bp: nat) returns (fl': seq<nat>)
    requires Whole(ptr, size, fl, live, arena, base, brk) && Apart(size, fl, {}) && Fits(fl, k, bp) && bp in live
    requires fl[k] in ptr && fl[k] in size && bp in size && ptr[fl[k]] in ptr && ptr[fl[k]] in size
    ensures var (ptr', size') := Joined(ptr, size, fl[k], bp);
      && Whole(ptr', size', fl', live - {bp}, arena, base, brk) && Apart(size', fl', {})
      && k < |fl'| && fl'[k] == fl[k] && Holding(size', fl', k, live[bp])
  {
    hide Whole, Apart, Inserted;
    Entry(ptr, size, fl, live, arena, base, brk, k);
    var next := ptr[fl[k]];
    InsertApart(size, fl, k, bp);
    Insert(ptr, size, fl, live, arena, base, brk, k, bp);
    InsertedAt(fl, k, bp);
    var ptr1, fl1 := ptr[bp := next][fl[k] := bp], Inserted(fl, k, bp);
    var ptr2, size2, fl2 := JoinRight(ptr1, size, fl1, live - {bp}, arena, base, brk, k);
    Entry(ptr2, size2, fl2, live - {bp}, arena, base, brk, k);
    Entry(ptr2, size2, fl2, live - {bp}, arena, base, brk, k + 1);
    NextIs(ptr, size, fl, live, arena, base, brk, k, bp);
    assert {k} - {k} == {};
    if fl2[k] + size2[fl2[k]] == bp {
      MergeApart(size2, fl2, k, {k});
      Merge(ptr2, size2, fl2, live - {bp}, arena, base, brk, k);
      RemovedAt(fl2, k + 1);
      fl' := Removed(fl2, k + 1);
      assert ptr2[fl[k] := ptr2[bp]] == Joined(ptr, size, fl[k], bp).0;
    } else {
      ApartNow(size2, fl2, k, {k});
      fl' := fl2;
      assert ptr2 == Joined(ptr, size, fl[k], bp).0;
    }
  }

  // Entry k or the one after it has at least n units.
  ghost predicate Holding(size: map<nat, nat>, fl: seq<nat>, k: nat, n: nat) {
    && k < |fl| && fl[k] in size
    && (size[fl[k]] >= n || (k + 1 < |fl| && fl[k + 1] in size && size[fl[k + 1]] >= n))
  }

  // The successor of entry k in the list is not after it only if it is base.
  lemma NextIs(ptr: map<nat, nat>, size: map<nat, nat>, fl: seq<nat>, live: map<nat, nat>, arena: set<nat>,
               base: nat, brk: nat, k: nat, bp: nat)
    requires Whole(ptr, size, fl, live, arena, base, brk) && Fits(fl, k, bp) && bp in live && fl[k] in ptr
    ensures k + 1 < |fl| ==> ptr[fl[k]] == fl[k + 1] && fl[k + 1] != bp && fl[k + 1] != fl[k]
    ensures k + 1 == |fl| ==> ptr[fl[k]] == base < bp
  {
    hide Whole;
    Entry(ptr, size, fl, live, arena, base, brk, k);
  }

  lemma ApartNow(size: map<nat, nat>, fl: seq<nat>, k: nat, e: set<nat>)
    requires Apart(size, fl, e) && (k + 1 < |fl| ==> fl[k] + size[fl[k]] != fl[k + 1])
    ensures Apart(size, fl, e - {k})
  {
  }

  // Entry k + 1 is joined with its successor if they touch.
  lemma JoinRight(ptr: map<nat, nat>, size: map<nat, nat>, fl: seq<nat>, live: map<nat, nat>, arena: set<nat>,
                  base: nat, brk: nat, k: nat)
    returns (ptr': map<nat, nat>, size': map<nat, nat>, fl': seq<nat>)
    requires Whole(ptr, size, fl, live, arena, base, brk) && Apart(size, fl, {k, k + 1}) && k + 1 < |fl|
    requires fl[k + 1] in size
    ensures Whole(ptr', size', fl', live, arena, base, brk) && Apart(size', fl', {k})
    ensures |fl'| > k + 1 && fl'[..k + 2] == fl[..k + 2]
    ensures if k + 2 < |fl| && fl[k + 1] + size[fl[k + 1]] == fl[k + 2]
            then fl[k + 2] in ptr && fl[k + 2] in size && ptr' == ptr[fl[k + 1] := ptr[fl[k + 2]]] &&
                 size' == size[fl[k + 1] := size[fl[k + 1]] + size[fl[k + 2]]]
            else ptr' == ptr && size' == size
  {
    hide Whole, Apart, Removed;
    Entry(ptr, size, fl, live, arena, base, brk, k + 1);
    if k + 2 < |fl| && fl[k + 1] + size[fl[k + 1]] == fl[k + 2] {
      Entry(ptr, size, fl, live, arena, base, brk, k + 2);
      MergeApart(size, fl, k + 1, {k, k + 1});
      Merge(ptr, size, fl, live, arena, base, brk, k + 1);
      RemovedAt(fl, k + 2);
      ptr', size', fl' := ptr[fl[k + 1] := ptr[fl[k + 2]]], size[fl[k + 1] := size[fl[k + 1]] + size[fl[k + 2]]], Removed(fl, k + 2);
      assert {k, k + 1} - {k + 1} == {k};
    } else {
      ApartNow(size, fl, k + 1, {k, k + 1});
      ptr', size', fl' := ptr, size, fl;
      assert {k, k + 1} - {k + 1} == {k};
    }
  }

  // ---------- the search loops ----------

  // Steps along the list from entry i to entry t.
  ghost function Steps(i: nat, t: nat, n: nat): (r: nat)
    requires i < n && t < n
    ensures r < n && (r == 0 <==> i == t)
  {
    if i <= t then t - i else t - i + n
  }

  lemma StepCloser(fl: seq<nat>, i: nat, t: nat)
    requires i < |fl| && t < |fl| && i != t
    ensures Steps(After(fl, i), t, |fl|) == Steps(i, t, |fl|) - 1
  {
  }

  lemma {:induction false} PlaceFor(fl: seq<nat>, b: nat) returns (t: nat)
    requires |fl| > 0 && fl[0] < b && b !in fl
    ensures Fits(fl, t, b)
  {
    t := 0;
    while t + 1 < |fl| && fl[t + 1] < b
      invariant t < |fl| && fl[t] < b
    {
      t := t + 1;
    }
  }

  // The units malloc looks for, and how many it asks sbrk for.
  function Units(nbytes: nat): nat {
    (nbytes + UNIT - 1) / UNIT + 1
  }

  function Request(nunits: nat): nat {
    if nunits < 4096 then 4096 else nunits
  }

  // Conversion of an unsigned number to int, as in the call of sbrk.
  function ToInt(x: nat): int {
    if x % TWO32 < TWO31 then x % TWO32 else x % TWO32 - TWO32
  }

  // sbrk is asked for the right number of bytes if and only if malloc is
  // called with less than 2^31 - 31 of them.
  lemma SbrkArgument(nbytes: nat)
    requires nbytes < TWO32
    ensures ToInt(Request(Units(nbytes)) * UNIT) == Request(Units(nbytes)) * UNIT <==> nbytes <= TWO31 - 2 * UNIT
  {
    var n := Request(Units(nbytes));
    assert n <= 0x1000_0001;
    if nbytes <= TWO31 - 2 * UNIT {
      assert n < 0x800_0000 && n * UNIT < TWO31;
    } else {
      assert Units(nbytes) >= 0x800_0000 && n * UNIT >= TWO31;
    }
  }

  // For the largest argument it is asked for 16 bytes.
  lemma SbrkLargest()
    ensures ToInt(Request(Units(TWO32 - 1)) * UNIT) == 16
  {
  }

  // Entries that the search has passed, on its way to entry f, are too small.
  ghost predicate Passed(size: map<nat, nat>, fl: seq<nat>, f: nat, i: nat, n: nat) {
    f < |fl| && i < |fl| &&
    forall j :: 0 <= j < |fl| && Steps(j, f, |fl|) > Steps(i, f, |fl|) ==> fl[j] in size && size[fl[j]] < n
  }

  ghost predicate Small(size: map<nat, nat>, fl: seq<nat>, n: nat) {
    forall i :: 0 <= i < |fl| ==> fl[i] in size && size[fl[i]] < n
  }

  lemma PassedNone(size: map<nat, nat>, fl: seq<nat>, f: nat, n: nat)
    requires f < |fl|
    ensures Passed(size, fl, f, After(fl, f), n)
  {
  }

  lemma PassedNext(size: map<nat, nat>, fl: seq<nat>, f: nat, i: nat, n: nat)
    requires Passed(size, fl, f, i, n) && i != f && fl[i] in size && size[fl[i]] < n
    ensures Passed(size, fl, f, After(fl, i), n)
  {
  }

  lemma PassedAll(size: map<nat, nat>, fl: seq<nat>, f: nat, n: nat)
    requires Passed(size, fl, f, f, n) && fl[f] in size && size[fl[f]] < n
    ensures Small(size, fl, n)
  {
  }

  // After morecore: the search, which stands between entries j and j + 1,
  // will come to a large enough entry before it has gone around.
  ghost predicate Found(size: map<nat, nat>, fl: seq<nat>, f: nat, j: nat, n: nat) {
    && f < |fl| && j < |fl| && fl[f] in size && fl[After(fl, f)] in size
    && (size[fl[f]] >= n || (After(fl, j) == After(fl, f) && size[fl[After(fl, f)]] >= n))
  }

  lemma HoldingFound(size: map<nat, nat>, fl: seq<nat>, f: nat, n: nat)
    requires Holding(size, fl, f, n) && fl[After(fl, f)] in size
    ensures Found(size, fl, f, f, n)
  {
  }

  lemma FoundNext(size: map<nat, nat>, fl: seq<nat>, f: nat, j: nat, n: nat, more: bool)
    requires f < |fl| && j < |fl| && fl[After(fl, j)] in size && size[fl[After(fl, j)]] < n
    requires more ==> Found(size, fl, f, j, n)
    ensures more ==> Found(size, fl, f, After(fl, j), n)
  {
  }

  lemma NotTwice(size: map<nat, nat>, fl: seq<nat>, f: nat, j: nat, n: nat, more: bool)
    requires f < |fl| && j < |fl| && After(fl, j) == f && fl[f] in size && size[fl[f]] < n
    requires more ==> Found(size, fl, f, j, n)
    ensures !more
  {
  }

  lemma SameEntry(fl: seq<nat>, i: nat, j: nat)
    requires Sorted(fl) && i < |fl| && j < |fl| && fl[i] == fl[j]
    ensures i == j
  {
  }

  // The search stands between entries j and j + 1.
  ghost predicate Between(size: map<nat, nat>, fl: seq<nat>, f: nat, j: nat, n: nat, more: bool) {
    && f < |fl| && j < |fl| && Passed(size, fl, f, After(fl, j), n) && (more ==> Found(size, fl, f, j, n))
  }

  lemma BetweenStart(size: map<nat, nat>, fl: seq<nat>, f: nat, n: nat, more: bool)
    requires f < |fl| && (more ==> Found(size, fl, f, f, n))
    ensures Between(size, fl, f, f, n, more)
  {
    hide Passed, Found;
    PassedNone(size, fl, f, n);
  }

  lemma BetweenNext(size: map<nat, nat>, fl: seq<nat>, f: nat, j: nat, n: nat, more: bool)
    requires Between(size, fl, f, j, n, more) && fl[After(fl, j)] != fl[f]
    requires fl[After(fl, j)] in size && size[fl[After(fl, j)]] < n
    ensures Between(size, fl, f, After(fl, j), n, more)
    ensures Steps(After(fl, After(fl, j)), f, |fl|) < Steps(After(fl, j), f, |fl|)
  {
    hide Passed, Found;
    PassedNext(size, fl, f, After(fl, j), n);
    StepCloser(fl, After(fl, j), f);
    FoundNext(size, fl, f, j, n, more);
  }

  lemma BetweenEnd(size: map<nat, nat>, fl: seq<nat>, f: nat, j: nat, n: nat, more: bool)
    requires Between(size, fl, f, j, n, more) && Sorted(fl) && fl[After(fl, j)] == fl[f]
    requires fl[f] in size && size[fl[f]] < n
    ensures !more && Small(size, fl, n)
  {
    hide Passed, Found;
    SameEntry(fl, After(fl, j), f);
    NotTwice(size, fl, f, j, n, more);
    PassedAll(size, fl, f, n);
  }

  lemma StartsWhole(ptr: map<nat, nat>, size: map<nat, nat>, base: nat, brk: nat)
    requires base < brk
    ensures Whole(ptr[base := base], size[base := 0], [base], map[], {}, base, brk)
  {
  }

  class Heap {
    const base: nat
    var ptr: map<nat, nat>
    var size: map<nat, nat>
    var freep: Opt
    // The free list, the blocks in use with their sizes, the memory got from
    // sbrk and an address above it.
    ghost var fl: seq<nat>
    ghost var live: map<nat, nat>
    ghost var arena: set<nat>
    ghost var brk: nat

    ghost predicate Valid()
      reads this
    {
      && (freep == None ==> live == map[] && arena == {} && base < brk)
      && (freep.Some? ==> Whole(ptr, size, fl, live, arena, base, brk) && Apart(size, fl, {}) && freep.v in fl)
    }

    constructor (b: nat, ghost top: nat)
      requires b < top
      ensures Valid() && live == map[] && arena == {} && brk == top && base == b
    {
      base, ptr, size, freep := b, map[], map[], None;
      fl, live, arena, brk := [], map[], {}, top;
    }

    // The loop of free: the last entry below bp.
    method FindPlace(bp: nat) returns (p: nat, ghost k: nat)
      requires Valid() && freep.Some? && bp in live
      ensures Fits(fl, k, bp) && p == fl[k]
    {
      hide Whole, Apart;
      Entry(ptr, size, fl, live, arena, base, brk, 0);
      ghost var t := PlaceFor(fl, bp);
      p := freep.v;
      k :| 0 <= k < |fl| && fl[k] == freep.v;
      Entry(ptr, size, fl, live, arena, base, brk, k);
      while !(bp > p && bp < ptr[p])
        invariant k < |fl| && p == fl[k] && p in ptr && ptr[p] == fl[After(fl, k)]
        decreases Steps(k, t, |fl|)
      {
        if p >= ptr[p] && (bp > p || bp < ptr[p]) {
          break;
        }
        assert k != t;
        StepCloser(fl, k, t);
        p, k := ptr[p], After(fl, k);
        Entry(ptr, size, fl, live, arena, base, brk, k);
      }
    }

    // free of block bp. Entry k is where the search of malloc will begin.
    method Free(bp: nat) returns (ghost k: nat)
      requires Valid() && bp in live
      modifies this
      ensures Valid() && live == old(live) - {bp} && arena == old(arena) && brk == old(brk)
      ensures freep.Some? && Holding(size, fl, k, old(live)[bp]) && freep.v == fl[k]
    {
      hide Whole, Apart, Joined, Holding;
      var p;
      p, k := FindPlace(bp);
      Entry(ptr, size, fl, live, arena, base, brk, k);
      Entry(ptr, size, fl, live, arena, base, brk, After(fl, k));
      ghost var fl' := FreeKeeps(ptr, size, fl, live, arena, base, brk, k, bp);
      Link(p, bp);
      fl := fl';
      freep := Some(p);
      live := live - {bp};
    }

    // The two if statements of free.
    method Link(p: nat, bp: nat)
      requires p in ptr && p in size && bp in size && ptr[p] in ptr && ptr[p] in size
      modifies this`ptr, this`size
      ensures (ptr, size) == Joined(old(ptr), old(size), p, bp)
    {
      if bp + size[bp] == ptr[p] {
        size := size[bp := size[bp] + size[ptr[p]]];
        ptr := ptr[bp := ptr[ptr[p]]];
      } else {
        ptr := ptr[bp := ptr[p]];
      }
      if p + size[p] == bp {
        size := size[p := size[p] + size[bp]];
        ptr := ptr[p := ptr[bp]];
      } else {
        ptr := ptr[p := bp];
      }
    }

    // morecore; hp is the address sbrk returns, if it has the memory.
    method Morecore(nunits: nat, hp: Opt) returns (p: Opt, ghost k: nat)
      requires Valid() && freep.Some? && (hp.Some? ==> hp.v >= brk)
      modifies this
      ensures Valid() && live == old(live) && (p == None <==> hp == None)
      ensures p == None ==> fl == old(fl) && ptr == old(ptr) && size == old(size) && freep == old(freep)
      ensures p == None ==> arena == old(arena) && brk == old(brk)
      ensures p.Some? ==> freep == p && Holding(size, fl, k, nunits) && k < |fl| && p.v == fl[k]
      ensures p.Some? ==> arena == old(arena) + Region(hp.v, Request(nunits)) && brk == hp.v + Request(nunits)
    {
      hide Whole, Apart;
      k := 0;
      var nu := Request(nunits);
      if hp == None {
        return None, k;
      }
      Grow(hp.v, nu);
      k := Free(hp.v);
      p := freep;
    }

    // hp->s.size = nu, for a block got from sbrk.
    method Grow(hp: nat, nu: nat)
      requires Valid() && freep.Some? && hp >= brk && nu > 0
      modifies this
      ensures Valid() && freep == old(freep) && hp !in old(live) && live == old(live)[hp := nu]
      ensures brk == hp + nu && arena == old(arena) + Region(hp, nu)
    {
      hide Whole, Apart, Region;
      WholeGrows(hp, nu);
      size := size[hp := nu];
      live := live[hp := nu];
      arena := arena + Region(hp, nu);
      brk := hp + nu;
    }

    lemma WholeGrows(hp: nat, nu: nat)
      requires Valid() && freep.Some? && hp >= brk && nu > 0
      ensures hp !in live && Apart(size[hp := nu], fl, {})
      ensures Whole(ptr, size[hp := nu], fl, live[hp := nu], arena + Region(hp, nu), base, hp + nu)
    {
      NewBlock(size, fl, live, base, brk, hp, nu);
      hide Ring, Sized, Lives, Covered;
      NewRegion(size, fl, live, arena, base, brk, hp, nu);
    }

    // A block of n units is cut from the entry after entry k.
    method Carve(prevp: nat, p: nat, n: nat, ghost k: nat) returns (b: nat)
      requires Valid() && freep.Some? && n > 0 && k < |fl| && prevp == fl[k] && p == fl[After(fl, k)]
      requires p in size && size[p] >= n
      modifies this
      ensures Valid() && freep.Some? && arena == old(arena) && brk == old(brk)
      ensures b !in old(live) && live == old(live)[b := n]
    {
      hide Whole, Apart, Removed, SplitSize;
      Entry(ptr, size, fl, live, arena, base, brk, k);
      Entry(ptr, size, fl, live, arena, base, brk, After(fl, k));
      assert After(fl, k) == k + 1;
      b := p;
      if size[p] == n {
        Take(ptr, size, fl, live, arena, base, brk, k);
        StillApart(k);
        ptr := ptr[prevp := ptr[p]];
        RemovedAt(fl, k + 1);
        fl := Removed(fl, k + 1);
      } else {
        Split(ptr, size, fl, live, arena, base, brk, k + 1, n);
        SplitIs(size, p, n);
        ApartAfterSplit(k + 1, n);
        size := size[p := size[p] - n];
        b := b + size[b];
        size := size[b := n];
      }
      live := live[b := n];
      freep := Some(prevp);
    }

    // The very first call: the list is base alone.
    method Start()
      requires Valid() && freep == None
      modifies this
      ensures Valid() && freep.Some? && live == old(live) && arena == old(arena) && brk == old(brk)
    {
      StartsWhole(ptr, size, base, brk);
      hide Whole;
      ptr := ptr[base := base];
      freep := Some(base);
      size := size[base := 0];
      fl := [base];
    }

    // malloc. The result is a block of its own, large enough for nbytes after
    // its header, from the free list if it has one that is large enough. If
    // sbrk has the memory, hp is where it is, and it was asked for as much as
    // is meant.
    method Malloc(nbytes: nat, hp: Opt) returns (r: Opt)
      requires Valid() && nbytes < TWO32 && (hp.Some? ==> hp.v >= brk)
      requires hp.Some? ==> ToInt(Request(Units(nbytes)) * UNIT) == Request(Units(nbytes)) * UNIT
      modifies this
      ensures Valid() && freep.Some?
      ensures r == None ==> hp == None && live == old(live) && arena == old(arena) && brk == old(brk)
      ensures r.Some? ==> r.v > 0 && r.v - 1 !in old(live) && live == old(live)[r.v - 1 := Units(nbytes)]
      ensures r.Some? ==> nbytes <= UNIT * (Units(nbytes) - 1) < nbytes + UNIT
      ensures r.Some? && arena != old(arena) ==> hp.Some? && arena == old(arena) + Region(hp.v, Request(Units(nbytes)))
      ensures r == None || arena != old(arena) ==> old(freep) == None || Small(old(size), old(fl), Units(nbytes))
    {
      hide Valid, Region, Small;
      var nunits := (nbytes + UNIT - 1) / UNIT + 1;
      if freep == None {
        Start();
      }
      r := Search(nunits, hp);
    }

    // The loop of malloc.
    method Search(nunits: nat, hp: Opt) returns (r: Opt)
      requires Valid() && freep.Some? && nunits > 0 && (hp.Some? ==> hp.v >= brk)
      modifies this
      ensures Valid() && freep.Some?
      ensures r == None ==> hp == None && live == old(live) && arena == old(arena) && brk == old(brk)
      ensures r.Some? ==> r.v > 0 && r.v - 1 !in old(live) && live == old(live)[r.v - 1 := nunits]
      ensures r.Some? && arena != old(arena) ==> hp.Some? && arena == old(arena) + Region(hp.v, Request(nunits))
      ensures r == None || arena != old(arena) ==> Small(old(size), old(fl), nunits)
    {
      hide Valid, Region, Steps, Passed, Holding, Small, Found, Sorted, Between, After;
      ghost var f: nat := Where();
      ghost var j: nat, more := f, false;
      var prevp := freep.v;
      At(f);
      var p := ptr[prevp];
      BetweenStart(size, fl, f, nunits, false);
      while true
        invariant Valid() && freep.Some? && f < |fl| && fl[f] == freep.v && live == old(live)
        invariant j < |fl| && prevp == fl[j] && p == fl[After(fl, j)] && Between(size, fl, f, j, nunits, more)
        invariant !more ==> fl == old(fl) && size == old(size) && arena == old(arena) && brk == old(brk)
        invariant more ==> hp.Some? && arena == old(arena) + Region(hp.v, Request(nunits)) && Small(old(size), old(fl), nunits)
        decreases if more then 0 else 1, Steps(After(fl, j), f, |fl|)
      {
        At(After(fl, j));
        if size[p] >= nunits {
          var b := Carve(prevp, p, nunits, j);
          return Some(b + 1);
        }
        if p == freep.v {
          BetweenEnd(size, fl, f, j, nunits, more);
          var q;
          q, f := Morecore(nunits, hp);
          if q == None {
            return None;
          }
          more, j := true, f;
          At(f);
          BetweenMore(f, nunits);
          prevp, p := q.v, ptr[q.v];
        } else {
          BetweenNext(size, fl, f, j, nunits, more);
          j := After(fl, j);
          At(j);
          prevp, p := p, ptr[p];
        }
      }
    }

    lemma BetweenMore(f: nat, n: nat)
      requires Valid() && freep.Some? && Holding(size, fl, f, n) && f < |fl|
      ensures Between(size, fl, f, f, n, true)
    {
      hide Valid, Holding, Between;
      At(After(fl, f));
      HoldingFound(size, fl, f, n);
      BetweenStart(size, fl, f, n, true);
    }

    lemma At(k: nat)
      requires Valid() && freep.Some? && k < |fl|
      ensures fl[k] in ptr && fl[k] in size && ptr[fl[k]] == fl[After(fl, k)] && Sorted(fl)
    {
      hide Whole, Apart;
      Entry(ptr, size, fl, live, arena, base, brk, k);
    }

    lemma Where() returns (f: nat)
      requires Valid() && freep.Some?
      ensures f < |fl| && fl[f] == freep.v
    {
      f :| f < |fl| && fl[f] == freep.v;
    }

    lemma StillApart(k: nat)
      requires Valid() && freep.Some? && k + 1 < |fl|
      ensures Apart(size, Removed(fl, k + 1), {})
    {
      hide Apart;
      TakeApart(size, fl, base, brk, k);
    }

    lemma ApartAfterSplit(k: nat, n: nat)
      requires Valid() && freep.Some? && 0 < k < |fl| && fl[k] in size && 0 < n < size[fl[k]]
      ensures Apart(SplitSize(size, fl[k], n), fl, {})
    {
      hide Apart;
      SplitApart(size, fl, base, brk, k, n);
    }
  }

  lemma SplitIs(size: map<nat, nat>, p: nat, n: nat)
    requires p in size && n < size[p]
    ensures SplitSize(size, p, n) == size[p := size[p] - n][p + (size[p] - n) := n]
  {
  }
}
