/** Sv39 page tables (section 4.4 of the RISC-V Privileged Architecture
    specification) as kernel/vm.c keeps them in physical pages. */
module PageTables {
  import opened PageAllocator

  // MAXVA is 2^38, one bit less than Sv39 allows.
  const MAXVA: nat := 0x40_0000_0000
  const MAXVPN: nat := 0x400_0000

  // ---------- page table entries ----------

  const PTE_V: nat := 1
  const PTE_R: nat := 2
  const PTE_W: nat := 4
  const PTE_X: nat := 8
  const PTE_U: nat := 16

  // Entries are words: the flags in bits 0-9, the page number above them.
  function Pte(page: nat, flags: nat): (e: nat) {
    page * 1024 + flags
  }

  predicate IsValid(e: nat) {
    e % 2 == 1
  }

  function Flags(e: nat): nat {
    e % 1024
  }

  function PageOf(e: nat): nat {
    e / 1024
  }

  // One of the R, W and X bits is set.
  predicate IsLeaf(e: nat) {
    e / 2 % 8 != 0
  }

  // perm | PTE_V
  function WithValid(perm: nat): (r: nat)
    ensures r % 2 == 1 && r / 2 == perm / 2
  {
    if perm % 2 == 1 then perm else perm + 1
  }

  lemma PteFields(page: nat, flags: nat)
    requires flags < 1024
    ensures PageOf(Pte(page, flags)) == page && Flags(Pte(page, flags)) == flags
    ensures IsValid(Pte(page, flags)) == IsValid(flags) && IsLeaf(Pte(page, flags)) == IsLeaf(flags)
  {
    assert Pte(page, flags) / 2 == page * 512 + flags / 2;
    assert (page * 512 + flags / 2) % 8 == flags / 2 % 8;
  }

  // ---------- the three-level tree ----------

  // Which pages a page table occupies: its root, the level-1 table of each
  // used level-2 index and the level-0 table of each used pair of indices.
  datatype Tree = Tree(root: nat, mid: map<nat, nat>, low: map<(nat, nat), nat>)

  ghost function Tables(t: Tree): (s: set<nat>) {
    {t.root} + t.mid.Values + t.low.Values
  }

  lemma InTables(t: Tree)
    ensures t.root in Tables(t)
    ensures forall i :: i in t.mid ==> t.mid[i] in Tables(t)
    ensures forall x :: x in t.low ==> t.low[x] in Tables(t)
  {
  }

  // A word that points to a table page.
  function Link(page: nat): nat {
    Pte(page, PTE_V)
  }

  // What the root and the level-1 tables hold.
  ghost function RootWord(t: Tree, i: nat): nat {
    if i in t.mid then Link(t.mid[i]) else 0
  }

  ghost function MidWord(t: Tree, i: nat, j: nat): nat {
    if (i, j) in t.low then Link(t.low[(i, j)]) else 0
  }

  ghost predicate RootOk(mem: Mem, t: Tree) {
    t.root in mem && forall i :: 0 <= i < 512 ==> mem[t.root][i] == RootWord(t, i)
  }

  ghost predicate MidOk(mem: Mem, t: Tree) {
    && (forall i :: i in t.mid ==> i < 512 && t.mid[i] in mem)
    && (forall i, j :: i in t.mid && 0 <= j < 512 ==> mem[t.mid[i]][j] == MidWord(t, i, j))
  }

  // Level-0 entries are either 0 or valid leaves.
  ghost predicate LowOk(mem: Mem, t: Tree) {
    && (forall x :: x in t.low ==> x.0 in t.mid && x.1 < 512 && t.low[x] in mem)
    && (forall x, k :: x in t.low && 0 <= k < 512 ==> EntryOk(mem[t.low[x]][k]))
  }

  predicate EntryOk(e: nat) {
    e == 0 || (IsValid(e) && IsLeaf(e))
  }

  // All tables are different pages.
  ghost predicate Separate(t: Tree) {
    && (forall i :: i in t.mid ==> t.mid[i] != t.root)
    && (forall x :: x in t.low ==> t.low[x] != t.root)
    && (forall x, i :: x in t.low && i in t.mid ==> t.low[x] != t.mid[i])
    && (forall i, j :: i in t.mid && j in t.mid && i != j ==> t.mid[i] != t.mid[j])
    && (forall x, y :: x in t.low && y in t.low && x != y ==> t.low[x] != t.low[y])
  }

  ghost predicate Wf(mem: Mem, t: Tree) {
    RootOk(mem, t) && MidOk(mem, t) && LowOk(mem, t) && Separate(t)
  }

  // The indices of a virtual page number: PX(2, va), PX(1, va), PX(0, va).
  function Px2(vpn: nat): nat {
    vpn / 0x40000
  }

  function Px1(vpn: nat): nat {
    vpn / 512 % 512
  }

  function Px0(vpn: nat): nat {
    vpn % 512
  }

  function Pair(vpn: nat): (nat, nat) {
    (Px2(vpn), Px1(vpn))
  }

  lemma SameIndices(v: nat, w: nat)
    requires Pair(v) == Pair(w) && Px0(v) == Px0(w)
    ensures v == w
  {
    assert v / 512 / 512 == v / 0x40000 && w / 512 / 512 == w / 0x40000;
  }

  // The entry for a virtual page number: 0 if there is none.
  ghost function Lookup(mem: Mem, t: Tree, vpn: nat): (e: nat)
    requires Wf(mem, t)
  {
    if Pair(vpn) in t.low then mem[t.low[Pair(vpn)]][Px0(vpn)] else 0
  }

  // Two trees map every page alike.
  ghost predicate SameMap(mem: Mem, t: Tree, mem': Mem, t': Tree) {
    Wf(mem, t) && Wf(mem', t') && forall vpn: nat :: Lookup(mem', t', vpn) == Lookup(mem, t, vpn)
  }

  // Tables with the same contents map the same addresses.
  lemma TreeFrame(mem: Mem, mem': Mem, t: Tree)
    requires Wf(mem, t)
    requires forall p :: p in Tables(t) ==> p in mem' && mem'[p] == mem[p]
    ensures SameMap(mem, t, mem', t)
  {
    InTables(t);
    hide Tables, Pair, Px0, Link, EntryOk;
  }

  // A new level-1 table, zeroed, under level-2 index i.
  ghost function MidAdded(mem: Mem, t: Tree, i: nat, q: nat): Mem
    requires t.root in mem && i < 512
  {
    mem[q := ZeroPage()][t.root := mem[t.root][i := Link(q)]]
  }

  lemma AddMid(mem: Mem, t: Tree, i: nat, q: nat)
    requires Wf(mem, t) && i < 512 && i !in t.mid && q in mem && q !in Tables(t)
    ensures SameMap(mem, t, MidAdded(mem, t, i, q), t.(mid := t.mid[i := q]))
  {
    InTables(t);
    hide Tables, Pair, Px0, Link, EntryOk;
    var mem' := MidAdded(mem, t, i, q);
    var t' := t.(mid := t.mid[i := q]);
    assert RootOk(mem', t') && LowOk(mem', t') && Separate(t');
    assert MidOk(mem', t');
  }

  // A new level-0 table, zeroed, under the indices i and j.
  ghost function LowAdded(mem: Mem, t: Tree, i: nat, j: nat, q: nat): Mem
    requires i in t.mid && t.mid[i] in mem && j < 512
  {
    mem[q := ZeroPage()][t.mid[i] := mem[t.mid[i]][j := Link(q)]]
  }

  lemma AddLowMid(mem: Mem, t: Tree, i: nat, j: nat, q: nat)
    requires Wf(mem, t) && i in t.mid && j < 512 && (i, j) !in t.low && q in mem && q !in Tables(t)
    ensures MidOk(LowAdded(mem, t, i, j, q), t.(low := t.low[(i, j) := q]))
  {
    InTables(t);
    hide Tables, Link, LowOk, RootOk;
  }

  lemma AddLowWf(mem: Mem, t: Tree, i: nat, j: nat, q: nat)
    requires Wf(mem, t) && i in t.mid && j < 512 && (i, j) !in t.low && q in mem && q !in Tables(t)
    ensures Wf(LowAdded(mem, t, i, j, q), t.(low := t.low[(i, j) := q]))
  {
    InTables(t);
    hide Tables, Link, IsValid, IsLeaf;
    var mem' := LowAdded(mem, t, i, j, q);
    var t' := t.(low := t.low[(i, j) := q]);
    assert RootOk(mem', t') && Separate(t');
    AddLowMid(mem, t, i, j, q);
    hide MidOk;
    assert LowOk(mem', t');
  }

  lemma AddLow(mem: Mem, t: Tree, i: nat, j: nat, q: nat)
    requires Wf(mem, t) && i in t.mid && j < 512 && (i, j) !in t.low && q in mem && q !in Tables(t)
    ensures SameMap(mem, t, LowAdded(mem, t, i, j, q), t.(low := t.low[(i, j) := q]))
  {
    AddLowWf(mem, t, i, j, q);
    InTables(t);
    hide Tables, Pair, Link, RootOk, EntryOk;
    var mem' := LowAdded(mem, t, i, j, q);
    var t' := t.(low := t.low[(i, j) := q]);
    forall vpn: nat ensures Lookup(mem', t', vpn) == Lookup(mem, t, vpn) {
      if Pair(vpn) == (i, j) {
        assert mem'[q] == ZeroPage();
      }
    }
  }

  // A level-0 entry written.
  ghost function EntrySet(mem: Mem, t: Tree, vpn: nat, e: nat): Mem
    requires Pair(vpn) in t.low && t.low[Pair(vpn)] in mem
  {
    var p := t.low[Pair(vpn)];
    mem[p := mem[p][Px0(vpn) := e]]
  }

  lemma SetEntry(mem: Mem, t: Tree, vpn: nat, e: nat)
    requires Wf(mem, t) && Pair(vpn) in t.low && t.low[Pair(vpn)] in mem && EntryOk(e)
    ensures Wf(EntrySet(mem, t, vpn, e), t)
    ensures Lookup(EntrySet(mem, t, vpn, e), t, vpn) == e
    ensures forall v :: v != vpn ==> Lookup(EntrySet(mem, t, vpn, e), t, v) == Lookup(mem, t, v)
  {
    hide EntryOk, Link, Pair;
    var mem' := EntrySet(mem, t, vpn, e);
    assert RootOk(mem', t) && MidOk(mem', t) && LowOk(mem', t);
    forall v: nat | v != vpn ensures Lookup(mem', t, v) == Lookup(mem, t, v) {
      if Pair(v) == Pair(vpn) && Px0(v) == Px0(vpn) { SameIndices(v, vpn); }
    }
  }
}
