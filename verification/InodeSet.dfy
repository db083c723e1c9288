/** All files of a disk together: the bitmap marks exactly the blocks of the
    file system's own structures and those of the files, and no block belongs
    to two of them. */
module InodeSet {
  import opened FsBlocks
  import opened Inodes
  import opened FileSystem
  import opened FileContents
  import opened Truncate

  datatype Node = Node(addrs: seq<nat>, size: nat)

  // Block b is one of the file's.
  ghost predicate Refers(disk: Disk, node: Node, b: nat) {
    |node.addrs| == NDIRECT + 1 && b != 0 && !Unreferenced(disk, node.addrs, b)
  }

  ghost predicate Elsewhere(disk: Disk, nodes: map<nat, Node>, i: nat, b: nat) {
    exists j :: j in nodes && j != i && Refers(disk, nodes[j], b)
  }

  ghost predicate InFile(disk: Disk, nodes: map<nat, Node>, b: nat) {
    exists j :: j in nodes && Refers(disk, nodes[j], b)
  }

  ghost predicate NodeOk(disk: Disk, sb: Super, meta: set<nat>, node: Node) {
    Refs(disk, sb, node.addrs, meta) && Backed(disk, node.addrs, node.size)
  }

  // meta are the boot block, the superblock, the log, the inodes and the
  // bitmap. Every marked block is one of them or in one file.
  ghost predicate Files(disk: Disk, sb: Super, meta: set<nat>, nodes: map<nat, Node>) {
    && Image(disk, sb, meta)
    && (forall i :: i in nodes ==> NodeOk(disk, sb, meta, nodes[i]))
    && (forall i, j, b :: i in nodes && j in nodes && i != j && Refers(disk, nodes[i], b) ==> !Refers(disk, nodes[j], b))
    && (forall b: nat :: b < sb.size && Used(disk, sb, b) ==> b in meta || InFile(disk, nodes, b))
  }

  // What file i must not touch.
  ghost function OthersOf(disk: Disk, sb: Super, meta: set<nat>, nodes: map<nat, Node>, i: nat): set<nat> {
    set b | 0 <= b < sb.size && (b in meta || Elsewhere(disk, nodes, i, b))
  }

  lemma Referred(disk: Disk, sb: Super, meta: set<nat>, node: Node, b: nat)
    requires NodeOk(disk, sb, meta, node) && Refers(disk, node, b)
    ensures OwnedBlock(disk, sb, meta, b)
  {
    hide Slot, Used, Backed;
    var k :| 0 <= k <= MAXFILE && Slot(disk, node.addrs, k) == b;
  }

  lemma OthersUsed(disk: Disk, sb: Super, meta: set<nat>, nodes: map<nat, Node>, i: nat)
    requires Files(disk, sb, meta, nodes)
    ensures Image(disk, sb, OthersOf(disk, sb, meta, nodes, i))
  {
    hide Refers, NodeOk, Used, BBlock;
    var others := OthersOf(disk, sb, meta, nodes, i);
    forall b | b in others ensures b < sb.size && Used(disk, sb, b) {
      if b !in meta {
        var j :| j in nodes && j != i && Refers(disk, nodes[j], b);
        Referred(disk, sb, meta, nodes[j], b);
      }
    }
    forall b | 0 <= b < sb.size ensures BBlock(sb, b) in others { assert BBlock(sb, b) in meta; }
  }

  // Each file by itself meets the invariant that bmap, writei and itrunc need.
  lemma NodeInv(disk: Disk, sb: Super, meta: set<nat>, nodes: map<nat, Node>, i: nat)
    requires Files(disk, sb, meta, nodes) && i in nodes
    ensures FsInv(disk, sb, nodes[i].addrs, OthersOf(disk, sb, meta, nodes, i)) && Backed(disk, nodes[i].addrs, nodes[i].size)
  {
    hide Used, Slot, Backed, Image, InFile;
    OthersUsed(disk, sb, meta, nodes, i);
    var others, addrs := OthersOf(disk, sb, meta, nodes, i), nodes[i].addrs;
    forall k | 0 <= k <= MAXFILE && Slot(disk, addrs, k) != 0 ensures OwnedBlock(disk, sb, others, Slot(disk, addrs, k)) {
      assert OwnedBlock(disk, sb, meta, Slot(disk, addrs, k));
      assert Refers(disk, nodes[i], Slot(disk, addrs, k));
    }
  }

  // ---------- one file changes ----------

  // The file's references and contents are as before.
  ghost predicate SameNode(disk0: Disk, disk: Disk, node: Node) {
    && SameSlots(disk0, node.addrs, disk, node.addrs) && node.size <= MAXBYTES
    && Contents(disk, node.addrs, node.size) == Contents(disk0, node.addrs, node.size)
  }

  // Its blocks have the same data.
  ghost predicate SameData(disk0: Disk, disk: Disk, node: Node) {
    disk.Keys == disk0.Keys && forall b :: Refers(disk0, node, b) ==> b in disk0 && disk[b] == disk0[b]
  }

  lemma SlotRefers(disk: Disk, node: Node, k: nat)
    requires |node.addrs| == NDIRECT + 1 && k <= MAXFILE && Slot(disk, node.addrs, k) != 0
    ensures Refers(disk, node, Slot(disk, node.addrs, k))
  {
    hide Slot;
  }

  lemma NodeStays(disk0: Disk, disk: Disk, node: Node)
    requires |node.addrs| == NDIRECT + 1 && Backed(disk0, node.addrs, node.size) && SameData(disk0, disk, node)
    ensures SameNode(disk0, disk, node) && Backed(disk, node.addrs, node.size)
    ensures forall b :: Refers(disk, node, b) <==> Refers(disk0, node, b)
  {
    var addrs := node.addrs;
    assert Slot(disk0, addrs, MAXFILE) == addrs[NDIRECT];
    if addrs[NDIRECT] != 0 { SlotRefers(disk0, node, MAXFILE); }
    SameIndirect(disk0, disk, addrs);
    hide Slot, Word, Refers;
    SameRefers(disk0, disk, node);
    SlotIsAddr(disk0, addrs);
    SlotIsAddr(disk, addrs);
    forall bn | 0 <= bn < MAXFILE ensures Addr(disk, addrs, bn) == Addr(disk0, addrs, bn) {
      assert Slot(disk, addrs, bn) == Slot(disk0, addrs, bn);
    }
    hide Addr;
    forall i | 0 <= i < node.size ensures ByteAt(disk, addrs, i) == ByteAt(disk0, addrs, i) {
      SlotRefers(disk0, node, i / BSIZE);
    }
  }

  lemma SameRefers(disk0: Disk, disk: Disk, node: Node)
    requires SameSlots(disk0, node.addrs, disk, node.addrs)
    ensures forall b :: Refers(disk, node, b) <==> Refers(disk0, node, b)
  {
    hide Slot;
  }

  lemma OthersData(disk0: Disk, sb: Super, meta: set<nat>, nodes: map<nat, Node>, i: nat, j: nat, disk: Disk,
                   l0: set<nat>, l: set<nat>)
    requires Files(disk0, sb, meta, nodes) && j in nodes && j != i
    requires Confined(disk0, l0, disk, l, sb, OthersOf(disk0, sb, meta, nodes, i))
    ensures SameData(disk0, disk, nodes[j])
  {
    hide Refers, Used, Backed, BBlock;
    forall b | Refers(disk0, nodes[j], b) ensures b in disk0 && disk[b] == disk0[b] {
      Referred(disk0, sb, meta, nodes[j], b);
      assert b in OthersOf(disk0, sb, meta, nodes, i);
    }
  }

  // Every block that is marked now is another's or the file's.
  ghost predicate AllNamed(disk: Disk, sb: Super, others: set<nat>, node: Node) {
    forall b: nat :: b < sb.size && Used(disk, sb, b) ==> b in others || Refers(disk, node, b)
  }

  lemma MetaImage(disk: Disk, sb: Super, meta: set<nat>, others: set<nat>)
    requires Image(disk, sb, others) && meta <= others && 0 in meta && forall b :: 0 <= b < sb.size ==> BBlock(sb, b) in meta
    ensures Image(disk, sb, meta)
  {
    hide Used, BBlock;
  }

  lemma OtherStillOk(disk0: Disk, sb: Super, meta: set<nat>, nodes: map<nat, Node>, i: nat, j: nat, disk: Disk)
    requires Files(disk0, sb, meta, nodes) && j in nodes && j != i && SameData(disk0, disk, nodes[j])
    requires Image(disk, sb, OthersOf(disk0, sb, meta, nodes, i))
    ensures NodeOk(disk, sb, meta, nodes[j]) && SameNode(disk0, disk, nodes[j])
    ensures forall b :: Refers(disk, nodes[j], b) <==> Refers(disk0, nodes[j], b)
  {
    hide Used, Slot, Backed, BBlock, Refers, Contents, InFile, SameNode, SameData;
    var addrs := nodes[j].addrs;
    NodeStays(disk0, disk, nodes[j]);
    SlotsOf(disk0, disk, nodes[j]);
    forall k | 0 <= k <= MAXFILE && Slot(disk, addrs, k) != 0 ensures OwnedBlock(disk, sb, meta, Slot(disk, addrs, k)) {
      var a := Slot(disk0, addrs, k);
      SlotRefers(disk0, nodes[j], k);
      Referred(disk0, sb, meta, nodes[j], a);
      assert a in OthersOf(disk0, sb, meta, nodes, i);
    }
  }

  lemma SlotsOf(disk0: Disk, disk: Disk, node: Node)
    requires SameNode(disk0, disk, node)
    ensures |node.addrs| == NDIRECT + 1 && forall k :: 0 <= k <= MAXFILE ==> Slot(disk, node.addrs, k) == Slot(disk0, node.addrs, k)
  {
    hide Slot, Contents;
  }

  lemma MetaAmong(disk: Disk, sb: Super, meta: set<nat>, nodes: map<nat, Node>, i: nat)
    requires Image(disk, sb, meta)
    ensures meta <= OthersOf(disk, sb, meta, nodes, i) && 0 in meta && forall b :: 0 <= b < sb.size ==> BBlock(sb, b) in meta
  {
    hide Used, BBlock, Elsewhere;
  }

  // File i has become node, without touching what is not its own.
  lemma FilesNext(disk0: Disk, sb: Super, meta: set<nat>, nodes: map<nat, Node>, i: nat, disk: Disk, node: Node,
                  l0: set<nat>, l: set<nat>)
    requires Files(disk0, sb, meta, nodes) && i in nodes
    requires Confined(disk0, l0, disk, l, sb, OthersOf(disk0, sb, meta, nodes, i))
    requires FsInv(disk, sb, node.addrs, OthersOf(disk0, sb, meta, nodes, i)) && Backed(disk, node.addrs, node.size)
    requires AllNamed(disk, sb, OthersOf(disk0, sb, meta, nodes, i), node)
    ensures Files(disk, sb, meta, nodes[i := node])
    ensures forall j :: j in nodes && j != i ==> SameNode(disk0, disk, nodes[j])
  {
    hide Used, Slot, Backed, BBlock, Refers, Refs, Confined, SameNode, NodeOk, OthersOf;
    var others, nodes' := OthersOf(disk0, sb, meta, nodes, i), nodes[i := node];
    MetaAmong(disk0, sb, meta, nodes, i);
    MetaImage(disk, sb, meta, others);
    forall j | j in nodes && j != i
      ensures NodeOk(disk, sb, meta, nodes[j]) && SameNode(disk0, disk, nodes[j])
      ensures forall b :: Refers(disk, nodes[j], b) <==> Refers(disk0, nodes[j], b)
    {
      OthersData(disk0, sb, meta, nodes, i, j, disk, l0, l);
      OtherStillOk(disk0, sb, meta, nodes, i, j, disk);
    }
    OwnNode(disk, sb, meta, others, node);
    forall j, b | j in nodes && j != i && Refers(disk0, nodes[j], b) ensures !Refers(disk, node, b) {
      NotMine(disk0, sb, meta, nodes, i, j, disk, node, b);
    }
    forall b: nat | b < sb.size && Used(disk, sb, b) ensures b in meta || InFile(disk, nodes', b) {
      Named(disk0, sb, meta, nodes, i, disk, node, b);
    }
    assert forall j :: j in nodes && j != i ==> nodes'[j] == nodes[j];
  }

  lemma OwnNode(disk: Disk, sb: Super, meta: set<nat>, others: set<nat>, node: Node)
    requires FsInv(disk, sb, node.addrs, others) && Backed(disk, node.addrs, node.size) && meta <= others
    ensures NodeOk(disk, sb, meta, node)
  {
    hide Used, Slot, Backed, Image;
    assert forall k :: 0 <= k <= MAXFILE && Slot(disk, node.addrs, k) != 0 ==> OwnedBlock(disk, sb, others, Slot(disk, node.addrs, k));
  }

  lemma NotMine(disk0: Disk, sb: Super, meta: set<nat>, nodes: map<nat, Node>, i: nat, j: nat, disk: Disk, node: Node, b: nat)
    requires Files(disk0, sb, meta, nodes) && j in nodes && j != i && Refers(disk0, nodes[j], b)
    requires FsInv(disk, sb, node.addrs, OthersOf(disk0, sb, meta, nodes, i))
    ensures !Refers(disk, node, b)
  {
    hide Used, Slot, Backed, BBlock, Refers, InFile;
    Referred(disk0, sb, meta, nodes[j], b);
    var others := OthersOf(disk0, sb, meta, nodes, i);
    assert b in others;
    hide OthersOf;
    NotOwn(disk, sb, others, node, b);
  }

  lemma NotOwn(disk: Disk, sb: Super, others: set<nat>, node: Node, b: nat)
    requires FsInv(disk, sb, node.addrs, others) && b in others
    ensures !Refers(disk, node, b)
  {
    hide Used, Slot, BBlock;
    forall k | 0 <= k <= MAXFILE ensures b != 0 ==> Slot(disk, node.addrs, k) != b {
      assert Slot(disk, node.addrs, k) != 0 ==> OwnedBlock(disk, sb, others, Slot(disk, node.addrs, k));
    }
  }

  lemma Named(disk0: Disk, sb: Super, meta: set<nat>, nodes: map<nat, Node>, i: nat, disk: Disk, node: Node, b: nat)
    requires i in nodes && b < sb.size && Used(disk, sb, b) && AllNamed(disk, sb, OthersOf(disk0, sb, meta, nodes, i), node)
    requires forall j, c :: j in nodes && j != i ==> (Refers(disk, nodes[j], c) <==> Refers(disk0, nodes[j], c))
    ensures b in meta || InFile(disk, nodes[i := node], b)
  {
    hide Refers, Used;
    var nodes' := nodes[i := node];
    if b !in meta && !Refers(disk, node, b) {
      var j :| j in nodes && j != i && Refers(disk0, nodes[j], b);
      assert Refers(disk, nodes'[j], b);
    } else if b !in meta {
      assert Refers(disk, nodes'[i], b);
    }
  }

  // ---------- growing and freeing ----------

  // What bmap and writei mark belongs to the file afterwards.
  lemma GrownNamed(disk0: Disk, sb: Super, meta: set<nat>, nodes: map<nat, Node>, i: nat, disk: Disk, node: Node, lo: nat, hi: nat)
    requires Files(disk0, sb, meta, nodes) && i in nodes && Extends(disk0, nodes[i].addrs, disk, node.addrs, sb, lo, hi)
    ensures AllNamed(disk, sb, OthersOf(disk0, sb, meta, nodes, i), node)
  {
    hide Used, Slot, Image, NodeOk, Unreferenced;
    forall b: nat | b < sb.size && Used(disk, sb, b) ensures b in OthersOf(disk0, sb, meta, nodes, i) || Refers(disk, node, b) {
      if b != 0 && Used(disk0, sb, b) && b !in OthersOf(disk0, sb, meta, nodes, i) {
        assert InFile(disk0, nodes, b);
        StillReferenced(disk0, nodes[i].addrs, disk, node.addrs, sb, lo, hi, b);
      }
      if b == 0 { MetaAmong(disk0, sb, meta, nodes, i); }
    }
  }

  // itrunc leaves nothing marked that is not another's.
  lemma FreedNamed(disk0: Disk, sb: Super, meta: set<nat>, nodes: map<nat, Node>, i: nat, disk: Disk, node: Node)
    requires Files(disk0, sb, meta, nodes) && i in nodes
    requires forall b: nat :: b < sb.size ==>
      (Used(disk, sb, b) <==> Used(disk0, sb, b) && !Among(disk0, nodes[i].addrs, MAXFILE + 1, b))
    ensures AllNamed(disk, sb, OthersOf(disk0, sb, meta, nodes, i), node)
  {
    hide Used, Slot, Image, NodeOk, BBlock;
    forall b: nat | b < sb.size && Used(disk, sb, b) ensures b in OthersOf(disk0, sb, meta, nodes, i) {
      assert !Among(disk0, nodes[i].addrs, MAXFILE + 1, b);
      assert !Refers(disk0, nodes[i], b);
      hide Refers, Among;
    }
  }

  // With no blocks in any file, exactly those of the file system are marked.
  lemma AllEmpty(disk: Disk, sb: Super, meta: set<nat>, nodes: map<nat, Node>, b: nat)
    requires Files(disk, sb, meta, nodes) && b < sb.size && forall i :: i in nodes ==> nodes[i].addrs == NoAddrs()
    ensures Used(disk, sb, b) <==> b in meta
  {
    hide Refers, NodeOk, Used, BBlock;
    forall i | i in nodes ensures !Refers(disk, nodes[i], b) { NoneReferred(disk, nodes[i], b); }
  }

  lemma NoneReferred(disk: Disk, node: Node, b: nat)
    requires node.addrs == NoAddrs()
    ensures !Refers(disk, node, b)
  {
    forall k | 0 <= k <= MAXFILE ensures Slot(disk, node.addrs, k) == 0 { hide Word; }
    hide Slot;
  }

  class FileSet {
    const sb: Super
    ghost const meta: set<nat>
    var disk: Disk
    var nodes: map<nat, Node>

    ghost predicate Valid()
      reads this
    {
      Files(disk, sb, meta, nodes)
    }

    // A disk on which no file has a block yet.
    constructor (s: Super, d: Disk, ghost m: set<nat>)
      requires Image(d, s, m) && forall b: nat :: b < s.size && Used(d, s, b) ==> b in m
      ensures Valid() && sb == s && meta == m && disk == d && nodes == map[]
    {
      hide Image, Used;
      sb, disk, nodes, meta := s, d, map[], m;
    }

    ghost function BytesOf(i: nat): seq<Byte>
      requires Valid() && i in nodes
      reads this
    {
      NodeInv(disk, sb, meta, nodes, i);
      BackedSize(disk, nodes[i].addrs, nodes[i].size);
      Contents(disk, nodes[i].addrs, nodes[i].size)
    }

    // The inode as bmap, writei and itrunc get it, locked.
    method Lock(i: nat) returns (fs: Fs)
      requires Valid() && i in nodes
      ensures fresh(fs) && fs.Valid() && Backed(fs.disk, fs.addrs, fs.size) && fs.logged == {}
      ensures fs.sb == sb && fs.disk == disk && fs.addrs == nodes[i].addrs && fs.size == nodes[i].size
      ensures fs.others == OthersOf(disk, sb, meta, nodes, i)
    {
      hide Files, FsInv, OthersOf, Backed;
      NodeInv(disk, sb, meta, nodes, i);
      fs := new Fs(sb, disk, nodes[i].addrs, nodes[i].size, OthersOf(disk, sb, meta, nodes, i));
    }

    // A new inode, without blocks.
    method Add(i: nat)
      requires Valid() && i !in nodes
      modifies `nodes
      ensures Valid() && nodes == old(nodes)[i := Node(NoAddrs(), 0)]
    {
      hide Files;
      FilesAdded(disk, sb, meta, nodes, i);
      nodes := nodes[i := Node(NoAddrs(), 0)];
    }

    // bmap of one file's inode.
    method Map(i: nat, bn: nat) returns (a: nat)
      requires Valid() && i in nodes && bn < MAXFILE
      modifies `disk, `nodes
      ensures Valid() && i in nodes && nodes == old(nodes)[i := nodes[i]] && nodes[i].size == old(nodes)[i].size
      ensures Grew(old(disk), old(nodes)[i].addrs, disk, nodes[i].addrs, bn, a)
      ensures a == 0 ==> forall b :: 0 <= b < sb.size ==> Used(disk, sb, b)
      ensures forall j :: j in old(nodes) && j != i ==> SameNode(old(disk), disk, nodes[j])
    {
      hide Files, FsInv, Backed, Used, Grew, Extends, Logs, Confined, OthersOf, SameNode, AllNamed;
      ghost var disk0, nodes0 := disk, nodes;
      var fs := Lock(i);
      ghost var bits;
      a, bits := fs.Bmap(bn);
      var node := Node(fs.addrs, fs.size);
      GrewBacked(disk0, nodes0[i].addrs, fs.disk, fs.addrs, bn, a, fs.size);
      GrownNamed(disk0, sb, meta, nodes0, i, fs.disk, node, bn, bn + 1);
      FilesNext(disk0, sb, meta, nodes0, i, fs.disk, node, {}, fs.logged);
      disk, nodes := fs.disk, nodes[i := node];
    }

    // writei of one file.
    method Write(i: nat, off: nat, src: seq<Byte>, iblock: nat) returns (r: int)
      requires Valid() && i in nodes && off < TWO32 && |src| < TWO32
      modifies `disk, `nodes
      ensures Valid() && i in nodes && nodes == old(nodes)[i := nodes[i]]
      ensures r == -1 <==> off > old(nodes)[i].size || off + |src| > MAXBYTES
      ensures r == -1 ==> disk == old(disk) && nodes == old(nodes)
      ensures r != -1 ==> 0 <= r <= |src| && off <= |old(BytesOf(i))| && BytesOf(i) == Splice(old(BytesOf(i)), off, src[..r])
      ensures 0 <= r < |src| ==> forall b :: 0 <= b < sb.size ==> Used(disk, sb, b)
      ensures forall j :: j in old(nodes) && j != i ==> SameNode(old(disk), disk, nodes[j])
    {
      hide Files, FsInv, Backed, Used, Extends, Logs, Confined, OthersOf, SameNode, AllNamed, Contents, Splice, Slot, LastPosition;
      ghost var disk0, nodes0 := disk, nodes;
      var fs := Lock(i);
      ghost var s;
      r, s := Writei(fs, off, src, iblock);
      var node := Node(fs.addrs, fs.size);
      GrownNamed(disk0, sb, meta, nodes0, i, fs.disk, node, off / BSIZE, LastPosition(off, |src|));
      FilesNext(disk0, sb, meta, nodes0, i, fs.disk, node, {} + {iblock}, fs.logged);
      disk, nodes := fs.disk, nodes[i := node];
    }

    // itrunc of one file.
    method Clear(i: nat, iblock: nat)
      requires Valid() && i in nodes
      modifies `disk, `nodes
      ensures Valid() && nodes == old(nodes)[i := Node(NoAddrs(), 0)] && BytesOf(i) == []
      ensures forall b: nat :: b < sb.size ==> (Used(disk, sb, b) <==> Used(old(disk), sb, b) && !Refers(old(disk), old(nodes)[i], b))
      ensures forall j :: j in old(nodes) && j != i ==> SameNode(old(disk), disk, nodes[j])
    {
      hide Files, FsInv, Backed, Used, Logs, Confined, OthersOf, SameNode, AllNamed, Contents, Among, Refers, BitmapBlock;
      ghost var disk0, nodes0 := disk, nodes;
      var fs := Lock(i);
      Itrunc(fs, iblock);
      var node := Node(fs.addrs, fs.size);
      FreedNamed(disk0, sb, meta, nodes0, i, fs.disk, node);
      TruncConfined(disk0, fs.disk, sb, OthersOf(disk0, sb, meta, nodes0, i));
      NothingBacked(fs.disk);
      FilesNext(disk0, sb, meta, nodes0, i, fs.disk, node, {}, {});
      forall b: nat | b < sb.size ensures Among(disk0, nodes0[i].addrs, MAXFILE + 1, b) <==> Refers(disk0, nodes0[i], b) {
        AmongRefers(disk0, nodes0[i], b);
      }
      disk, nodes := fs.disk, nodes[i := node];
    }
  }

  lemma FilesAdded(disk: Disk, sb: Super, meta: set<nat>, nodes: map<nat, Node>, i: nat)
    requires Files(disk, sb, meta, nodes) && i !in nodes
    ensures Files(disk, sb, meta, nodes[i := Node(NoAddrs(), 0)])
  {
    hide Refers, NodeOk, Used, BBlock, Image;
    var node := Node(NoAddrs(), 0);
    var nodes' := nodes[i := node];
    EmptyNode(disk, sb, meta);
    forall b ensures !Refers(disk, node, b) { NoneReferred(disk, node, b); }
    forall b: nat | b < sb.size && Used(disk, sb, b) ensures b in meta || InFile(disk, nodes', b) {
      if b !in meta {
        var j :| j in nodes && Refers(disk, nodes[j], b);
        assert nodes'[j] == nodes[j];
      }
    }
  }

  lemma EmptyNode(disk: Disk, sb: Super, meta: set<nat>)
    ensures NodeOk(disk, sb, meta, Node(NoAddrs(), 0))
  {
    forall k | 0 <= k <= MAXFILE ensures Slot(disk, NoAddrs(), k) == 0 { hide Word; }
    hide Slot;
  }

  lemma NothingBacked(disk: Disk)
    ensures Backed(disk, NoAddrs(), 0)
  {
  }

  lemma AmongRefers(disk: Disk, node: Node, b: nat)
    ensures Among(disk, node.addrs, MAXFILE + 1, b) <==> Refers(disk, node, b)
  {
    hide Slot;
  }

  lemma TruncConfined(disk0: Disk, disk: Disk, sb: Super, others: set<nat>)
    requires disk.Keys == disk0.Keys && forall b :: b in disk && !BitmapBlock(sb, b) ==> disk[b] == disk0[b]
    ensures Confined(disk0, {}, disk, {}, sb, others)
  {
    hide BitmapBlock;
  }

  // A position more leaves the bytes below the size backed.
  lemma GrewBacked(disk0: Disk, addrs0: seq<nat>, disk: Disk, addrs: seq<nat>, bn: nat, a: nat, size: nat)
    requires Grew(disk0, addrs0, disk, addrs, bn, a) && Backed(disk0, addrs0, size)
    ensures Backed(disk, addrs, size)
  {
    hide Addr, DataKept;
  }
}
