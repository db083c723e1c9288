/** Blocks of the file system of kernel/fs.c as bytes: the free bitmap and the
    words of an indirect block. */
module FsBlocks {
  const BSIZE: nat := 1024
  const BPB: nat := 8192
  const NDIRECT: nat := 12
  const NINDIRECT: nat := 256
  const MAXFILE: nat := 268
  const TWO32: nat := 0x1_0000_0000

  type Byte = x: int | 0 <= x < 256

  type Data = d: seq<Byte> | |d| == 1024 witness seq(1024, _ => 0)

  type Disk = map<nat, Data>

  function ZeroData(): Data {
    seq(1024, _ => 0)
  }

  // ---------- words ----------

  // The j-th little-endian 32-bit word of a block.
  function Word(d: Data, j: nat): (w: nat)
    requires j < NINDIRECT
    ensures w < TWO32
  {
    d[4 * j] as int + 0x100 * (d[4 * j + 1] as int) + 0x1_0000 * (d[4 * j + 2] as int) + 0x100_0000 * (d[4 * j + 3] as int)
  }

  function PutWord(d: Data, j: nat, w: nat): (r: Data)
    requires j < NINDIRECT && w < TWO32
  {
    d[4 * j := w % 0x100][4 * j + 1 := w / 0x100 % 0x100][4 * j + 2 := w / 0x1_0000 % 0x100][4 * j + 3 := w / 0x100_0000]
  }

  lemma FourBytes(w: nat)
    requires w < TWO32
    ensures w == w % 0x100 + 0x100 * (w / 0x100 % 0x100) + 0x1_0000 * (w / 0x1_0000 % 0x100) + 0x100_0000 * (w / 0x100_0000)
  {
    var a := w / 0x100;
    var b := a / 0x100;
    assert w / 0x1_0000 == b && w / 0x100_0000 == b / 0x100;
    assert w == a * 0x100 + w % 0x100 && a == b * 0x100 + a % 0x100 && b == b / 0x100 * 0x100 + b % 0x100;
  }

  lemma WordAfterPut(d: Data, j: nat, w: nat, k: nat)
    requires j < NINDIRECT && k < NINDIRECT && w < TWO32
    ensures Word(PutWord(d, j, w), k) == if k == j then w else Word(d, k)
  {
    var r := PutWord(d, j, w);
    if k == j {
      assert r[4 * j] == w % 0x100 && r[4 * j + 1] == w / 0x100 % 0x100;
      assert r[4 * j + 2] == w / 0x1_0000 % 0x100 && r[4 * j + 3] == w / 0x100_0000;
      FourBytes(w);
    } else {
      assert r[4 * k] == d[4 * k] && r[4 * k + 1] == d[4 * k + 1];
      assert r[4 * k + 2] == d[4 * k + 2] && r[4 * k + 3] == d[4 * k + 3];
    }
  }

  lemma WordOfZero(k: nat)
    requires k < NINDIRECT
    ensures Word(ZeroData(), k) == 0
  {
  }
}
