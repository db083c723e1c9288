/** The pipe of kernel/pipe.c: a ring of 512 bytes with two counters of 32 bits.
    A method is one section under the pipe's lock, up to where the caller
    returns or sleeps, and takes its loop as far as that. */
module Pipe {
  const PIPESIZE: nat := 512
  const TWO32: nat := 0x1_0000_0000

  datatype Outcome = Finished | Sleeps | Fails

  // ---------- the ring ----------

  // data holds the bytes of written from position nr on.
  ghost predicate Ring(data: seq<int>, written: seq<int>, nr: nat) {
    && |data| == PIPESIZE && nr <= |written| <= nr + PIPESIZE
    && forall k :: nr <= k < |written| ==> data[k % PIPESIZE] == written[k]
  }

  // The counters wrap around, but their difference tells empty and full.
  lemma Counters(nr: nat, nw: nat)
    requires nr <= nw <= nr + PIPESIZE
    ensures nr % TWO32 == nw % TWO32 <==> nr == nw
    ensures nw % TWO32 == (nr % TWO32 + PIPESIZE) % TWO32 <==> nw == nr + PIPESIZE
    ensures nw % TWO32 % PIPESIZE == nw % PIPESIZE && nr % TWO32 % PIPESIZE == nr % PIPESIZE
    ensures (nw % TWO32 + 1) % TWO32 == (nw + 1) % TWO32 && (nr % TWO32 + 1) % TWO32 == (nr + 1) % TWO32
  {
    WrapsEven(nr);
    WrapsEven(nw);
    AddWrapped(nr, nw - nr);
    AddWrapped(nr, 1);
    AddWrapped(nw, 1);
    WrapSmall(nr % TWO32 + PIPESIZE);
    WrapSmall(nr % TWO32 + 1);
    WrapSmall(nw % TWO32 + 1);
  }

  lemma AddWrapped(x: nat, d: nat)
    requires d <= PIPESIZE
    ensures (x + d) % TWO32 == if x % TWO32 + d < TWO32 then x % TWO32 + d else x % TWO32 + d - TWO32
  {
    var a := x / TWO32;
    assert x + d == TWO32 * a + (x % TWO32 + d);
    if x % TWO32 + d >= TWO32 { assert x + d == TWO32 * (a + 1) + (x % TWO32 + d - TWO32); }
  }

  lemma WrapSmall(y: nat)
    requires y < 2 * TWO32
    ensures y % TWO32 == if y < TWO32 then y else y - TWO32
  {
  }

  lemma WrapsEven(x: nat)
    ensures x % TWO32 % PIPESIZE == x % PIPESIZE
  {
    assert TWO32 == 8388608 * PIPESIZE;
    assert x == TWO32 * (x / TWO32) + x % TWO32;
    assert x == PIPESIZE * (8388608 * (x / TWO32)) + x % TWO32;
  }

  // Positions less than PIPESIZE apart have different places.
  lemma Places(k: nat, m: nat)
    requires k < m < k + PIPESIZE
    ensures k % PIPESIZE != m % PIPESIZE
  {
  }

  lemma RingPut(data: seq<int>, written: seq<int>, nr: nat, ch: int)
    requires Ring(data, written, nr) && |written| < nr + PIPESIZE
    ensures Ring(data[|written| % PIPESIZE := ch], written + [ch], nr)
  {
    var m := |written|;
    forall k | nr <= k < m ensures k % PIPESIZE != m % PIPESIZE { Places(k, m); }
  }

  // ---------- what a write comes to ----------

  function Least(a: int, b: int): int {
    if a < b then a else b
  }

  // The byte at which pipewrite stops: one it does not have, has no room for,
  // or at which it is killed.
  function StopsAt(readopen: bool, room: int, len: nat, start: nat, dead: nat): int {
    if !readopen then start else Least(Least(if dead < start then start else dead, start + room), len)
  }

  function OutcomeAt(readopen: bool, room: int, n: int, start: nat, dead: nat, i: int): Outcome {
    if i >= n then Finished
    else if !readopen || i >= dead then Fails
    else if i == start + room then Sleeps
    else Finished
  }

  // The writer is killed after it has put in some bytes.
  predicate Strands(readopen: bool, room: int, len: nat, n: int, start: nat, dead: nat) {
    readopen && start < dead <= len && dead < n && dead - start <= room
  }

  lemma StrandsIs(readopen: bool, room: int, len: nat, n: int, start: nat, dead: nat)
    requires start <= len && room >= 0
    ensures var i := StopsAt(readopen, room, len, start, dead);
      Strands(readopen, room, len, n, start, dead) <==> i > start && OutcomeAt(readopen, room, n, start, dead, i) == Fails
  {
  }

  class Pipe {
    const data: array<int>
    var nread: nat
    var nwrite: nat
    var readopen: bool
    var writeopen: bool
    // All bytes ever put into the pipe, and how many have been taken out.
    ghost var written: seq<int>
    ghost var taken: nat
    // Processes asleep on &nwrite and on &nread.
    ghost var writers: set<nat>
    ghost var readers: set<nat>

    ghost predicate RingOk()
      reads this, data
    {
      && data.Length == PIPESIZE && Ring(data[..], written, taken)
      && nread == taken % TWO32 && nwrite == |written| % TWO32
    }

    // What holds whenever the lock is free: a writer asleep means that the
    // pipe is full and somebody may still read.
    ghost predicate Valid()
      reads this, data
    {
      RingOk() && (writers != {} ==> Full() && readopen)
    }

    ghost predicate Full()
      reads this
    {
      |written| == taken + PIPESIZE
    }

    // How many bytes can be put in.
    ghost function Room(): int
      reads this
    {
      taken + PIPESIZE - |written|
    }

    // What one would like of readers, too.
    ghost predicate ReadersWait()
      reads this
    {
      readers != {} ==> |written| == taken && writeopen
    }

    constructor ()
      ensures Valid() && ReadersWait() && fresh(data) && written == [] && taken == 0 && readopen && writeopen
      ensures writers == {} && readers == {}
    {
      data := new int[PIPESIZE];
      nread, nwrite, readopen, writeopen := 0, 0, true, true;
      written, taken, writers, readers := [], 0, {}, {};
    }

    // pipewrite by process p of n bytes, from byte start on. copyin succeeds
    // for the bytes of src, and from byte dead on the process has been killed.
    // That readers sleep only on an empty pipe is lost exactly if the process
    // is killed in the middle of bytes for which there is room.
    method Write(p: nat, src: seq<int>, n: int, start: nat, dead: nat) returns (i: nat, o: Outcome)
      requires Valid() && start <= |src| <= if n < 0 then 0 else n
      modifies this, data
      ensures Valid() && start <= i <= |src|
      ensures i == StopsAt(readopen, old(Room()), |src|, start, dead) && o == OutcomeAt(readopen, old(Room()), n, start, dead, i)
      ensures taken == old(taken) && written == old(written) + src[start..i]
      ensures readopen == old(readopen) && writeopen == old(writeopen)
      ensures writers == if o == Sleeps then old(writers) + {p} else old(writers)
      ensures readers == if o == Fails then old(readers) else {}
      ensures old(ReadersWait()) ==> (ReadersWait() <==> !(old(readers) != {} && Strands(readopen, old(Room()), |src|, n, start, dead)))
    {
      hide Ring, Strands;
      RingBounds(data[..], written, taken);
      StrandsIs(readopen, Room(), |src|, n, start, dead);
      i := start;
      while i < n
        invariant Valid() && start <= i <= |src|
        invariant taken == old(taken) && written == old(written) + src[start..i]
        invariant readopen == old(readopen) && writeopen == old(writeopen) && writers == old(writers) && readers == old(readers)
        invariant i <= StopsAt(readopen, old(Room()), |src|, start, dead)
        decreases n - i
      {
        if !readopen || i >= dead {
          return i, Fails;
        }
        RingBounds(data[..], written, taken);
        Counters(taken, |written|);
        if nwrite == (nread + PIPESIZE) % TWO32 {
          readers := {};
          writers := writers + {p};
          return i, Sleeps;
        }
        if i == |src| {
          break;
        }
        PutByte(src[i]);
        i := i + 1;
      }
      readers := {};
      o := Finished;
    }

    method PutByte(ch: int)
      requires Valid() && !Full()
      modifies this`nwrite, this`written, data
      ensures Valid() && written == old(written) + [ch]
    {
      RingBounds(data[..], written, taken);
      Counters(taken, |written|);
      RingPut(data[..], written, taken, ch);
      hide Ring;
      data[nwrite % PIPESIZE] := ch;
      nwrite := (nwrite + 1) % TWO32;
      written := written + [ch];
    }

    method TakeByte() returns (ch: int)
      requires RingOk() && taken < |written|
      modifies this`nread, this`taken
      ensures RingOk() && taken == old(taken) + 1 && ch == written[old(taken)]
    {
      hide Ring;
      RingBounds(data[..], written, taken);
      Counters(taken, |written|);
      ch := data[nread % PIPESIZE];
      nread := (nread + 1) % TWO32;
      taken := taken + 1;
    }

    // pipeclose of one end.
    method Close(writable: bool) returns (free: bool)
      requires Valid()
      modifies this`readopen, this`writeopen, this`readers, this`writers
      ensures Valid() && readopen == (old(readopen) && writable) && writeopen == (old(writeopen) && !writable)
      ensures free <==> !readopen && !writeopen
      ensures if writable then readers == {} && writers == old(writers) else writers == {} && readers == old(readers)
      ensures old(ReadersWait()) ==> ReadersWait()
    {
      if writable {
        writeopen, readers := false, {};
      } else {
        readopen, writers := false, {};
      }
      free := !readopen && !writeopen;
    }

    // kill, or any other reason for which p wakes up.
    method Awake(p: nat)
      requires Valid()
      modifies this`readers, this`writers
      ensures Valid() && readers == old(readers) - {p} && writers == old(writers) - {p}
      ensures old(ReadersWait()) ==> ReadersWait()
    {
      readers, writers := readers - {p}, writers - {p};
    }

    // piperead by process p of n bytes. copyout succeeds for the first good
    // bytes; lost tells that one more byte was taken and not delivered.
    method Read(p: nat, n: int, good: nat, dead: bool) returns (out: seq<int>, o: Outcome, ghost lost: bool)
      requires Valid()
      modifies this
      ensures Valid() && written == old(written) && readopen == old(readopen) && writeopen == old(writeopen)
      ensures o != Finished <==> |written| == old(taken) && writeopen
      ensures o != Finished ==> out == [] && taken == old(taken) && writers == old(writers)
      ensures o != Finished ==> (o == Fails <==> dead) && readers == if dead then old(readers) else old(readers) + {p}
      ensures o == Finished ==> writers == {} && readers == old(readers)
      ensures taken == old(taken) + |out| + (if lost then 1 else 0)
      ensures out == written[old(taken)..old(taken) + |out|]
      ensures lost <==> o == Finished && good < n && good < |written| - old(taken)
      ensures o == Finished ==> |out| == Least(Least(good, |written| - old(taken)), if n < 0 then 0 else n)
      ensures old(ReadersWait()) ==> ReadersWait()
    {
      hide Ring;
      out, lost := [], false;
      RingBounds(data[..], written, taken);
      Counters(taken, |written|);
      if nread == nwrite && writeopen {
        if dead {
          return out, Fails, lost;
        }
        readers := readers + {p};
        return out, Sleeps, lost;
      }
      var i := 0;
      while i < n
        invariant RingOk() && i == |out| && 0 <= i && (i <= n || i == 0) && !lost
        invariant written == old(written) && old(taken) + i == taken <= |written|
        invariant out == written[old(taken)..old(taken) + i] && |out| <= good
        invariant readopen == old(readopen) && writeopen == old(writeopen) && readers == old(readers)
        decreases n - i
      {
        RingBounds(data[..], written, taken);
        Counters(taken, |written|);
        if nread == nwrite {
          break;
        }
        var ch := TakeByte();
        if i >= good {
          lost := true;
          break;
        }
        out := out + [ch];
        i := i + 1;
      }
      writers := {};
      return out, Finished, lost;
    }
  }

  lemma RingBounds(data: seq<int>, written: seq<int>, nr: nat)
    requires Ring(data, written, nr)
    ensures nr <= |written| <= nr + PIPESIZE && |data| == PIPESIZE
    ensures nr < |written| ==> data[nr % PIPESIZE] == written[nr] && Ring(data, written, nr + 1)
  {
  }

  // A reader sleeps on the empty pipe, and a writer of two bytes is killed
  // after the first: the reader still sleeps, and the pipe has a byte.
  method StrandedReader() returns (pipe: Pipe)
    ensures pipe.Valid() && pipe.readers == {1} && pipe.written == [65] && pipe.taken == 0 && !pipe.ReadersWait()
  {
    pipe := new Pipe();
    var _, _, _ := pipe.Read(1, 1, 1, false);
    var _, _ := pipe.Write(2, [65, 66], 2, 0, 1);
  }

  // A byte is in the pipe and copyout fails at once: the byte is gone.
  method LostByte() returns (pipe: Pipe, out: seq<int>)
    ensures pipe.Valid() && pipe.written == [65] && pipe.taken == 1 && out == []
  {
    pipe := new Pipe();
    var _, _ := pipe.Write(2, [65], 1, 0, 1);
    ghost var lost;
    var o;
    out, o, lost := pipe.Read(1, 1, 0, false);
  }
}
