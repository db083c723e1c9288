/** The lottery scheduler of projects/project_3's kernel/proc.c: one pass over
    a process table that nobody else changes. All sums are C ints. */
module Lottery {
  import opened Random

  const NPROC: nat := 64
  const TWO31: int := 0x8000_0000
  const TWO32: int := 0x1_0000_0000

  type Int32 = x: int | -0x8000_0000 <= x < 0x8000_0000

  // Arithmetic on int wraps around.
  function Wrap(x: int): Int32 {
    (x + TWO31) % TWO32 - TWO31
  }

  datatype ProcState = Unused | Used | Sleeping | Runnable | Running | Zombie

  // sys_settickets stores any int.
  datatype Proc = Proc(state: ProcState, tickets: Int32, ticks: int)

  // Tickets that take part in the draw.
  function Stake(p: Proc): (t: Int32) {
    if p.state == Runnable then p.tickets else 0
  }

  // Tickets of the runnable processes before position k, as a number and as
  // the code counts them.
  ghost function Before(procs: seq<Proc>, k: nat): (t: int)
    requires k <= |procs|
  {
    if k == 0 then 0 else Before(procs, k - 1) + Stake(procs[k - 1])
  }

  ghost function Counted(procs: seq<Proc>, k: nat): (t: Int32)
    requires k <= |procs|
  {
    if k == 0 then 0 else Wrap(Counted(procs, k - 1) + Stake(procs[k - 1]))
  }

  ghost function Total(procs: seq<Proc>): Int32 {
    Counted(procs, |procs|)
  }

  // The scan stops at p: the first runnable process where the running count
  // reaches w.
  ghost predicate Wins(procs: seq<Proc>, w: int, p: nat)
    requires |procs| == NPROC
  {
    && p < NPROC && procs[p].state == Runnable && Counted(procs, p + 1) >= w
    && forall q :: 0 <= q < p && procs[q].state == Runnable ==> Counted(procs, q + 1) < w
  }

  lemma OneWinner(procs: seq<Proc>, w: int, p: nat, q: nat)
    requires |procs| == NPROC && Wins(procs, w, p) && Wins(procs, w, q)
    ensures p == q
  {
  }

  // ---------- the share of a process, in every table ----------

  function Max(a: int, b: int): int {
    if a < b then b else a
  }

  function Min(a: int, b: int): int {
    if a < b then a else b
  }

  // The highest count that a runnable process before k reaches, or 0.
  ghost function High(procs: seq<Proc>, k: nat): (h: int)
    requires k <= |procs|
    ensures h >= 0
  {
    if k == 0 then 0
    else if procs[k - 1].state == Runnable then Max(High(procs, k - 1), Counted(procs, k))
    else High(procs, k - 1)
  }

  lemma {:induction false} BelowHigh(procs: seq<Proc>, w: int, k: nat)
    requires k <= |procs| && w >= 1
    ensures High(procs, k) < w <==> forall q :: 0 <= q < k && procs[q].state == Runnable ==> Counted(procs, q + 1) < w
  {
    if k > 0 { BelowHigh(procs, w, k - 1); }
  }

  // Process p wins the tickets above all earlier counts, up to its own.
  lemma WinsInterval(procs: seq<Proc>, w: int, p: nat)
    requires |procs| == NPROC && p < NPROC && w >= 1
    ensures Wins(procs, w, p) <==> procs[p].state == Runnable && High(procs, p) < w <= Counted(procs, p + 1)
  {
    BelowHigh(procs, w, p);
  }

  // The tickets lo + 1 .. hi.
  ghost function Interval(lo: int, hi: int): (s: set<int>)
    ensures |s| == Max(hi - lo, 0) && forall w :: w in s <==> lo < w <= hi
    decreases hi - lo
  {
    if hi <= lo then {} else Interval(lo, hi - 1) + {hi}
  }

  // The tickets 1 .. total that make p win.
  ghost function WinningTickets(procs: seq<Proc>, p: nat): set<int>
    requires |procs| == NPROC
  {
    set w | w in Interval(0, Total(procs)) && Wins(procs, w, p)
  }

  lemma ShareOfTickets(procs: seq<Proc>, p: nat)
    requires |procs| == NPROC && p < NPROC
    ensures |WinningTickets(procs, p)| ==
      if procs[p].state == Runnable then Max(Min(Counted(procs, p + 1), Total(procs)) - High(procs, p), 0) else 0
  {
    hide Counted, High, Interval, Wins, Total;
    var mine := if procs[p].state == Runnable then Interval(High(procs, p), Min(Counted(procs, p + 1), Total(procs))) else {};
    forall w ensures w in WinningTickets(procs, p) <==> w in mine {
      if w >= 1 { WinsInterval(procs, w, p); }
    }
    assert WinningTickets(procs, p) == mine;
  }

  // ---------- all shares together ----------

  ghost function Shares(procs: seq<Proc>, k: nat): nat
    requires |procs| == NPROC && k <= NPROC
  {
    if k == 0 then 0 else Shares(procs, k - 1) + |WinningTickets(procs, k - 1)|
  }

  // The first k processes win the tickets up to their highest count.
  lemma {:induction false} SharesUpTo(procs: seq<Proc>, k: nat)
    requires |procs| == NPROC && k <= NPROC
    ensures Shares(procs, k) == Min(High(procs, k), Max(Total(procs), 0))
  {
    if k > 0 {
      SharesUpTo(procs, k - 1);
      ShareOfTickets(procs, k - 1);
    }
  }

  // The last count of a runnable process is the total.
  lemma {:induction false} LastCount(procs: seq<Proc>, k: nat)
    requires k <= |procs|
    ensures High(procs, k) >= Counted(procs, k)
  {
    if k > 0 {
      LastCount(procs, k - 1);
      if procs[k - 1].state != Runnable { assert Counted(procs, k) == Counted(procs, k - 1); }
    }
  }

  // Every one of the tickets 1 .. total has a winner, and only one.
  lemma SharesSum(procs: seq<Proc>)
    requires |procs| == NPROC
    ensures Shares(procs, NPROC) == Max(Total(procs), 0)
  {
    SharesUpTo(procs, NPROC);
    LastCount(procs, NPROC);
  }

  // ---------- proportional shares ----------

  ghost predicate NoDebts(procs: seq<Proc>) {
    forall i :: 0 <= i < |procs| ==> Stake(procs[i]) >= 0
  }

  // No count goes beyond the range of int.
  lemma {:induction false} NoWrap(procs: seq<Proc>, k: nat)
    requires NoDebts(procs) && k <= |procs| && Before(procs, k) < TWO31
    ensures 0 <= Before(procs, k) == Counted(procs, k) && High(procs, k) == Counted(procs, k)
  {
    if k > 0 {
      NotNegative(procs, k - 1);
      assert Stake(procs[k - 1]) >= 0;
      NoWrap(procs, k - 1);
    }
  }

  lemma {:induction false} NotNegative(procs: seq<Proc>, k: nat)
    requires NoDebts(procs) && k <= |procs|
    ensures Before(procs, k) >= 0
  {
    if k > 0 { NotNegative(procs, k - 1); }
  }

  lemma {:induction false} BeforeGrows(procs: seq<Proc>, j: nat, k: nat)
    requires NoDebts(procs) && j <= k <= |procs|
    ensures Before(procs, j) <= Before(procs, k)
  {
    if j < k { BeforeGrows(procs, j, k - 1); }
  }

  ghost predicate Fair(procs: seq<Proc>)
    requires |procs| == NPROC
  {
    forall p: nat :: p < NPROC ==> |WinningTickets(procs, p)| == Stake(procs[p])
  }

  lemma FairShare(procs: seq<Proc>, p: nat)
    requires |procs| == NPROC && NoDebts(procs) && Before(procs, NPROC) < TWO31 && p < NPROC
    ensures |WinningTickets(procs, p)| == Stake(procs[p])
  {
    hide Counted, High, WinningTickets;
    BeforeGrows(procs, p, NPROC);
    BeforeGrows(procs, p + 1, NPROC);
    NoWrap(procs, p);
    NoWrap(procs, p + 1);
    NoWrap(procs, NPROC);
    ShareOfTickets(procs, p);
  }

  lemma {:induction false} FairSums(procs: seq<Proc>, k: nat)
    requires |procs| == NPROC && Fair(procs) && k <= NPROC
    ensures Shares(procs, k) == Before(procs, k)
  {
    hide WinningTickets;
    if k > 0 {
      FairSums(procs, k - 1);
      assert |WinningTickets(procs, k - 1)| == Stake(procs[k - 1]);
    }
  }

  // Of the tickets 1 .. total exactly as many make p win as p holds, for every
  // p, if and only if no runnable process holds a negative number and the sum
  // is an int.
  lemma Proportional(procs: seq<Proc>)
    requires |procs| == NPROC
    ensures Fair(procs) <==> NoDebts(procs) && Before(procs, NPROC) < TWO31
  {
    hide Before, Counted, Interval, Wins, WinningTickets, Shares;
    if NoDebts(procs) && Before(procs, NPROC) < TWO31 {
      forall p: nat | p < NPROC ensures |WinningTickets(procs, p)| == Stake(procs[p]) { FairShare(procs, p); }
    }
    if Fair(procs) {
      SharesSum(procs);
      FairSums(procs, NPROC);
      forall p | 0 <= p < NPROC ensures Stake(procs[p]) >= 0 { assert |WinningTickets(procs, p)| == Stake(procs[p]); }
    }
  }

  // A process with a negative number wins nothing, and the others together win
  // as many tickets less than they hold.
  lemma OthersPay(procs: seq<Proc>, p: nat)
    requires |procs| == NPROC && p < NPROC && Stake(procs[p]) < 0 && 0 <= Before(procs, NPROC) == Total(procs)
    requires -TWO31 <= Counted(procs, p) + Stake(procs[p])
    ensures WinningTickets(procs, p) == {} && Shares(procs, NPROC) == Before(procs, NPROC)
  {
    SharesSum(procs);
    ShareOfTickets(procs, p);
    LastCount(procs, p);
    hide Counted, High, WinningTickets, Shares, Before;
    CountedNext(procs, p);
    assert |WinningTickets(procs, p)| == 0;
  }

  lemma CountedNext(procs: seq<Proc>, p: nat)
    requires p < |procs| && -TWO31 <= Counted(procs, p) + Stake(procs[p]) < TWO31
    ensures Counted(procs, p + 1) == Counted(procs, p) + Stake(procs[p])
  {
  }

  // ---------- the draw ----------

  // The remainder of a number that is not negative: for a negative divisor it
  // has the sign of the dividend, and for zero the processor gives the
  // dividend.
  function Remainder(val: int, range: int): (r: int)
    ensures val >= 0 ==> 0 <= r <= val && (range > 0 ==> r < range)
  {
    if range == 0 then val else val % range
  }

  // scaled_random(low, high) from the number val.
  function Scaled(val: int, low: Int32, high: Int32): Int32 {
    Wrap(Remainder(val, Wrap(Wrap(high - low) + 1)) + low)
  }

  lemma WrapSmall(x: int)
    requires -TWO31 <= x < TWO31
    ensures Wrap(x) == x
  {
  }

  lemma WrapTwice(x: int, y: int)
    ensures Wrap(Wrap(x) + y) == Wrap(x + y)
  {
    var k := (x + TWO31) / TWO32;
    assert Wrap(x) == x - TWO32 * k;
    assert x + y + TWO31 == TWO32 * k + (Wrap(x) + y + TWO31);
  }

  // The number returned lies between low and high, whatever the width, and is
  // the random number modulo the width if that is an int. A wider range is
  // taken modulo what is missing to 2^32.
  lemma ScaledInRange(val: int, low: Int32, high: Int32)
    requires 0 <= val < MM && low <= high
    ensures low <= Scaled(val, low, high) <= high
    ensures Scaled(val, low, high) - low ==
      var n := high - low + 1;
      if n < TWO31 then val % n else if n < TWO32 then val % (TWO32 - n) else val
  {
    var n := high - low + 1;
    WrapTwice(high - low, 1);
    WrappedWidth(n);
    hide Wrap;
    if n < TWO31 {
      WrapSmall(val % n + low);
    } else if n < TWO32 {
      NegativeDivisor(val, TWO32 - n);
      WrapSmall(val % (TWO32 - n) + low);
    } else {
      WrapSmall(val + low);
    }
  }

  lemma WrappedWidth(n: nat)
    requires n <= TWO32
    ensures Wrap(n) == if n < TWO31 then n else n - TWO32
  {
  }

  lemma NegativeDivisor(val: nat, n: nat)
    requires n > 0
    ensures val % (0 - n) == val % n
  {
  }

  // The ticket drawn for a total: between 1 and the total if that is
  // positive, and never above 2^30, because the random numbers are below it.
  lemma TicketDrawn(val: int, total: Int32)
    requires 0 <= val < MM
    ensures Scaled(val, 1, total) == Remainder(val, total) + 1 && 1 <= Scaled(val, 1, total) <= MM
    ensures total > 0 ==> Scaled(val, 1, total) == val % total + 1 <= total
  {
    WrapTwice(total - 1, 1);
    WrapSmall(total);
    WrapSmall(Remainder(val, total) + 1);
  }

  // With a total above 2^30 a process all of whose tickets are above 2^30 is
  // never drawn.
  lemma HighTicketsNeverDrawn(procs: seq<Proc>, val: int, p: nat)
    requires |procs| == NPROC && p < NPROC && High(procs, p) >= MM && 0 <= val < MM
    ensures !Wins(procs, Scaled(val, 1, Total(procs)), p)
  {
    hide High, Wins, Scaled, Total;
    TicketDrawn(val, Total(procs));
    WinsInterval(procs, Scaled(val, 1, Total(procs)), p);
  }

  // Two processes with 2^30 tickets each and nobody else.
  function TwoRich(): (procs: seq<Proc>)
    ensures |procs| == NPROC
  {
    seq(NPROC, i => if i < 2 then Proc(Runnable, 0x4000_0000, 0) else Proc(Unused, 0, 0))
  }

  lemma {:induction false} RichCounts(k: nat)
    requires 2 <= k <= NPROC
    ensures Before(TwoRich(), k) == TWO31 && Counted(TwoRich(), k) == -TWO31
    ensures Counted(TwoRich(), 1) == 0x4000_0000
  {
    if k == 2 {
      assert Before(TwoRich(), 1) == 0x4000_0000;
    } else {
      RichCounts(k - 1);
    }
  }

  // Their sum is no int: no ticket counts as won by anybody, and in fact the
  // first one wins every draw.
  lemma FirstRichWins(val: int)
    requires 0 <= val < MM
    ensures NoDebts(TwoRich()) && Before(TwoRich(), NPROC) == TWO31 && Total(TwoRich()) == -TWO31 && !Fair(TwoRich())
    ensures Wins(TwoRich(), Scaled(val, 1, Total(TwoRich())), 0)
  {
    RichCounts(NPROC);
    Proportional(TwoRich());
    TicketDrawn(val, Total(TwoRich()));
  }

  class Scheduler {
    var procs: seq<Proc>
    const gen: Generator

    constructor (g: Generator, table: seq<Proc>)
      ensures gen == g && procs == table
    {
      gen, procs := g, table;
    }

    // get_total_tickets
    method TotalTickets() returns (total: Int32)
      requires |procs| == NPROC
      ensures total == Total(procs)
    {
      total := 0;
      var p := 0;
      while p < NPROC
        invariant 0 <= p <= NPROC && total == Counted(procs, p)
      {
        if procs[p].state == Runnable {
          total := Wrap(total + procs[p].tickets);
        }
        p := p + 1;
      }
    }

    // scaled_random
    method ScaledRandom(low: Int32, high: Int32) returns (r: Int32)
      requires gen.Valid()
      modifies gen, gen.ran_x, gen.aa
      ensures gen.Valid() && r == Scaled(gen.Last(), low, high) && 0 <= gen.Last() < MM
      ensures low <= high ==> low <= r <= high
      ensures 0 <= high - low < TWO31 - 1 ==> r == low + gen.Last() % (high - low + 1)
    {
      var range := Wrap(Wrap(high - low) + 1);
      var val := gen.NextRand();
      r := Wrap(Remainder(val, range) + low);
      if low <= high { ScaledInRange(val, low, high); }
    }

    // The scan for the process that holds the winning ticket; NPROC if none does.
    method FindWinner(winning: int) returns (p: nat)
      requires |procs| == NPROC
      ensures p <= NPROC
      ensures p < NPROC ==> Wins(procs, winning, p)
      ensures p == NPROC ==> forall q :: 0 <= q < NPROC ==> !Wins(procs, winning, q)
      ensures 1 <= winning <= Total(procs) ==> p < NPROC
    {
      var counted: Int32 := 0;
      p := 0;
      while p < NPROC
        invariant 0 <= p <= NPROC && counted == Counted(procs, p)
        invariant forall q :: 0 <= q < p && procs[q].state == Runnable ==> Counted(procs, q + 1) < winning
      {
        if procs[p].state != Runnable {
          p := p + 1;
          continue;
        }
        counted := Wrap(counted + procs[p].tickets);
        if counted >= winning {
          return;
        }
        p := p + 1;
      }
      if winning >= 1 {
        BelowHigh(procs, winning, NPROC);
        LastCount(procs, NPROC);
      }
    }

    // One pass of the scheduler loop, up to the switch to the winner; p is
    // NPROC if nobody wins, as with no runnable process.
    method Pass() returns (p: nat)
      requires |procs| == NPROC && gen.Valid()
      modifies this`procs, gen, gen.ran_x, gen.aa
      ensures gen.Valid() && p <= NPROC && |procs| == NPROC && 0 <= gen.Last() < MM
      ensures Total(old(procs)) >= 1 ==> p < NPROC
      ensures p < NPROC ==> Wins(old(procs), Scaled(gen.Last(), 1, Total(old(procs))), p)
      ensures p < NPROC ==> procs == old(procs)[p := old(procs)[p].(state := Running, ticks := old(procs)[p].ticks + 1)]
      ensures p == NPROC ==> procs == old(procs)
      ensures p == NPROC ==> forall q :: 0 <= q < NPROC ==> !Wins(procs, Scaled(gen.Last(), 1, Total(procs)), q)
    {
      hide Counted, Wins, Scaled, Total;
      var total := TotalTickets();
      var winning := ScaledRandom(1, total);
      TicketDrawn(gen.Last(), total);
      p := FindWinner(winning);
      if p < NPROC {
        procs := procs[p := procs[p].(state := Running, ticks := procs[p].ticks + 1)];
      }
    }
  }
}
