/** How often each ticket and each process is drawn by the lottery scheduler of
    projects/project_3, counted over all the numbers that next_rand can give. */
module LotteryDraws {
  import opened Lottery
  import opened Random

  // ---------- remainders ----------

  // The numbers below n that leave a remainder below x modulo t.
  ghost function Residues(n: nat, t: nat, x: nat): set<int>
    requires t > 0
  {
    if n == 0 then {}
    else if (n - 1) % t < x then Residues(n - 1, t, x) + {n - 1}
    else Residues(n - 1, t, x)
  }

  lemma {:induction false} InResidues(n: nat, t: nat, x: nat, v: int)
    requires t > 0
    ensures v in Residues(n, t, x) <==> 0 <= v < n && v % t < x
  {
    if n > 0 { InResidues(n - 1, t, x, v); }
  }

  // How many there are: x for every full turn, and those of the last turn.
  ghost function Count(n: nat, t: nat, x: int): int
    requires t > 0
  {
    n / t * x + Min(n % t, x)
  }

  lemma NextQuotient(n: nat, t: nat)
    requires t > 0
    ensures if n % t == t - 1 then (n + 1) / t == n / t + 1 && (n + 1) % t == 0
      else (n + 1) / t == n / t && (n + 1) % t == n % t + 1
  {
    var q, r := n / t, n % t;
    assert n == q * t + r;
    if r == t - 1 {
      assert n + 1 == (q + 1) * t;
      Divided(n + 1, t, q + 1, 0);
    } else {
      Divided(n + 1, t, q, r + 1);
    }
  }

  lemma Divided(n: nat, t: nat, q: nat, r: nat)
    requires n == q * t + r && r < t
    ensures n / t == q && n % t == r
  {
    var d := n / t - q;
    assert d * t == r - n % t;
    assert d >= 1 ==> d * t >= t;
    assert d <= -1 ==> d * t <= 0 - t;
  }

  lemma {:induction false} ResidueCount(n: nat, t: nat, x: nat)
    requires t > 0 && x <= t
    ensures |Residues(n, t, x)| == Count(n, t, x)
  {
    hide Count, Residues;
    if n == 0 {
      NoneCounted(t, x);
      NoResidues(t, x);
    } else {
      ResidueCount(n - 1, t, x);
      CountNext(n - 1, t, x);
      ResidueNext(n - 1, t, x);
    }
  }

  lemma NoResidues(t: nat, x: nat)
    requires t > 0
    ensures Residues(0, t, x) == {}
  {
  }

  lemma ResidueNext(n: nat, t: nat, x: nat)
    requires t > 0
    ensures |Residues(n + 1, t, x)| == |Residues(n, t, x)| + if n % t < x then 1 else 0
  {
    InResidues(n, t, x, n);
  }

  lemma NoneCounted(t: nat, x: nat)
    requires t > 0
    ensures Count(0, t, x) == 0
  {
    Divided(0, t, 0, 0);
  }

  lemma CountNext(n: nat, t: nat, x: nat)
    requires t > 0 && x <= t
    ensures Count(n + 1, t, x) == Count(n, t, x) + if n % t < x then 1 else 0
  {
    NextQuotient(n, t);
    assert (n / t + 1) * x == n / t * x + x;
  }

  // ---------- tickets ----------

  // The random numbers that draw ticket w, or one of the tickets lo + 1 .. hi.
  ghost function DrawsOf(total: Int32, w: int): set<int> {
    set val | 0 <= val < MM && Scaled(val, 1, total) == w
  }

  ghost function DrawsBetween(total: Int32, lo: int, hi: int): set<int> {
    set val | 0 <= val < MM && lo < Scaled(val, 1, total) <= hi
  }

  lemma BetweenCount(total: Int32, lo: int, hi: int)
    requires 0 <= lo <= hi <= total && total > 0
    ensures |DrawsBetween(total, lo, hi)| == Count(MM, total, hi) - Count(MM, total, lo)
  {
    var low, high := Residues(MM, total, lo), Residues(MM, total, hi);
    forall val: int
      ensures val in DrawsBetween(total, lo, hi) <==> val in high && val !in low
      ensures val in low ==> val in high
    {
      InResidues(MM, total, lo, val);
      InResidues(MM, total, hi, val);
      if 0 <= val < MM { TicketDrawn(val, total); }
    }
    assert DrawsBetween(total, lo, hi) == high - low && low <= high;
    assert |high - low| + |low| == |high| by { assert high == (high - low) + low; }
    ResidueCount(MM, total, lo);
    ResidueCount(MM, total, hi);
  }

  // Every ticket of a positive total is drawn by 2^30 / total of the 2^30
  // random numbers, the first 2^30 % total tickets by one more.
  lemma TicketShare(total: Int32, w: int)
    requires 1 <= w <= total
    ensures |DrawsOf(total, w)| == MM / total + if w - 1 < MM % total then 1 else 0
  {
    BetweenCount(total, w - 1, w);
    assert DrawsOf(total, w) == DrawsBetween(total, w - 1, w);
    assert MM / total * w == MM / total * (w - 1) + MM / total;
  }

  // ---------- processes ----------

  ghost function WinningDraws(procs: seq<Proc>, p: nat): set<int>
    requires |procs| == NPROC
  {
    set val | 0 <= val < MM && Wins(procs, Scaled(val, 1, Total(procs)), p)
  }

  // The random numbers that make p win, for every table with a positive total.
  lemma ShareOfDraws(procs: seq<Proc>, p: nat)
    requires |procs| == NPROC && p < NPROC && Total(procs) > 0
    ensures |WinningDraws(procs, p)| ==
      var t, lo, hi := Total(procs), High(procs, p), Counted(procs, p + 1);
      if procs[p].state != Runnable || Min(hi, t) <= lo then 0 else Count(MM, t, Min(hi, t)) - Count(MM, t, lo)
  {
    hide Counted, High, Wins, Total, Scaled;
    var t, lo, hi := Total(procs), High(procs, p), Min(Counted(procs, p + 1), Total(procs));
    forall val ensures val in WinningDraws(procs, p) <==> procs[p].state == Runnable && val in DrawsBetween(t, lo, hi) {
      if 0 <= val < MM {
        TicketDrawn(val, t);
        WinsInterval(procs, Scaled(val, 1, t), p);
      }
    }
    if procs[p].state == Runnable {
      assert WinningDraws(procs, p) == DrawsBetween(t, lo, hi);
      if lo <= hi { BetweenCount(t, lo, hi); } else { assert DrawsBetween(t, lo, hi) == {}; }
    } else {
      assert WinningDraws(procs, p) == {};
    }
  }

  // p holds the tickets lo + 1 .. lo + n.
  lemma CountOf(t: nat, lo: nat, n: nat)
    requires t > 0
    ensures MM / t * n <= Count(MM, t, lo + n) - Count(MM, t, lo) <= (MM / t + 1) * n
  {
    assert MM / t * (lo + n) == MM / t * lo + MM / t * n;
    assert (MM / t + 1) * n == MM / t * n + n;
  }

  // With no negative holdings and a sum that is an int, the tickets of p are
  // those above the holdings before it, and p wins its part of the 2^30 draws
  // up to one draw for each of its tickets.
  lemma FairDraws(procs: seq<Proc>, p: nat)
    requires |procs| == NPROC && NoDebts(procs) && 0 < Before(procs, NPROC) < TWO31 && p < NPROC
    ensures var t, n := Before(procs, NPROC), Stake(procs[p]);
      && |WinningDraws(procs, p)| == Count(MM, t, Before(procs, p) + n) - Count(MM, t, Before(procs, p))
      && MM / t * n <= |WinningDraws(procs, p)| <= (MM / t + 1) * n
  {
    hide Counted, High, WinningDraws, Count, Before, Total;
    FairCounts(procs, p);
    ShareOfDraws(procs, p);
    CountOf(Before(procs, NPROC), Before(procs, p), Stake(procs[p]));
  }

  lemma FairCounts(procs: seq<Proc>, p: nat)
    requires |procs| == NPROC && NoDebts(procs) && Before(procs, NPROC) < TWO31 && p < NPROC
    ensures 0 <= Before(procs, p) == High(procs, p) && Total(procs) == Before(procs, NPROC) && Stake(procs[p]) >= 0
    ensures Counted(procs, p + 1) == Before(procs, p) + Stake(procs[p]) <= Total(procs)
  {
    hide Counted, High;
    BeforeGrows(procs, p, NPROC);
    BeforeGrows(procs, p + 1, NPROC);
    NoWrap(procs, p);
    NoWrap(procs, p + 1);
    NoWrap(procs, NPROC);
    assert Stake(procs[p]) >= 0;
  }

  // ---------- all draws together ----------

  ghost function DrawSum(procs: seq<Proc>, k: nat): nat
    requires |procs| == NPROC && k <= NPROC
  {
    if k == 0 then 0 else DrawSum(procs, k - 1) + |WinningDraws(procs, k - 1)|
  }

  lemma {:induction false} DrawsUpTo(procs: seq<Proc>, k: nat)
    requires |procs| == NPROC && k <= NPROC && Total(procs) > 0
    ensures DrawSum(procs, k) == Count(MM, Total(procs), Min(High(procs, k), Total(procs)))
  {
    hide WinningDraws, Counted, Total, Count;
    if k == 0 {
      CountEnds(Total(procs));
    } else {
      DrawsUpTo(procs, k - 1);
      ShareOfDraws(procs, k - 1);
    }
  }

  lemma CountEnds(t: nat)
    requires t > 0
    ensures Count(MM, t, 0) == 0 && Count(MM, t, t) == MM
  {
    assert MM / t * t + MM % t == MM;
  }

  // Every draw has a winner, and only one, in every table with a positive
  // total.
  lemma EveryDrawWon(procs: seq<Proc>)
    requires |procs| == NPROC && Total(procs) > 0
    ensures DrawSum(procs, NPROC) == MM
  {
    hide Count, High, DrawSum;
    DrawsUpTo(procs, NPROC);
    LastCount(procs, NPROC);
    CountEnds(Total(procs));
  }

  // ---------- scaled_random ----------

  // The ticket drawn when the count of tickets is no positive number.
  lemma OtherTotals(val: int, total: Int32)
    requires 0 <= val < MM && total <= 0
    ensures Scaled(val, 1, total) == 1 + if total == 0 then val else val % (0 - total)
  {
    TicketDrawn(val, total);
    if total < 0 { NegativeDivisor(val, 0 - total); }
  }

  ghost predicate Drawn(low: Int32, high: Int32, r: int) {
    exists val :: 0 <= val < MM && Scaled(val, low, high) == r
  }

  // Exactly the ranges of at most 2^30 numbers are drawn from completely.
  lemma EveryNumberDrawn(low: Int32, high: Int32)
    requires low <= high
    ensures high - low < MM <==> forall r :: low <= r <= high ==> Drawn(low, high, r)
  {
    hide Scaled;
    if high - low < MM {
      forall r | low <= r <= high ensures Drawn(low, high, r) { DrawnItself(low, high, r); }
    } else {
      forall val | 0 <= val < MM ensures Scaled(val, low, high) != high { NotTheLast(val, low, high); }
      assert !Drawn(low, high, high);
    }
  }

  lemma DrawnItself(low: Int32, high: Int32, r: int)
    requires low <= r <= high < low + MM
    ensures 0 <= r - low < MM && Scaled(r - low, low, high) == r
  {
    hide Scaled;
    ScaledInRange(r - low, low, high);
    RestOfSmall(r - low, high - low + 1);
  }

  lemma RestOfSmall(x: nat, n: nat)
    requires x < n
    ensures x % n == x
  {
  }

  lemma NotTheLast(val: int, low: Int32, high: Int32)
    requires 0 <= val < MM <= high - low
    ensures Scaled(val, low, high) < high
  {
    hide Scaled;
    ScaledInRange(val, low, high);
    RestBelow(val, high - low + 1);
  }

  lemma RestBelow(val: nat, n: nat)
    requires n > 0
    ensures val % n <= val
  {
  }
}
