/** Dining philosophers with semaphores, for every number of philosophers: with
    n - 1 seats (3-dp.c), and with the last philosopher taking the forks in the
    other order (solution-diningPhilosophers.c). A step is one semaphore
    operation; a wait is enabled if the value is positive. */
module Philosophers {
  datatype Protocol = Seats | Reversed
  datatype Pc = Thinking | First | Second | Eating | Putting | Leaving

  // table is the semaphore of the seats, which only Seats uses.
  datatype State = State(forks: seq<int>, table: int, pcs: seq<Pc>)

  function Left(p: nat): nat {
    p
  }

  function Right(p: nat, n: nat): (r: nat)
    requires p < n
    ensures r < n && r == if p + 1 < n then p + 1 else 0
  {
    (p + 1) % n
  }

  function Before(f: nat, n: nat): (p: nat)
    requires f < n
    ensures p < n && Right(p, n) == f
  {
    if f == 0 then n - 1 else f - 1
  }

  // The fork that is taken first, and the one that is put back first.
  predicate RightFirst(k: Protocol, p: nat, n: nat) {
    k == Seats || p == n - 1
  }

  function Fork(k: Protocol, p: nat, n: nat, first: bool): (f: nat)
    requires p < n
    ensures f < n
  {
    if RightFirst(k, p, n) == first then Right(p, n) else Left(p)
  }

  function PutFork(k: Protocol, p: nat, n: nat, first: bool): (f: nat)
    requires p < n
    ensures f < n
  {
    if (k == Seats) == first then Right(p, n) else Left(p)
  }

  function Init(k: Protocol, n: nat): State {
    State(seq(n, _ => 1), n - 1, seq(n, _ => if k == Seats then Thinking else First))
  }

  predicate Shape(s: State) {
    |s.forks| == |s.pcs| && |s.pcs| >= 2
  }

  predicate Enabled(k: Protocol, s: State, p: nat)
    requires Shape(s) && p < |s.pcs|
  {
    match s.pcs[p]
    case Thinking => s.table > 0
    case First => s.forks[Fork(k, p, |s.pcs|, true)] > 0
    case Second => s.forks[Fork(k, p, |s.pcs|, false)] > 0
    case _ => true
  }

  function Wait(s: State, f: nat, p: nat, pc: Pc): State
    requires f < |s.forks| && p < |s.pcs|
  {
    s.(forks := s.forks[f := s.forks[f] - 1], pcs := s.pcs[p := pc])
  }

  function Post(s: State, f: nat, p: nat, pc: Pc): State
    requires f < |s.forks| && p < |s.pcs|
  {
    s.(forks := s.forks[f := s.forks[f] + 1], pcs := s.pcs[p := pc])
  }

  function Step(k: Protocol, s: State, p: nat): State
    requires Shape(s) && p < |s.pcs|
  {
    var n := |s.pcs|;
    match s.pcs[p]
    case Thinking => s.(table := s.table - 1, pcs := s.pcs[p := First])
    case First => Wait(s, Fork(k, p, n, true), p, Second)
    case Second => Wait(s, Fork(k, p, n, false), p, Eating)
    case Eating => Post(s, PutFork(k, p, n, true), p, Putting)
    case Putting => Post(s, PutFork(k, p, n, false), p, if k == Seats then Leaving else First)
    case Leaving => s.(table := s.table + 1, pcs := s.pcs[p := Thinking])
  }

  // ---------- what every run keeps ----------

  predicate HoldsLeft(k: Protocol, p: nat, n: nat, pc: Pc) {
    pc == Eating || (pc == Second && !RightFirst(k, p, n)) || (pc == Putting && k == Seats)
  }

  predicate HoldsRight(k: Protocol, p: nat, n: nat, pc: Pc) {
    pc == Eating || (pc == Second && RightFirst(k, p, n)) || (pc == Putting && k == Reversed)
  }

  function Count(b: bool): int {
    if b then 1 else 0
  }

  // The value of fork f is 1 less the number of its holders.
  predicate ForkOk(k: Protocol, s: State, f: nat)
    requires Shape(s) && f < |s.pcs|
  {
    var n := |s.pcs|;
    var p := Before(f, n);
    s.forks[f] >= 0 && s.forks[f] + Count(HoldsLeft(k, f, n, s.pcs[f])) + Count(HoldsRight(k, p, n, s.pcs[p])) == 1
  }

  // Philosophers at the table, among the first m.
  function Seated(pcs: seq<Pc>, m: nat): nat
    requires m <= |pcs|
  {
    if m == 0 then 0 else Seated(pcs, m - 1) + if pcs[m - 1] == Thinking then 0 else 1
  }

  predicate TableOk(k: Protocol, s: State) {
    match k
    case Seats => s.table >= 0 && s.table + Seated(s.pcs, |s.pcs|) == |s.pcs| - 1
    case Reversed => forall p :: 0 <= p < |s.pcs| ==> s.pcs[p] != Thinking && s.pcs[p] != Leaving
  }

  ghost predicate Inv(k: Protocol, s: State) {
    Shape(s) && TableOk(k, s) && forall f :: 0 <= f < |s.pcs| ==> ForkOk(k, s, f)
  }

  lemma {:induction false} SeatedAll(pcs: seq<Pc>, m: nat)
    requires m <= |pcs|
    ensures Seated(pcs, m) <= m
    ensures (forall i :: 0 <= i < m ==> pcs[i] == Thinking) ==> Seated(pcs, m) == 0
    ensures (forall i :: 0 <= i < m ==> pcs[i] != Thinking) ==> Seated(pcs, m) == m
  {
    if m > 0 { SeatedAll(pcs, m - 1); }
  }

  lemma {:induction false} SeatedSet(pcs: seq<Pc>, p: nat, pc: Pc, m: nat)
    requires p < |pcs| && m <= |pcs|
    ensures Seated(pcs[p := pc], m) ==
      Seated(pcs, m) + if p < m then Count(pc != Thinking) - Count(pcs[p] != Thinking) else 0
  {
    if m > 0 { SeatedSet(pcs, p, pc, m - 1); }
  }

  // Two who think leave at least one seat free.
  lemma {:induction false} SeatedBound(pcs: seq<Pc>, p: nat, q: nat, m: nat)
    requires p < q < |pcs| && pcs[p] == Thinking && pcs[q] == Thinking && m <= |pcs|
    ensures Seated(pcs, m) + Count(p < m) + Count(q < m) <= m
  {
    if m > 0 { SeatedBound(pcs, p, q, m - 1); }
  }

  lemma InitInv(k: Protocol, n: nat)
    requires n >= 2
    ensures Inv(k, Init(k, n))
  {
    SeatedAll(Init(k, n).pcs, n);
  }

  lemma TableKept(k: Protocol, s: State, p: nat)
    requires Inv(k, s) && p < |s.pcs| && Enabled(k, s, p)
    ensures Shape(Step(k, s, p)) && |Step(k, s, p).pcs| == |s.pcs| && TableOk(k, Step(k, s, p))
  {
    if k == Seats { SeatedSet(s.pcs, p, Step(k, s, p).pcs[p], |s.pcs|); }
  }

  // Only the two forks of p can change.
  lemma OtherFork(k: Protocol, s: State, p: nat, f: nat)
    requires Inv(k, s) && p < |s.pcs| && f < |s.pcs| && f != Left(p) && f != Right(p, |s.pcs|)
    ensures var s' := Step(k, s, p);
      Shape(s') && |s'.pcs| == |s.pcs| && s'.forks[f] == s.forks[f] && s'.pcs[f] == s.pcs[f] &&
      s'.pcs[Before(f, |s.pcs|)] == s.pcs[Before(f, |s.pcs|)]
  {
  }

  lemma LeftFork(k: Protocol, s: State, p: nat)
    requires Inv(k, s) && p < |s.pcs| && Enabled(k, s, p)
    ensures var s' := Step(k, s, p); Shape(s') && |s'.pcs| == |s.pcs| && ForkOk(k, s', Left(p))
  {
    assert ForkOk(k, s, Left(p));
    hide Inv, Seated, TableOk;
  }

  lemma RightFork(k: Protocol, s: State, p: nat)
    requires Inv(k, s) && p < |s.pcs| && Enabled(k, s, p)
    ensures var s' := Step(k, s, p); Shape(s') && |s'.pcs| == |s.pcs| && ForkOk(k, s', Right(p, |s.pcs|))
  {
    assert ForkOk(k, s, Right(p, |s.pcs|)) && Before(Right(p, |s.pcs|), |s.pcs|) == p;
    hide Inv, Seated, TableOk;
  }

  lemma ForkKept(k: Protocol, s: State, p: nat, f: nat)
    requires Inv(k, s) && p < |s.pcs| && Enabled(k, s, p) && f < |s.pcs|
    ensures var s' := Step(k, s, p); Shape(s') && |s'.pcs| == |s.pcs| && ForkOk(k, s', f)
  {
    hide Step, Enabled, TableOk;
    if f == Left(p) {
      LeftFork(k, s, p);
    } else if f == Right(p, |s.pcs|) {
      RightFork(k, s, p);
    } else {
      OtherFork(k, s, p, f);
      assert ForkOk(k, s, f);
    }
  }

  lemma StepKeeps(k: Protocol, s: State, p: nat)
    requires Inv(k, s) && p < |s.pcs| && Enabled(k, s, p)
    ensures Inv(k, Step(k, s, p))
  {
    TableKept(k, s, p);
    hide Step, TableOk, Enabled, ForkOk;
    var s' := Step(k, s, p);
    forall f | 0 <= f < |s'.pcs| ensures ForkOk(k, s', f) { ForkKept(k, s, p, f); }
  }

  // The states after the steps of the philosophers in ps, one after another.
  ghost predicate Run(k: Protocol, n: nat, ps: seq<nat>, tr: seq<State>) {
    && |tr| == |ps| + 1 && tr[0] == Init(k, n)
    && forall i :: 0 <= i < |ps| ==>
         Shape(tr[i]) && ps[i] < |tr[i].pcs| && Enabled(k, tr[i], ps[i]) && tr[i + 1] == Step(k, tr[i], ps[i])
  }

  lemma {:induction false} RunInv(k: Protocol, n: nat, ps: seq<nat>, tr: seq<State>, i: nat)
    requires Run(k, n, ps, tr) && n >= 2 && i < |tr|
    ensures Inv(k, tr[i]) && |tr[i].pcs| == n
  {
    hide Inv, Step, Enabled;
    if i == 0 { InitInv(k, n); } else {
      RunInv(k, n, ps, tr, i - 1);
      StepKeeps(k, tr[i - 1], ps[i - 1]);
      SameNumber(k, tr[i - 1], ps[i - 1]);
    }
  }

  lemma SameNumber(k: Protocol, s: State, p: nat)
    requires Shape(s) && p < |s.pcs|
    ensures |Step(k, s, p).pcs| == |s.pcs|
  {
  }

  // ---------- neighbours ----------

  lemma NeverBoth(k: Protocol, s: State, p: nat)
    requires Inv(k, s) && p < |s.pcs|
    ensures !(s.pcs[p] == Eating && s.pcs[Right(p, |s.pcs|)] == Eating)
  {
    var n := |s.pcs|;
    assert ForkOk(k, s, Right(p, n));
    assert Before(Right(p, n), n) == p;
  }

  // No two neighbours ever eat together.
  lemma NeighboursNeverEat(k: Protocol, n: nat, ps: seq<nat>, tr: seq<State>, i: nat, p: nat)
    requires Run(k, n, ps, tr) && n >= 2 && i < |tr| && p < n && |tr[i].pcs| == n
    ensures !(tr[i].pcs[p] == Eating && tr[i].pcs[Right(p, n)] == Eating)
  {
    RunInv(k, n, ps, tr, i);
    NeverBoth(k, tr[i], p);
  }

  // ---------- no deadlock ----------

  // With n - 1 seats: one who is at the table can go on, or someone it waits
  // for can, unless both it and its neighbour before wait for the second fork.
  lemma SeatsUnblock(s: State, p: nat) returns (e: nat)
    requires Inv(Seats, s) && p < |s.pcs| && s.pcs[p] != Thinking
    ensures e < |s.pcs| && (Enabled(Seats, s, e) || (e == Before(p, |s.pcs|) && s.pcs[e] == Second))
    ensures s.pcs[e] != Thinking
  {
    var n := |s.pcs|;
    e := p;
    if s.pcs[p] == First {
      assert ForkOk(Seats, s, Right(p, n)) && Before(Right(p, n), n) == p;
      if s.forks[Right(p, n)] <= 0 { e := Right(p, n); }
    } else if s.pcs[p] == Second {
      assert ForkOk(Seats, s, p);
      if s.forks[p] <= 0 { e := Before(p, n); }
    }
  }

  lemma SeatsEnabled(s: State) returns (e: nat)
    requires Inv(Seats, s)
    ensures e < |s.pcs| && Enabled(Seats, s, e)
  {
    var n := |s.pcs|;
    SeatedAll(s.pcs, n);
    var t :| 0 <= t < n && s.pcs[t] == Thinking;
    e := t;
    if s.table <= 0 {
      var q := Right(t, n);
      NextIsSeated(s, t);
      e := SeatsUnblock(s, q);
    }
  }

  lemma NextIsSeated(s: State, t: nat)
    requires Inv(Seats, s) && s.table == 0 && t < |s.pcs| && s.pcs[t] == Thinking
    ensures s.pcs[Right(t, |s.pcs|)] != Thinking && Before(Right(t, |s.pcs|), |s.pcs|) == t
  {
    var q, n := Right(t, |s.pcs|), |s.pcs|;
    if s.pcs[q] == Thinking {
      if t < q { SeatedBound(s.pcs, t, q, n); } else { SeatedBound(s.pcs, q, t, n); }
    }
  }

  // With the last one reversed everyone takes the fork of lower number first.
  lemma LowerFirst(p: nat, n: nat)
    requires p < n && n >= 2
    ensures Fork(Reversed, p, n, true) < Fork(Reversed, p, n, false)
  {
  }

  // Whoever waits for its second fork waits for one who can go on, or who has
  // a higher first fork and waits for the second.
  lemma ReversedUnblock(s: State, f: nat) returns (e: nat)
    requires Inv(Reversed, s) && f < |s.pcs| && s.forks[f] <= 0
    ensures e < |s.pcs| && (Enabled(Reversed, s, e) || (s.pcs[e] == Second && Fork(Reversed, e, |s.pcs|, true) == f))
    ensures s.pcs[e] != First
  {
    var n := |s.pcs|;
    assert ForkOk(Reversed, s, f);
    if HoldsLeft(Reversed, f, n, s.pcs[f]) { e := f; } else { e := Before(f, n); }
  }

  lemma {:induction false} Climb(s: State, p: nat) returns (e: nat)
    requires Inv(Reversed, s) && p < |s.pcs| && s.pcs[p] == Second
    ensures e < |s.pcs| && Enabled(Reversed, s, e) && s.pcs[e] != First
    decreases |s.pcs| - Fork(Reversed, p, |s.pcs|, true)
  {
    var n := |s.pcs|;
    e := p;
    if !Enabled(Reversed, s, p) {
      LowerFirst(p, n);
      e := ReversedUnblock(s, Fork(Reversed, p, n, false));
      if !Enabled(Reversed, s, e) { e := Climb(s, e); }
    }
  }

  lemma ReversedEnabled(s: State) returns (e: nat)
    requires Inv(Reversed, s)
    ensures e < |s.pcs| && Enabled(Reversed, s, e)
  {
    e := 0;
    if s.pcs[0] == Second {
      e := Climb(s, 0);
    } else if !Enabled(Reversed, s, 0) {
      e := ReversedUnblock(s, Fork(Reversed, 0, |s.pcs|, true));
      if !Enabled(Reversed, s, e) { e := Climb(s, e); }
    }
  }

  // For every number of philosophers, every state that a run can reach has an
  // enabled step.
  lemma DeadlockFree(k: Protocol, n: nat, ps: seq<nat>, tr: seq<State>, i: nat) returns (e: nat)
    requires Run(k, n, ps, tr) && n >= 2 && i < |tr|
    ensures Shape(tr[i]) && e < |tr[i].pcs| && Enabled(k, tr[i], e)
  {
    hide Run, Enabled;
    RunInv(k, n, ps, tr, i);
    if k == Seats { e := SeatsEnabled(tr[i]); } else { e := ReversedEnabled(tr[i]); }
  }
}
