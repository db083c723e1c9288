/** In all three dining philosopher programs of projects/project_5 everybody can
    always come to eat: from every state of every run, for every philosopher. */
module DiningProgress {
  import opened Bits
  import opened ForkBitmap
  import opened Philosophers

  // ---------- seats, and the last one reversed ----------

  // The states from s on, while the philosophers in ps take a step each.
  ghost predicate Path(k: Protocol, s: State, ps: seq<nat>, tr: seq<State>) {
    && |tr| == |ps| + 1 && tr[0] == s
    && forall i :: 0 <= i < |ps| ==>
         Shape(tr[i]) && ps[i] < |tr[i].pcs| && Enabled(k, tr[i], ps[i]) && tr[i + 1] == Step(k, tr[i], ps[i])
  }

  // Steps until nothing is held any more.
  function ToGo(k: Protocol, pc: Pc): nat {
    match pc
    case Thinking => 0
    case First => if k == Seats then 5 else 0
    case Second => 4
    case Eating => 3
    case Putting => 2
    case Leaving => 1
  }

  function AllToGo(k: Protocol, pcs: seq<Pc>, m: nat): nat
    requires m <= |pcs|
  {
    if m == 0 then 0 else AllToGo(k, pcs, m - 1) + ToGo(k, pcs[m - 1])
  }

  lemma {:induction false} OneGone(k: Protocol, pcs: seq<Pc>, p: nat, pc: Pc, m: nat)
    requires p < |pcs| && m <= |pcs|
    ensures AllToGo(k, pcs[p := pc], m) == AllToGo(k, pcs, m) + if p < m then ToGo(k, pc) - ToGo(k, pcs[p]) else 0
  {
    if m > 0 { OneGone(k, pcs, p, pc, m - 1); }
  }

  lemma {:induction false} SomeoneBusy(k: Protocol, pcs: seq<Pc>, m: nat) returns (p: nat)
    requires m <= |pcs| && AllToGo(k, pcs, m) > 0
    ensures p < m && ToGo(k, pcs[p]) > 0
  {
    if ToGo(k, pcs[m - 1]) > 0 { p := m - 1; } else { p := SomeoneBusy(k, pcs, m - 1); }
  }

  lemma {:induction false} NobodyBusy(k: Protocol, pcs: seq<Pc>, m: nat, p: nat)
    requires p < m <= |pcs| && AllToGo(k, pcs, m) == 0
    ensures ToGo(k, pcs[p]) == 0
  {
    if p < m - 1 { NobodyBusy(k, pcs, m - 1, p); }
  }

  lemma {:induction false} BoundaryUp(pcs: seq<Pc>, t: nat, p: nat) returns (b: nat)
    requires t < p < |pcs| && pcs[t] == Thinking && pcs[p] != Thinking
    ensures t <= b < p && pcs[b] == Thinking && pcs[b + 1] != Thinking
    decreases p - t
  {
    if pcs[t + 1] == Thinking { b := BoundaryUp(pcs, t + 1, p); } else { b := t; }
  }

  // Somebody thinks beside somebody who is seated.
  lemma Boundary(pcs: seq<Pc>, t: nat, p: nat) returns (b: nat)
    requires t < |pcs| && p < |pcs| && pcs[t] == Thinking && pcs[p] != Thinking
    ensures b < |pcs| && pcs[b] == Thinking && pcs[Right(b, |pcs|)] != Thinking
  {
    var n := |pcs|;
    if t < p {
      b := BoundaryUp(pcs, t, p);
    } else if pcs[n - 1] != Thinking {
      b := BoundaryUp(pcs, t, n - 1);
    } else if pcs[0] != Thinking {
      b := n - 1;
    } else {
      b := BoundaryUp(pcs, 0, p);
    }
  }

  lemma SeatsBusy(s: State, p: nat) returns (e: nat)
    requires Inv(Seats, s) && p < |s.pcs| && s.pcs[p] != Thinking
    ensures e < |s.pcs| && Enabled(Seats, s, e) && s.pcs[e] != Thinking
  {
    var n := |s.pcs|;
    SeatedAll(s.pcs, n);
    var t :| 0 <= t < n && s.pcs[t] == Thinking;
    var b := Boundary(s.pcs, t, p);
    assert Before(Right(b, n), n) == b;
    e := SeatsUnblock(s, Right(b, n));
  }

  lemma ReversedBusy(s: State, p: nat) returns (e: nat)
    requires Inv(Reversed, s) && p < |s.pcs| && s.pcs[p] != First
    ensures e < |s.pcs| && Enabled(Reversed, s, e) && s.pcs[e] != First
  {
    if s.pcs[p] == Second { e := Climb(s, p); } else { e := p; }
  }

  lemma BusyEnabled(k: Protocol, s: State) returns (e: nat)
    requires Inv(k, s) && AllToGo(k, s.pcs, |s.pcs|) > 0
    ensures e < |s.pcs| && Enabled(k, s, e) && ToGo(k, s.pcs[e]) > 0
  {
    var p := SomeoneBusy(k, s.pcs, |s.pcs|);
    if k == Seats { e := SeatsBusy(s, p); } else { e := ReversedBusy(s, p); }
  }

  lemma BusyStep(k: Protocol, s: State, e: nat)
    requires Inv(k, s) && e < |s.pcs| && Enabled(k, s, e) && ToGo(k, s.pcs[e]) > 0
    ensures |Step(k, s, e).pcs| == |s.pcs| && AllToGo(k, Step(k, s, e).pcs, |s.pcs|) < AllToGo(k, s.pcs, |s.pcs|)
  {
    OneGone(k, s.pcs, e, Step(k, s, e).pcs[e], |s.pcs|);
  }

  lemma PathFirst(k: Protocol, s: State, p: nat, ps: seq<nat>, tr: seq<State>)
    requires Shape(s) && p < |s.pcs| && Enabled(k, s, p) && Path(k, Step(k, s, p), ps, tr)
    ensures Path(k, s, [p] + ps, [s] + tr)
  {
    hide Enabled, Step;
    var ps', tr' := [p] + ps, [s] + tr;
    forall i | 0 <= i < |ps'|
      ensures Shape(tr'[i]) && ps'[i] < |tr'[i].pcs| && Enabled(k, tr'[i], ps'[i]) && tr'[i + 1] == Step(k, tr'[i], ps'[i])
    {
      if i > 0 { assert ps'[i] == ps[i - 1] && tr'[i] == tr[i - 1] && tr'[i + 1] == tr[i]; }
    }
  }

  // Once everybody has given up everything, p goes to eat.
  lemma AloneEats(k: Protocol, s: State, p: nat) returns (ps: seq<nat>, tr: seq<State>)
    requires Inv(k, s) && p < |s.pcs| && AllToGo(k, s.pcs, |s.pcs|) == 0
    ensures Path(k, s, ps, tr) && |tr[|ps|].pcs| == |s.pcs| && tr[|ps|].pcs[p] == Eating
  {
    forall q | 0 <= q < |s.pcs| ensures ToGo(k, s.pcs[q]) == 0 { NobodyBusy(k, s.pcs, |s.pcs|, q); }
    FreeForks(k, s, p);
    var s1 := if k == Seats then Step(k, s, p) else s;
    var s2 := Step(k, s1, p);
    var s3 := Step(k, s2, p);
    ps, tr := [p, p], [s1, s2, s3];
    if k == Seats {
      SeatedAll(s.pcs, |s.pcs|);
      ps, tr := [p] + ps, [s] + tr;
    }
  }

  lemma FreeForks(k: Protocol, s: State, p: nat)
    requires Inv(k, s) && p < |s.pcs| && forall q :: 0 <= q < |s.pcs| ==> ToGo(k, s.pcs[q]) == 0
    ensures s.forks[Left(p)] == 1 && s.forks[Right(p, |s.pcs|)] == 1 && Left(p) != Right(p, |s.pcs|)
    ensures s.pcs[p] == if k == Seats then Thinking else First
  {
    var n := |s.pcs|;
    assert ForkOk(k, s, Left(p)) && ForkOk(k, s, Right(p, n)) && Before(Right(p, n), n) == p;
    assert ToGo(k, s.pcs[p]) == 0 && ToGo(k, s.pcs[Before(p, n)]) == 0 && ToGo(k, s.pcs[Right(p, n)]) == 0;
  }

  lemma {:induction false} ComesToEat(k: Protocol, s: State, p: nat) returns (ps: seq<nat>, tr: seq<State>)
    requires Inv(k, s) && p < |s.pcs|
    ensures Path(k, s, ps, tr) && |tr[|ps|].pcs| == |s.pcs| && tr[|ps|].pcs[p] == Eating
    decreases AllToGo(k, s.pcs, |s.pcs|)
  {
    hide Inv, Enabled, Step, Path;
    if AllToGo(k, s.pcs, |s.pcs|) == 0 {
      ps, tr := AloneEats(k, s, p);
    } else {
      var e := BusyEnabled(k, s);
      BusyStep(k, s, e);
      StepKeeps(k, s, e);
      InvShape(k, s);
      var qs, us := ComesToEat(k, Step(k, s, e), p);
      PathFirst(k, s, e, qs, us);
      PathLength(k, Step(k, s, e), qs, us);
      ps, tr := [e] + qs, [s] + us;
    }
  }

  lemma InvShape(k: Protocol, s: State)
    requires Inv(k, s)
    ensures Shape(s)
  {
  }

  lemma PathLength(k: Protocol, s: State, ps: seq<nat>, tr: seq<State>)
    requires Path(k, s, ps, tr)
    ensures |tr| == |ps| + 1
  {
  }

  // From every state of every run every philosopher can come to eat.
  lemma EveryoneCanEat(k: Protocol, n: nat, ps: seq<nat>, tr: seq<State>, i: nat, p: nat)
      returns (qs: seq<nat>, us: seq<State>)
    requires Run(k, n, ps, tr) && n >= 2 && i < |tr| && p < n
    ensures Path(k, tr[i], qs, us) && |us[|qs|].pcs| == n && us[|qs|].pcs[p] == Eating
  {
    hide Inv, Path;
    RunInv(k, n, ps, tr, i);
    qs, us := ComesToEat(k, tr[i], p);
  }

  // ---------- the bitmap ----------

  ghost predicate BitmapPath(s: Table, ps: seq<nat>, tr: seq<Table>) {
    && |tr| == |ps| + 1 && tr[0] == s
    && forall i :: 0 <= i < |ps| ==>
         Sized(tr[i]) && ps[i] < |tr[i].at| && CanGo(tr[i], ps[i]) && tr[i + 1] == Go(tr[i], ps[i])
  }

  function Away(a: Place): nat {
    match a
    case Ask => 0
    case Check => 9
    case Claimed => 8
    case TakeRight => 7
    case TakeLeft => 6
    case Eat => 5
    case PutRight => 4
    case PutLeft => 3
    case Clear => 2
    case Done => 1
  }

  function AllAway(at: seq<Place>, m: nat): nat
    requires m <= |at|
  {
    if m == 0 then 0 else AllAway(at, m - 1) + Away(at[m - 1])
  }

  lemma {:induction false} OneNearer(at: seq<Place>, p: nat, a: Place, m: nat)
    requires p < |at| && m <= |at|
    ensures AllAway(at[p := a], m) == AllAway(at, m) + if p < m then Away(a) - Away(at[p]) else 0
  {
    if m > 0 { OneNearer(at, p, a, m - 1); }
  }

  lemma {:induction false} SomeoneAway(at: seq<Place>, m: nat) returns (p: nat)
    requires m <= |at| && AllAway(at, m) > 0
    ensures p < m && at[p] != Ask
  {
    if at[m - 1] != Ask { p := m - 1; } else { p := SomeoneAway(at, m - 1); }
  }

  lemma {:induction false} NobodyAway(at: seq<Place>, m: nat, p: nat)
    requires p < m <= |at| && AllAway(at, m) == 0
    ensures at[p] == Ask
  {
    if p < m - 1 { NobodyAway(at, m - 1, p); }
  }

  lemma AwayCanGo(s: Table) returns (e: nat)
    requires TableInv(s) && AllAway(s.at, |s.at|) > 0
    ensures e < |s.at| && CanGo(s, e) && s.at[e] != Ask
  {
    if s.mutex == 0 {
      e :| Sole(s, e);
    } else {
      e := SomeoneAway(s.at, |s.at|);
      ClaimNeverBlocks(s, e);
    }
  }

  lemma AwayStep(s: Table, e: nat)
    requires Sized(s) && e < |s.at| && s.at[e] != Ask
    ensures |Go(s, e).at| == |s.at| && AllAway(Go(s, e).at, |s.at|) < AllAway(s.at, |s.at|)
  {
    OneNearer(s.at, e, Go(s, e).at[e], |s.at|);
  }

  lemma BitmapPathFirst(s: Table, p: nat, ps: seq<nat>, tr: seq<Table>)
    requires Sized(s) && p < |s.at| && CanGo(s, p) && BitmapPath(Go(s, p), ps, tr)
    ensures BitmapPath(s, [p] + ps, [s] + tr)
  {
    hide CanGo, Go;
    var ps', tr' := [p] + ps, [s] + tr;
    forall i | 0 <= i < |ps'|
      ensures Sized(tr'[i]) && ps'[i] < |tr'[i].at| && CanGo(tr'[i], ps'[i]) && tr'[i + 1] == Go(tr'[i], ps'[i])
    {
      if i > 0 { assert ps'[i] == ps[i - 1] && tr'[i] == tr[i - 1] && tr'[i + 1] == tr[i]; }
    }
  }

  // Once everybody is back, p claims its forks and eats.
  lemma AloneClaims(s: Table, p: nat) returns (ps: seq<nat>, tr: seq<Table>)
    requires TableInv(s) && p < |s.at| && AllAway(s.at, |s.at|) == 0
    ensures BitmapPath(s, ps, tr) && |tr[|ps|].at| == |s.at| && tr[|ps|].at[p] == Eat
  {
    AllFree(s, p);
    hide TableInv, Bit, Or, Xor;
    var s1 := Go(s, p);
    var s2 := Go(s1, p);
    var s3 := Go(s2, p);
    var s4 := Go(s3, p);
    ps, tr := [p, p, p, p, p], [s, s1, s2, s3, s4, Go(s4, p)];
  }

  lemma AllFree(s: Table, p: nat)
    requires TableInv(s) && p < |s.at| && AllAway(s.at, |s.at|) == 0
    ensures s.mutex == 1 && s.at[p] == Ask && Left(p) != Right(p, |s.at|)
    ensures forall f :: f == Left(p) || f == Right(p, |s.at|) ==> s.forks[f] == 1 && !Bit(s.bitmap, f)
  {
    forall q | 0 <= q < |s.at| ensures s.at[q] == Ask { NobodyAway(s.at, |s.at|, q); }
    assert BitOk(s, Left(p)) && BitOk(s, Right(p, |s.at|));
  }

  lemma {:induction false} ClaimsAndEats(s: Table, p: nat) returns (ps: seq<nat>, tr: seq<Table>)
    requires TableInv(s) && p < |s.at|
    ensures BitmapPath(s, ps, tr) && |tr[|ps|].at| == |s.at| && tr[|ps|].at[p] == Eat
    decreases AllAway(s.at, |s.at|)
  {
    hide MutexOk, BitOk, Bit, CanGo, Go, BitmapPath;
    if AllAway(s.at, |s.at|) == 0 {
      ps, tr := AloneClaims(s, p);
    } else {
      var e := AwayCanGo(s);
      AwayStep(s, e);
      GoKeeps(s, e);
      var qs, us := ClaimsAndEats(Go(s, e), p);
      BitmapPathFirst(s, e, qs, us);
      BitmapPathLength(Go(s, e), qs, us);
      ps, tr := [e] + qs, [s] + us;
    }
  }

  lemma BitmapPathLength(s: Table, ps: seq<nat>, tr: seq<Table>)
    requires BitmapPath(s, ps, tr)
    ensures |tr| == |ps| + 1
  {
  }

  lemma EveryoneCanClaim(n: nat, ps: seq<nat>, tr: seq<Table>, i: nat, p: nat) returns (qs: seq<nat>, us: seq<Table>)
    requires Runs(n, ps, tr) && n >= 2 && i < |tr| && p < n
    ensures BitmapPath(tr[i], qs, us) && |us[|qs|].at| == n && us[|qs|].at[p] == Eat
  {
    hide TableInv, BitmapPath;
    RunsInv(n, ps, tr, i);
    qs, us := ClaimsAndEats(tr[i], p);
  }
}
