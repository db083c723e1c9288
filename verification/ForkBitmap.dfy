/** The dining philosophers of 2-dp.c: both forks are claimed together in a
    bitmap that a mutex protects, and only then taken. A step is one semaphore
    operation, or one of the two updates of the bitmap under the mutex. */
module ForkBitmap {
  import opened Bits
  import opened Philosophers

  datatype Place =
    | Ask         // Zem_wait(&mutex)
    | Check       // look at the bitmap
    | Claimed     // Zem_post(&mutex)
    | TakeRight
    | TakeLeft
    | Eat         // Zem_wait(&mutex)
    | PutRight
    | PutLeft
    | Clear       // clear the two bits
    | Done        // Zem_post(&mutex)

  datatype Table = Table(mutex: int, bitmap: nat, forks: seq<int>, at: seq<Place>)

  function Start(n: nat): Table {
    Table(1, 0, seq(n, _ => 1), seq(n, _ => Ask))
  }

  predicate Sized(s: Table) {
    |s.forks| == |s.at| && |s.at| >= 2
  }

  predicate CanGo(s: Table, p: nat)
    requires Sized(s) && p < |s.at|
  {
    match s.at[p]
    case Ask => s.mutex > 0
    case Eat => s.mutex > 0
    case TakeRight => s.forks[Right(p, |s.at|)] > 0
    case TakeLeft => s.forks[Left(p)] > 0
    case _ => true
  }

  function Take(s: Table, f: nat, p: nat, a: Place): Table
    requires f < |s.forks| && p < |s.at|
  {
    s.(forks := s.forks[f := s.forks[f] - 1], at := s.at[p := a])
  }

  function Return(s: Table, f: nat, p: nat, a: Place): Table
    requires f < |s.forks| && p < |s.at|
  {
    s.(forks := s.forks[f := s.forks[f] + 1], at := s.at[p := a])
  }

  function Go(s: Table, p: nat): Table
    requires Sized(s) && p < |s.at|
  {
    var l, r := Left(p), Right(p, |s.at|);
    match s.at[p]
    case Ask => s.(mutex := s.mutex - 1, at := s.at[p := Check])
    case Check =>
      if !Bit(s.bitmap, r) && !Bit(s.bitmap, l) then s.(bitmap := Or(Or(s.bitmap, r), l), at := s.at[p := Claimed])
      else s.(at := s.at[p := Done])
    case Claimed => s.(mutex := s.mutex + 1, at := s.at[p := TakeRight])
    case TakeRight => Take(s, r, p, TakeLeft)
    case TakeLeft => Take(s, l, p, Eat)
    case Eat => s.(mutex := s.mutex - 1, at := s.at[p := PutRight])
    case PutRight => Return(s, r, p, PutLeft)
    case PutLeft => Return(s, l, p, Clear)
    case Clear => s.(bitmap := Xor(Xor(s.bitmap, r), l), at := s.at[p := Done])
    case Done => s.(mutex := s.mutex + 1, at := s.at[p := Ask])
  }

  // ---------- what every run keeps ----------

  predicate Inside(a: Place) {
    a == Check || a == Claimed || a == PutRight || a == PutLeft || a == Clear || a == Done
  }

  // Both forks are claimed.
  predicate Owns(a: Place) {
    a == Claimed || a == TakeRight || a == TakeLeft || a == Eat || a == PutRight || a == PutLeft || a == Clear
  }

  predicate HasRight(a: Place) {
    a == TakeLeft || a == Eat || a == PutRight
  }

  predicate HasLeft(a: Place) {
    a == Eat || a == PutRight || a == PutLeft
  }

  // The one philosopher that has the mutex.
  ghost predicate Sole(s: Table, h: nat) {
    h < |s.at| && Inside(s.at[h]) && forall p :: 0 <= p < |s.at| && p != h ==> !Inside(s.at[p])
  }

  ghost predicate MutexOk(s: Table) {
    if s.mutex == 0 then exists h: nat :: Sole(s, h) else s.mutex == 1 && forall p :: 0 <= p < |s.at| ==> !Inside(s.at[p])
  }

  // The bit of fork f is set exactly if one of its neighbours has claimed it,
  // and never both; its semaphore is 1 less its holders.
  predicate BitOk(s: Table, f: nat)
    requires Sized(s) && f < |s.at|
  {
    var p := Before(f, |s.at|);
    && (Bit(s.bitmap, f) <==> Owns(s.at[f]) || Owns(s.at[p])) && !(Owns(s.at[f]) && Owns(s.at[p]))
    && s.forks[f] + Count(HasLeft(s.at[f])) + Count(HasRight(s.at[p])) == 1
  }

  ghost predicate TableInv(s: Table) {
    && Sized(s) && MutexOk(s) && (forall f :: 0 <= f < |s.at| ==> BitOk(s, f))
    && (forall f: nat :: f >= |s.at| ==> !Bit(s.bitmap, f))
  }

  // The bitmap after a step: a claim sets the bits of p's two forks, and
  // giving them up clears exactly those.
  lemma BitsAfter(s: Table, p: nat, f: nat)
    requires Sized(s) && p < |s.at| && (forall g :: 0 <= g < |s.at| ==> BitOk(s, g))
    ensures var mine := f == Left(p) || f == Right(p, |s.at|);
      && (s.at[p] == Check ==> (Bit(Go(s, p).bitmap, f) <==> Bit(s.bitmap, f) || (mine && Go(s, p).at[p] == Claimed)))
      && (s.at[p] == Clear ==> (Bit(Go(s, p).bitmap, f) <==> Bit(s.bitmap, f) && !mine))
      && (s.at[p] != Check && s.at[p] != Clear ==> Go(s, p).bitmap == s.bitmap)
  {
    var l, r := Left(p), Right(p, |s.at|);
    assert BitOk(s, l) && BitOk(s, r);
    hide Or, Xor;
    if s.at[p] == Check {
      OrBit(s.bitmap, r, f);
      OrBit(Or(s.bitmap, r), l, f);
    } else if s.at[p] == Clear {
      XorBit(s.bitmap, r, f);
      XorBit(Xor(s.bitmap, r), l, f);
    }
  }

  // A claimed fork is free for the one who claimed it: taking it never
  // blocks.
  lemma ClaimNeverBlocks(s: Table, p: nat)
    requires TableInv(s) && p < |s.at|
    ensures s.at[p] == TakeRight ==> s.forks[Right(p, |s.at|)] == 1
    ensures s.at[p] == TakeLeft ==> s.forks[Left(p)] == 1
  {
    var n := |s.at|;
    assert BitOk(s, Left(p)) && BitOk(s, Right(p, n)) && Before(Right(p, n), n) == p;
  }

  // A clear bit means a fork that nobody has.
  lemma ClearMeansFree(s: Table, f: nat)
    requires TableInv(s) && f < |s.at| && !Bit(s.bitmap, f)
    ensures s.forks[f] == 1 && !Owns(s.at[f]) && !Owns(s.at[Before(f, |s.at|)])
  {
    assert BitOk(s, f);
  }

  // A set bit means exactly one owner.
  lemma SetMeansOwned(s: Table, f: nat)
    requires TableInv(s) && f < |s.at| && Bit(s.bitmap, f)
    ensures Owns(s.at[f]) != Owns(s.at[Before(f, |s.at|)])
  {
    assert BitOk(s, f);
  }

  lemma MutexKept(s: Table, p: nat)
    requires TableInv(s) && p < |s.at| && CanGo(s, p)
    ensures Sized(Go(s, p)) && |Go(s, p).at| == |s.at| && MutexOk(Go(s, p))
  {
    hide Bit, BitOk, Or, Xor;
    var s' := Go(s, p);
    if s.mutex == 0 {
      var h: nat :| Sole(s, h);
      if s'.mutex == 0 { assert Sole(s', h); }
    } else if s'.mutex == 0 {
      assert Sole(s', p);
    }
  }

  lemma OtherForkStays(s: Table, p: nat, f: nat)
    requires TableInv(s) && p < |s.at| && f < |s.at| && f != Left(p) && f != Right(p, |s.at|)
    ensures Sized(Go(s, p)) && |Go(s, p).at| == |s.at| && BitOk(Go(s, p), f)
  {
    assert BitOk(s, f);
    BitsAfter(s, p, f);
    hide Bit, Or, Xor;
  }

  lemma LeftForkKept(s: Table, p: nat)
    requires TableInv(s) && p < |s.at| && CanGo(s, p)
    ensures Sized(Go(s, p)) && |Go(s, p).at| == |s.at| && BitOk(Go(s, p), Left(p))
  {
    assert BitOk(s, Left(p));
    BitsAfter(s, p, Left(p));
    hide Bit, Or, Xor, TableInv;
  }

  lemma RightForkKept(s: Table, p: nat)
    requires TableInv(s) && p < |s.at| && CanGo(s, p)
    ensures Sized(Go(s, p)) && |Go(s, p).at| == |s.at| && BitOk(Go(s, p), Right(p, |s.at|))
  {
    var n := |s.at|;
    assert BitOk(s, Right(p, n)) && Before(Right(p, n), n) == p;
    BitsAfter(s, p, Right(p, n));
    hide Bit, Or, Xor, TableInv;
  }

  lemma GoKeeps(s: Table, p: nat)
    requires TableInv(s) && p < |s.at| && CanGo(s, p)
    ensures TableInv(Go(s, p)) && |Go(s, p).at| == |s.at|
  {
    MutexKept(s, p);
    hide Go, CanGo, BitOk, Bit, MutexOk;
    var s' := Go(s, p);
    forall f | 0 <= f < |s'.at| ensures BitOk(s', f) {
      if f == Left(p) { LeftForkKept(s, p); }
      else if f == Right(p, |s.at|) { RightForkKept(s, p); }
      else { OtherForkStays(s, p, f); }
    }
    forall f: nat | f >= |s'.at| ensures !Bit(s'.bitmap, f) { BitsAfter(s, p, f); }
  }

  ghost predicate Runs(n: nat, ps: seq<nat>, tr: seq<Table>) {
    && |tr| == |ps| + 1 && tr[0] == Start(n)
    && forall i :: 0 <= i < |ps| ==>
         Sized(tr[i]) && ps[i] < |tr[i].at| && CanGo(tr[i], ps[i]) && tr[i + 1] == Go(tr[i], ps[i])
  }

  lemma {:induction false} ZeroBits(f: nat)
    ensures !Bit(0, f)
  {
    if f > 0 { ZeroBits(f - 1); }
  }

  lemma StartInv(n: nat)
    requires n >= 2
    ensures TableInv(Start(n))
  {
    forall f: nat ensures !Bit(0, f) { ZeroBits(f); }
    hide Bit;
  }

  lemma {:induction false} RunsInv(n: nat, ps: seq<nat>, tr: seq<Table>, i: nat)
    requires Runs(n, ps, tr) && n >= 2 && i < |tr|
    ensures TableInv(tr[i]) && |tr[i].at| == n
  {
    hide TableInv, Go, CanGo;
    if i == 0 { StartInv(n); } else {
      RunsInv(n, ps, tr, i - 1);
      GoKeeps(tr[i - 1], ps[i - 1]);
    }
  }

  // A number without bits from n on is less than 2^n.
  lemma {:induction false} BitsBound(b: nat, n: nat)
    requires forall f: nat :: f >= n ==> !Bit(b, f)
    ensures b < Pow2(n)
    decreases b, n
  {
    if b > 0 {
      if n == 0 {
        var f := TopBit(b);
      } else {
        forall f: nat | f >= n - 1 ensures !Bit(b / 2, f) { assert !Bit(b, f + 1); }
        BitsBound(b / 2, n - 1);
      }
    }
  }

  lemma {:induction false} TopBit(b: nat) returns (f: nat)
    requires b > 0
    ensures Bit(b, f)
  {
    if b % 2 == 1 { f := 0; } else { f := TopBit(b / 2); f := f + 1; }
  }

  // In every run of at most 32 philosophers: the bitmap fits in an int, no
  // two neighbours eat together, and somebody can go on.
  lemma BitmapSafe(n: nat, ps: seq<nat>, tr: seq<Table>, i: nat, p: nat) returns (e: nat)
    requires Runs(n, ps, tr) && 2 <= n <= 32 && i < |tr| && p < n
    ensures |tr[i].at| == n && Sized(tr[i]) && tr[i].bitmap < Pow2(32)
    ensures !(tr[i].at[p] == Eat && tr[i].at[Right(p, n)] == Eat)
    ensures e < n && CanGo(tr[i], e)
  {
    hide Runs;
    RunsInv(n, ps, tr, i);
    var s := tr[i];
    assert BitOk(s, Right(p, n)) && Before(Right(p, n), n) == p;
    BitsBound(s.bitmap, 32);
    if s.mutex == 0 {
      e :| Sole(s, e);
    } else {
      e := 0;
      ClaimNeverBlocks(s, 0);
    }
  }
}
