/** Knuth's additive number generator as in projects/project_3's
    kernel/random.c: seeding, batches and the numbers handed out. */
module Random {
  import opened Bits
  import opened PowersOfZ

  const MM: int := 0x4000_0000
  const TT: nat := 70

  // (x - y) & (MM - 1) and x & (MM - 2), for any two's complement operands.
  function ModDiff(x: int, y: int): (r: int)
    ensures 0 <= r < MM && (r % 2 == 1 <==> (x % 2 == 1) != (y % 2 == 1))
  {
    (x - y) % MM
  }

  function Evenize(x: int): (r: int)
    ensures 0 <= r < MM && r % 2 == 0
  {
    var m := x % MM;
    m - m % 2
  }

  predicate Odd(x: int) {
    x % 2 == 1
  }

  ghost predicate Words(x: seq<int>) {
    forall i :: 0 <= i < |x| ==> 0 <= x[i] < MM
  }

  // ---------- the recurrence ----------

  // Term j of the sequence that starts with the 100 words of s.
  ghost function X(s: seq<int>, j: nat): (r: int)
    requires |s| == KK
    decreases j
  {
    if j < KK then s[j] else ModDiff(X(s, j - KK), X(s, j - LL))
  }

  // X[j] is X[j - 100] - X[j - 37], plus 2^30 where that is negative.
  lemma Recurrence(s: seq<int>, j: nat)
    requires |s| == 100 && Words(s) && j >= 100
    ensures var d := X(s, j - 100) - X(s, j - 37); X(s, j) == if d < 0 then d + 0x4000_0000 else d
  {
    TermInRange(s, j - 100);
    TermInRange(s, j - 37);
  }

  ghost function Window(s: seq<int>, n: nat): (r: seq<int>)
    requires |s| == KK
    ensures |r| == KK && forall i :: 0 <= i < KK ==> r[i] == X(s, n + i)
  {
    seq(KK, i requires 0 <= i < KK => X(s, n + i))
  }

  // A generator restarted from 100 consecutive terms goes on with the terms
  // that follow them.
  lemma {:induction false} Continues(s: seq<int>, n: nat, j: nat)
    requires |s| == KK
    ensures X(Window(s, n), j) == X(s, n + j)
    decreases j
  {
    if j >= KK {
      Continues(s, n, j - KK);
      Continues(s, n, j - LL);
    }
  }

  lemma {:induction false} TermInRange(s: seq<int>, j: nat)
    requires |s| == KK && Words(s)
    ensures 0 <= X(s, j) < MM
  {
  }

  // 100 consecutive even terms would make every earlier term even.
  lemma {:induction false} EvenBackwards(s: seq<int>, n: nat)
    requires |s| == KK && forall j :: n <= j < n + KK ==> !Odd(X(s, j))
    ensures forall i :: 0 <= i < KK ==> !Odd(s[i])
    decreases n
  {
    if n > 0 {
      assert X(s, n + 99) == ModDiff(X(s, n - 1), X(s, n + 62));
      EvenBackwards(s, n - 1);
    } else {
      assert forall i :: 0 <= i < KK ==> X(s, i) == s[i];
    }
  }

  ghost predicate HasOdd(s: seq<int>) {
    exists i :: 0 <= i < |s| && Odd(s[i])
  }

  // Every state of the generator has words below 2^30, one of them odd.
  lemma OddStays(s: seq<int>, n: nat)
    requires |s| == KK && Words(s) && HasOdd(s)
    ensures Words(Window(s, n)) && HasOdd(Window(s, n))
  {
    forall i | 0 <= i < KK ensures 0 <= Window(s, n)[i] < MM {
      TermInRange(s, n + i);
    }
    if !HasOdd(Window(s, n)) {
      forall j | n <= j < n + KK ensures !Odd(X(s, j)) {
        assert Window(s, n)[j - n] == X(s, n + (j - n));
      }
      EvenBackwards(s, n);
    }
  }

  // ---------- parities as powers of z ----------

  // The parities of the first 100 words are the coefficients of z^m.
  ghost predicate IsPower(x: seq<int>, m: nat) {
    |x| >= KK && forall i :: 0 <= i < KK ==> (Odd(x[i]) <==> PowBit(m, i))
  }

  // Coefficient i of the sum of z^j over the odd words j < n of x.
  ghost predicate Eval(x: seq<int>, n: nat, i: nat)
    requires n <= |x| && i < KK
    decreases n
  {
    n > 0 && (Eval(x, n - 1, i) != (Odd(x[n - 1]) && PowBit(n - 1, i)))
  }

  // Up to degree 99 the sum is just the parities.
  lemma {:induction false} EvalSmall(x: seq<int>, n: nat, i: nat)
    requires n <= |x| && n <= KK && i < KK
    ensures Eval(x, n, i) <==> i < n && Odd(x[i])
  {
    if n > 0 {
      EvalSmall(x, n - 1, i);
      SmallPower(n - 1, i);
    }
  }

  // Changing the parity of word p adds z^p to the sum.
  lemma {:induction false} EvalFlip(x: seq<int>, y: seq<int>, n: nat, p: nat, i: nat)
    requires |x| == |y| && p < n <= |x| && i < KK
    requires forall j :: 0 <= j < n && j != p ==> Odd(x[j]) == Odd(y[j])
    requires Odd(x[p]) != Odd(y[p])
    ensures Eval(y, n, i) <==> (Eval(x, n, i) != PowBit(p, i))
    decreases n
  {
    if p < n - 1 {
      EvalFlip(x, y, n - 1, p, i);
    } else {
      EvalSame(x, y, n - 1, i);
    }
  }

  lemma {:induction false} EvalSame(x: seq<int>, y: seq<int>, n: nat, i: nat)
    requires |x| == |y| && n <= |x| && i < KK
    requires forall j :: 0 <= j < n ==> Odd(x[j]) == Odd(y[j])
    ensures Eval(y, n, i) <==> Eval(x, n, i)
    decreases n
  {
    if n > 0 { EvalSame(x, y, n - 1, i); }
  }

  // One step of the reduction: the term z^j is replaced by z^(j-63) + z^(j-100).
  ghost function Reduced(x: seq<int>, j: nat): (y: seq<int>)
    requires KK <= j < |x|
  {
    if Odd(x[j]) then
      var x' := x[j - (KK - LL) := ModDiff(x[j - (KK - LL)], x[j])];
      x'[j - KK := ModDiff(x'[j - KK], x[j])]
    else x
  }

  lemma ReducedKeepsSum(x: seq<int>, j: nat, i: nat)
    requires KK <= j < |x| && i < KK
    ensures Eval(Reduced(x, j), j, i) <==> Eval(x, j + 1, i)
  {
    if Odd(x[j]) {
      var x' := x[j - (KK - LL) := ModDiff(x[j - (KK - LL)], x[j])];
      EvalFlip(x, x', j, j - (KK - LL), i);
      EvalFlip(x', Reduced(x, j), j, j - KK, i);
      Reduction(j - KK, i);
    }
  }

  // The words of even index hold the parities of z^m, the others are even.
  ghost predicate IsSpread(x: seq<int>, m: nat) {
    && |x| == 2 * KK - 1
    && (forall i :: 0 <= i < |x| && i % 2 == 0 ==> (Odd(x[i]) <==> PowBit(m, i / 2)))
    && (forall i :: 0 <= i < |x| && i % 2 == 1 ==> !Odd(x[i]))
  }

  lemma {:induction false} EvalSpread(x: seq<int>, m: nat, n: nat, i: nat)
    requires IsSpread(x, m) && 1 <= n <= KK && i < KK
    ensures Eval(x, 2 * n - 1, i) <==> SpreadBit(m, n, 0, i)
  {
    if n > 1 {
      EvalSpread(x, m, n - 1, i);
      assert !Odd(x[2 * n - 3]);
      assert Odd(x[2 * n - 2]) <==> PowBit(m, n - 1);
    } else {
      assert Odd(x[0]) <==> PowBit(m, 0);
    }
  }

  // The reduction of the words |x| - 1 down to j, in this order.
  ghost function ReducedDown(x: seq<int>, j: nat): (y: seq<int>)
    requires KK <= j <= |x|
    ensures |y| == |x|
    decreases |x| - j
  {
    if j == |x| then x else Reduced(ReducedDown(x, j + 1), j)
  }

  lemma {:induction false} ReducedDownKeepsSum(x: seq<int>, j: nat, i: nat)
    requires KK <= j <= |x| && i < KK
    ensures Eval(ReducedDown(x, j), j, i) <==> Eval(x, |x|, i)
    decreases |x| - j
  {
    if j < |x| {
      ReducedDownKeepsSum(x, j + 1, i);
      ReducedKeepsSum(ReducedDown(x, j + 1), j, i);
    }
  }

  lemma {:induction false} ReducedDownWords(x: seq<int>, j: nat)
    requires KK <= j <= |x| && Words(x)
    ensures Words(ReducedDown(x, j))
    ensures forall i :: 136 <= i < |x| && |x| <= 199 ==> ReducedDown(x, j)[i] == x[i]
    decreases |x| - j
  {
    if j < |x| { ReducedDownWords(x, j + 1); }
  }

  // Squaring: spread out, then reduced, the parities of z^m are those of z^(2m).
  lemma SquaredPower(x: seq<int>, m: nat)
    requires IsSpread(x, m)
    ensures IsPower(ReducedDown(x, KK), 2 * m)
  {
    var y := ReducedDown(x, KK);
    forall i | 0 <= i < KK ensures Odd(y[i]) <==> PowBit(2 * m, i) {
      EvalSmall(y, KK, i);
      ReducedDownKeepsSum(x, KK, i);
      EvalSpread(x, m, KK, i);
      Squaring(m, i);
    }
  }

  // Multiplication by z: the words move up by one and word 99 is reduced.
  ghost function Shifted(x: seq<int>): (y: seq<int>)
    requires |x| > KK
    ensures |y| == |x|
  {
    var y := [x[KK - 1]] + x[..KK] + x[KK + 1..];
    if Odd(y[KK]) then y[LL := ModDiff(y[LL], y[KK])] else y
  }

  lemma ShiftedPower(x: seq<int>, m: nat)
    requires |x| > KK && IsPower(x, m)
    ensures IsPower(Shifted(x), m + 1)
  {
    var y := Shifted(x);
    forall i | 0 <= i < KK ensures Odd(y[i]) <==> PowBit(m + 1, i) {
      if i > 0 { assert Odd(x[i - 1]) <==> PowBit(m, i - 1); }
      assert Odd(x[KK - 1]) <==> PowBit(m, KK - 1);
    }
  }

  // ---------- ran_start, loop by loop ----------

  // Only even words above index 136, at odd indices: nothing writes them.
  ghost predicate HighOddEven(x: seq<int>) {
    |x| == 2 * KK - 1 && forall i :: 136 <= i < |x| && i % 2 == 1 ==> !Odd(x[i])
  }

  // The words doubled in index, and even words in between.
  ghost predicate Doubled(x: seq<int>, y: seq<int>) {
    && |x| == |y| == 2 * KK - 1
    && (forall i :: 0 <= i < |y| && i % 2 == 0 ==> y[i] == x[i / 2])
    && (forall i :: 0 <= i < 136 && i % 2 == 1 ==> y[i] == Evenize(y[2 * KK - 1 - i]))
    && (forall i :: 136 <= i < |x| && i % 2 == 1 ==> y[i] == x[i])
  }

  ghost function SpreadWords(x: seq<int>): (y: seq<int>)
    requires |x| == 2 * KK - 1
    ensures |y| == |x|
  {
    seq(2 * KK - 1, i requires 0 <= i < 2 * KK - 1 =>
      if i % 2 == 0 then x[i / 2] else if i < 136 then Evenize(x[(2 * KK - 1 - i) / 2]) else x[i])
  }

  lemma DoubledExactly(x: seq<int>, y: seq<int>)
    requires |x| == 2 * KK - 1
    ensures Doubled(x, y) <==> y == SpreadWords(x)
  {
    hide Evenize;
    var z := SpreadWords(x);
    forall i | 0 <= i < 136 && i % 2 == 1 ensures z[i] == Evenize(z[2 * KK - 1 - i]) {
      assert (2 * KK - 1 - i) % 2 == 0 && z[2 * KK - 1 - i] == x[(2 * KK - 1 - i) / 2];
    }
    if Doubled(x, y) {
      forall i | 0 <= i < |y| ensures y[i] == z[i] {
        if i % 2 == 1 && i < 136 { assert (2 * KK - 1 - i) % 2 == 0 && y[2 * KK - 1 - i] == x[(2 * KK - 1 - i) / 2]; }
      }
    }
  }

  lemma DoubledIsSpread(x: seq<int>, y: seq<int>, m: nat)
    requires Doubled(x, y) && IsPower(x, m) && HighOddEven(x) && Words(x)
    ensures IsSpread(y, m) && Words(y) && HighOddEven(y)
  {
    forall i | 0 <= i < |y| && i % 2 == 0
      ensures 0 <= y[i] < MM && (Odd(y[i]) <==> PowBit(m, i / 2))
    {
      assert y[i] == x[i / 2];
    }
    forall i | 0 <= i < |y| && i % 2 == 1 ensures 0 <= y[i] < MM && !Odd(y[i]) {
      if i >= 136 { assert y[i] == x[i]; } else { assert y[i] == Evenize(y[2 * KK - 1 - i]); }
    }
  }

  method SpreadOut(x: array<int>)
    requires x.Length == 2 * KK - 1
    modifies x
    ensures forall i :: 0 <= i < x.Length && i % 2 == 0 ==> x[i] == old(x[i / 2])
    ensures forall i :: 0 <= i < x.Length && i % 2 == 1 ==> x[i] == old(x[i])
  {
    var j := KK - 1;
    while j > 0
      invariant 0 <= j <= KK - 1
      invariant forall i :: 0 <= i <= j ==> x[i] == old(x[i])
      invariant forall i :: 2 * j < i < x.Length && i % 2 == 0 ==> x[i] == old(x[i / 2])
      invariant forall i :: 0 <= i < x.Length && i % 2 == 1 ==> x[i] == old(x[i])
    {
      x[j + j] := x[j];
      assert (j + j) / 2 == j && (j + j) % 2 == 0;
      assert forall i :: 2 * j - 2 < i < x.Length && i % 2 == 0 ==> i == j + j || 2 * j < i;
      j := j - 1;
    }
  }

  method FillBetween(x: array<int>)
    requires x.Length == 2 * KK - 1
    modifies x
    ensures forall i :: 0 <= i < x.Length && i % 2 == 0 ==> x[i] == old(x[i])
    ensures forall i :: 0 <= i < 136 && i % 2 == 1 ==> x[i] == Evenize(old(x[2 * KK - 1 - i]))
    ensures forall i :: 136 <= i < x.Length && i % 2 == 1 ==> x[i] == old(x[i])
  {
    var j := KK + KK - 2;
    while j > KK - LL
      invariant 62 <= j <= KK + KK - 2 && j % 2 == 0
      invariant forall i :: 0 <= i < x.Length && i % 2 == 0 ==> x[i] == old(x[i])
      invariant forall i :: 0 <= i < KK + KK - 1 - j && i % 2 == 1 ==> x[i] == Evenize(old(x[2 * KK - 1 - i]))
      invariant forall i :: 136 <= i < x.Length && i % 2 == 1 ==> x[i] == old(x[i])
    {
      x[KK + KK - 1 - j] := Evenize(x[j]);
      j := j - 2;
    }
  }

  lemma DoubledInTwoSteps(x: seq<int>, y: seq<int>, z: seq<int>)
    requires |x| == |y| == |z| == 2 * KK - 1
    requires forall i :: 0 <= i < |y| && i % 2 == 0 ==> y[i] == x[i / 2]
    requires forall i :: 0 <= i < |y| && i % 2 == 1 ==> y[i] == x[i]
    requires forall i :: 0 <= i < |z| && i % 2 == 0 ==> z[i] == y[i]
    requires forall i :: 0 <= i < 136 && i % 2 == 1 ==> z[i] == Evenize(y[2 * KK - 1 - i])
    requires forall i :: 136 <= i < |z| && i % 2 == 1 ==> z[i] == y[i]
    ensures Doubled(x, z)
  {
    forall i | 0 <= i < 136 && i % 2 == 1 ensures z[i] == Evenize(z[2 * KK - 1 - i]) {
      assert z[2 * KK - 1 - i] == y[2 * KK - 1 - i];
    }
  }

  method Double(x: array<int>)
    requires x.Length == 2 * KK - 1
    modifies x
    ensures Doubled(old(x[..]), x[..])
  {
    hide Doubled, Evenize;
    SpreadOut(x);
    ghost var y := x[..];
    FillBetween(x);
    DoubledInTwoSteps(old(x[..]), y, x[..]);
  }

  method Reduce(x: array<int>)
    requires x.Length == 2 * KK - 1
    modifies x
    ensures x[..] == ReducedDown(old(x[..]), KK)
  {
    var j := KK + KK - 2;
    while j >= KK
      invariant KK - 1 <= j <= KK + KK - 2
      invariant x[..] == ReducedDown(old(x[..]), j + 1)
    {
      ghost var y := x[..];
      if Odd(x[j]) {
        x[j - (KK - LL)] := ModDiff(x[j - (KK - LL)], x[j]);
        x[j - KK] := ModDiff(x[j - KK], x[j]);
      }
      assert x[..] == Reduced(y, j);
      j := j - 1;
    }
  }

  method MoveUp(x: array<int>)
    requires x.Length > KK
    modifies x
    ensures forall i :: 1 <= i <= KK ==> x[i] == old(x[i - 1])
    ensures forall i :: KK < i < x.Length ==> x[i] == old(x[i])
  {
    var j := KK;
    while j > 0
      invariant 0 <= j <= KK
      invariant forall i :: 0 <= i < j ==> x[i] == old(x[i])
      invariant forall i :: j < i <= KK ==> x[i] == old(x[i - 1])
      invariant forall i :: KK < i < x.Length ==> x[i] == old(x[i])
    {
      x[j] := x[j - 1];
      j := j - 1;
    }
  }

  lemma MovedUp(x: seq<int>, y: seq<int>)
    requires |x| == |y| && |x| > KK
    requires forall i :: 1 <= i <= KK ==> y[i] == x[i - 1]
    requires forall i :: KK < i < |x| ==> y[i] == x[i]
    ensures y[0 := y[KK]] == [x[KK - 1]] + x[..KK] + x[KK + 1..]
  {
  }

  method Shift(x: array<int>)
    requires x.Length == 2 * KK - 1
    modifies x
    ensures x[..] == Shifted(old(x[..]))
  {
    MoveUp(x);
    MovedUp(old(x[..]), x[..]);
    ghost var y := x[..];
    x[0] := x[KK];
    assert x[..] == y[0 := y[KK]];
    ghost var z := x[..];
    if Odd(x[KK]) {
      x[LL] := ModDiff(x[LL], x[KK]);
      assert x[..] == z[LL := ModDiff(z[LL], z[KK])];
    }
  }

  lemma OneOddIsZ(x: seq<int>)
    requires |x| == 2 * KK - 1 && Odd(x[1])
    requires forall i :: 0 <= i < |x| && i != 1 ==> !Odd(x[i])
    ensures HighOddEven(x) && IsPower(x, 1)
  {
    forall i | 0 <= i < KK ensures Odd(x[i]) <==> PowBit(1, i) {
      SmallPower(1, i);
    }
  }

  lemma FirstOdd(y: seq<int>)
    requires |y| == 2 * KK - 1 && forall i :: 0 <= i < |y| ==> 0 <= y[i] < MM && y[i] % 2 == 0
    ensures var x := y[1 := y[1] + 1]; Words(x) && HighOddEven(x) && IsPower(x, 1)
  {
    hide HighOddEven, IsPower;
    OneOddIsZ(y[1 := y[1] + 1]);
  }

  // ---------- the words of a seed ----------

  const ALLONES: nat := 0x1FFF_FFFF

  // Word j before the first round, apart from the 1 that word 1 gets: bits 1
  // to 29 of seed + 2 rotated j places to the left.
  ghost function SeedWord(seed: int, j: nat): (r: int) {
    var h := (seed + 2) % MM / 2;
    2 * if h == ALLONES then h else h * Pow2(j) % ALLONES
  }

  lemma Modulo(k: nat, r: nat)
    requires r < ALLONES
    ensures (k * 0x1FFF_FFFF + r) % ALLONES == r
  {
  }

  lemma DoubleModulo(x: nat)
    ensures var r := x % ALLONES; 2 * x % ALLONES == if 2 * r < ALLONES then 2 * r else 2 * r - ALLONES
  {
    var k, r := x / ALLONES, x % ALLONES;
    assert x == k * 0x1FFF_FFFF + r;
    if 2 * r < ALLONES { Modulo(2 * k, 2 * r); } else { Modulo(2 * k + 1, 2 * r - ALLONES); }
  }

  lemma FirstWord(seed: int)
    ensures SeedWord(seed, 0) == Evenize(seed + 2)
  {
    var m := (seed + 2) % MM;
    assert m == 2 * (m / 2) + m % 2;
    SmallRest(m / 2);
  }

  lemma SmallRest(h: nat)
    ensures h < 0x1FFF_FFFF ==> h * Pow2(0) % 0x1FFF_FFFF == h
  {
    assert Pow2(0) == 1 && h * 1 == h;
  }

  // Each word is the one before doubled, with the top bit coming in below.
  lemma NextWord(seed: int, j: nat)
    ensures 0 <= SeedWord(seed, j) < MM && SeedWord(seed, j) % 2 == 0
    ensures SeedWord(seed, j + 1) ==
      var d := 2 * SeedWord(seed, j); if d >= MM then d - (MM - 2) else d
  {
    hide Pow2;
    var h := (seed + 2) % MM / 2;
    if h != ALLONES {
      PowNext(h, j);
      DoubleModulo(h * Pow2(j));
    }
  }

  lemma PowNext(h: nat, j: nat)
    ensures h * Pow2(j + 1) == 2 * (h * Pow2(j))
  {
    assert Pow2(j + 1) == 2 * Pow2(j);
  }

  // All 199 words before the first round.
  ghost function InitialState(seed: int): (x: seq<int>)
    ensures |x| == 2 * KK - 1
  {
    seq(2 * KK - 1, i requires 0 <= i < 2 * KK - 1 =>
      if i >= KK then 0 else if i == 1 then SeedWord(seed, 1) + 1 else SeedWord(seed, i))
  }

  lemma InitialPower(seed: int)
    ensures Words(InitialState(seed)) && HighOddEven(InitialState(seed)) && IsPower(InitialState(seed), 1)
  {
    hide HighOddEven, IsPower, SeedWord;
    var x := InitialState(seed);
    var y := x[1 := SeedWord(seed, 1)];
    forall i | 0 <= i < |y| ensures 0 <= y[i] < MM && y[i] % 2 == 0 { if i < KK { NextWord(seed, i); } }
    FirstOdd(y);
    assert y[1 := y[1] + 1] == x;
  }

  method InitialWords(seed: int) returns (x: array<int>)
    ensures fresh(x) && x[..] == InitialState(seed)
  {
    hide SeedWord, Evenize;
    x := new int[KK + KK - 1];
    var ss := Evenize(seed + 2);
    FirstWord(seed);
    var j := 0;
    while j < KK
      invariant 0 <= j <= KK && ss == SeedWord(seed, j)
      invariant forall i :: 0 <= i < j ==> x[i] == SeedWord(seed, i)
    {
      NextWord(seed, j);
      x[j] := ss;
      ss := ss * 2;
      if ss >= MM {
        ss := ss - (MM - 2);
      }
      j := j + 1;
    }
    while j < KK + KK - 1
      invariant KK <= j <= KK + KK - 1
      invariant forall i :: 0 <= i < j ==> x[i] == if i < KK then SeedWord(seed, i) else 0
    {
      x[j] := 0;
      j := j + 1;
    }
    x[1] := x[1] + 1;
  }

  // One pass of the seeding loop.
  ghost function Round(x: seq<int>, odd: bool): (y: seq<int>)
    requires |x| == 2 * KK - 1
    ensures |y| == |x|
  {
    var y := ReducedDown(SpreadWords(x), KK);
    if odd then Shifted(y) else y
  }

  // It squares, and multiplies by z for an odd ss.
  lemma RoundPower(x: seq<int>, odd: bool, m: nat)
    requires |x| == 2 * KK - 1 && Words(x) && HighOddEven(x) && IsPower(x, m)
    ensures Words(Round(x, odd)) && HighOddEven(Round(x, odd))
    ensures IsPower(Round(x, odd), if odd then 2 * m + 1 else 2 * m)
  {
    hide ReducedDown, IsPower, IsSpread, Doubled, HighOddEven, Words, Shifted, SpreadWords;
    var y := SpreadWords(x);
    DoubledExactly(x, y);
    DoubledIsSpread(x, y, m);
    SquaredPower(y, m);
    ReducedWords(y);
    if odd {
      ShiftedPower(ReducedDown(y, KK), 2 * m);
      ShiftedWords(ReducedDown(y, KK));
    }
  }

  method SeedRound(x: array<int>, ss: int)
    requires x.Length == 2 * KK - 1
    modifies x
    ensures x[..] == Round(old(x[..]), Odd(ss))
  {
    hide ReducedDown, Doubled, Shifted, SpreadWords;
    Double(x);
    DoubledExactly(old(x[..]), x[..]);
    Reduce(x);
    if Odd(ss) {
      Shift(x);
    }
  }

  lemma ReducedWords(x: seq<int>)
    requires Words(x) && HighOddEven(x)
    ensures Words(ReducedDown(x, KK)) && HighOddEven(ReducedDown(x, KK))
  {
    ReducedDownWords(x, KK);
  }

  lemma ShiftedWords(x: seq<int>)
    requires Words(x) && HighOddEven(x)
    ensures Words(Shifted(x)) && HighOddEven(Shifted(x))
  {
  }

  // The bits of ss after those of m, the lowest first.
  ghost function Appended(ss: nat, m: nat): nat {
    if ss == 0 then m else Appended(ss / 2, 2 * m + ss % 2)
  }

  ghost function TimesPowerOfTwo(m: nat, t: nat): nat
    decreases t
  {
    if t == 0 then m else TimesPowerOfTwo(2 * m, t - 1)
  }

  // The power of z that ran_start computes: a 1, the bits of the seed from the
  // lowest to the highest, and 69 zeros.
  ghost function SeedPower(seed: int): nat {
    TimesPowerOfTwo(Appended(seed % MM, 1), TT - 1)
  }

  // The passes that are left with ss and t.
  ghost function Rounds(x: seq<int>, ss: nat, t: nat): (y: seq<int>)
    requires |x| == 2 * KK - 1
    ensures |y| == |x|
    decreases ss + t
  {
    if t == 0 then x
    else if ss != 0 then Rounds(Round(x, Odd(ss)), ss / 2, t)
    else Rounds(Round(x, false), 0, t - 1)
  }

  lemma {:induction false} RoundsPower(x: seq<int>, ss: nat, t: nat, m: nat)
    requires |x| == 2 * KK - 1 && Words(x) && HighOddEven(x) && IsPower(x, m) && (ss != 0 ==> t > 0)
    ensures Words(Rounds(x, ss, t)) && IsPower(Rounds(x, ss, t), TimesPowerOfTwo(Appended(ss, m), t))
    decreases ss + t
  {
    hide IsPower, HighOddEven, Words, Round;
    if t > 0 {
      RoundPower(x, Odd(ss), m);
      if ss != 0 {
        RoundsPower(Round(x, Odd(ss)), ss / 2, t, 2 * m + ss % 2);
      } else {
        RoundsPower(Round(x, false), 0, t - 1, 2 * m);
      }
    }
  }

  // The 100 words that ran_start computes from a seed.
  ghost function SeedState(seed: int): (x: seq<int>)
    ensures |x| == KK
  {
    Rounds(InitialState(seed), seed % MM, TT - 1)[..KK]
  }

  // They are words below 2^30, one of them odd, whose parities are those of
  // the seed's power of z.
  lemma SeedStatePower(seed: int)
    ensures Words(SeedState(seed)) && HasOdd(SeedState(seed)) && IsPower(SeedState(seed), SeedPower(seed))
  {
    hide IsPower, HighOddEven, HasOdd, Rounds, InitialState;
    InitialPower(seed);
    RoundsPower(InitialState(seed), seed % MM, TT - 1, 1);
    var x := Rounds(InitialState(seed), seed % MM, TT - 1);
    PowerHasOdd(x, SeedPower(seed));
    PowerPrefix(x, SeedPower(seed));
  }

  // ran_start up to the copy into ran_x.
  method SeedWords(seed: int) returns (x: array<int>)
    ensures fresh(x) && x.Length == 2 * KK - 1 && x[..KK] == SeedState(seed)
  {
    hide Round, InitialState;
    x := InitialWords(seed);
    var ss := seed % MM;
    var t := TT - 1;
    while t != 0
      invariant ss >= 0 && 0 <= t < TT && fresh(x) && x.Length == 2 * KK - 1
      invariant Rounds(x[..], ss, t) == Rounds(InitialState(seed), seed % MM, TT - 1)
      decreases ss + t
    {
      SeedRound(x, ss);
      if ss != 0 {
        ss := ss / 2;
      } else {
        t := t - 1;
      }
    }
  }

  lemma PowerPrefix(x: seq<int>, m: nat)
    requires IsPower(x, m)
    ensures IsPower(x[..KK], m)
  {
  }

  lemma PowerHasOdd(x: seq<int>, m: nat)
    requires IsPower(x, m)
    ensures HasOdd(x[..KK])
  {
    var i := PowerNotZero(m);
    assert Odd(x[..KK][i]);
  }

  // ---------- the generator ----------

  lemma RotatedHasOdd(x: seq<int>, r: seq<int>)
    requires |x| == KK && |r| == KK && HasOdd(x) && Words(x)
    requires forall i :: 0 <= i < LL ==> r[i + KK - LL] == x[i]
    requires forall i :: LL <= i < KK ==> r[i - LL] == x[i]
    ensures HasOdd(r) && Words(r)
  {
    var i :| 0 <= i < KK && Odd(x[i]);
    assert Odd(r[if i < LL then i + KK - LL else i - LL]);
    forall k | 0 <= k < KK ensures 0 <= r[k] < MM {
      if k >= KK - LL { assert r[(k - (KK - LL)) + KK - LL] == x[k - (KK - LL)]; }
      else { assert r[(k + LL) - LL] == x[k + LL]; }
    }
  }

  const BATCH: nat := 1009

  class Generator {
    const ran_x: array<int>
    const aa: array<int>
    var rand_index: int
    // The state the seeding left, and how many batches were drawn before the
    // one now in aa.
    ghost var start: seq<int>
    ghost var batch: nat

    ghost predicate Shape()
      reads this
    {
      ran_x.Length == KK && aa.Length == 2000 && ran_x != aa
    }

    // aa holds batch number batch of the sequence from start, and ran_x the
    // 100 terms after it.
    ghost predicate Valid()
      reads this, ran_x, aa
    {
      && Shape() && |start| == KK && Words(start) && HasOdd(start)
      && 0 <= rand_index <= 100
      && (forall j :: 0 <= j < BATCH ==> aa[j] == X(start, BATCH * batch + j))
      && ran_x[..] == Window(start, BATCH * batch + BATCH)
    }

    constructor ()
      ensures Shape() && fresh(ran_x) && fresh(aa) && rand_index == 0
    {
      ran_x := new int[KK](_ => 0);
      aa := new int[2000](_ => 0);
      rand_index := 0;
      start, batch := [], 0;
    }

    // ran_array: n terms of the sequence into aa, the next 100 into ran_x.
    method RanArray(n: nat)
      requires Shape() && KK <= n <= aa.Length
      modifies ran_x, aa
      ensures forall j :: 0 <= j < n ==> aa[j] == X(old(ran_x[..]), j)
      ensures ran_x[..] == Window(old(ran_x[..]), n)
      ensures old(Words(ran_x[..]) && HasOdd(ran_x[..])) ==> Words(ran_x[..]) && HasOdd(ran_x[..])
    {
      ghost var s := ran_x[..];
      if Words(s) && HasOdd(s) { OddStays(s, n); }
      hide HasOdd, Words;
      var j := 0;
      while j < KK
        invariant 0 <= j <= KK
        invariant ran_x[..] == s
        invariant forall k :: 0 <= k < j ==> aa[k] == s[k]
      {
        aa[j] := ran_x[j];
        j := j + 1;
      }
      while j < n
        invariant KK <= j <= n
        invariant ran_x[..] == s
        invariant forall k :: 0 <= k < j ==> aa[k] == X(s, k)
      {
        aa[j] := ModDiff(aa[j - KK], aa[j - LL]);
        j := j + 1;
      }
      NextState(n, s);
    }

    method NextState(n: nat, ghost s: seq<int>)
      requires Shape() && KK <= n <= aa.Length && |s| == KK
      requires forall k :: 0 <= k < n ==> aa[k] == X(s, k)
      modifies ran_x
      ensures ran_x[..] == Window(s, n)
    {
      var i, j := 0, n;
      while i < LL
        invariant 0 <= i <= LL && j == n + i
        invariant forall k :: 0 <= k < i ==> ran_x[k] == X(s, n + k)
      {
        ran_x[i] := ModDiff(aa[j - KK], aa[j - LL]);
        i, j := i + 1, j + 1;
      }
      while i < KK
        invariant LL <= i <= KK && j == n + i
        invariant forall k :: 0 <= k < i ==> ran_x[k] == X(s, n + k)
      {
        ran_x[i] := ModDiff(aa[j - KK], ran_x[i - LL]);
        i, j := i + 1, j + 1;
      }
    }

    // ran_start
    method RanStart(seed: int)
      requires Shape()
      modifies this`rand_index, this`start, this`batch, ran_x, aa
      ensures Valid() && rand_index == 0 && batch == 0
      ensures forall i :: 0 <= i < 37 ==> start[i + 63] == SeedState(seed)[i]
      ensures forall i :: 37 <= i < 100 ==> start[i - 37] == SeedState(seed)[i]
    {
      hide SeedState, SeedPower, IsPower;
      var x := SeedWords(seed);
      SeedStatePower(seed);
      CopyWords(x);
      start, batch := ran_x[..], 0;
      RanArray(BATCH);
      rand_index := 0;
    }

    method CopyWords(x: array<int>)
      requires Shape() && x != ran_x && x.Length == 2 * KK - 1 && Words(x[..KK]) && HasOdd(x[..KK])
      modifies ran_x
      ensures Words(ran_x[..]) && HasOdd(ran_x[..])
      ensures forall i :: 0 <= i < LL ==> ran_x[i + KK - LL] == x[i]
      ensures forall i :: LL <= i < KK ==> ran_x[i - LL] == x[i]
    {
      var j := 0;
      while j < LL
        invariant 0 <= j <= LL
        invariant forall i :: 0 <= i < j ==> ran_x[i + KK - LL] == x[i]
      {
        ran_x[j + KK - LL] := x[j];
        j := j + 1;
      }
      while j < KK
        invariant LL <= j <= KK
        invariant forall i :: 0 <= i < LL ==> ran_x[i + KK - LL] == x[i]
        invariant forall i :: LL <= i < j ==> ran_x[i - LL] == x[i]
      {
        ran_x[j - LL] := x[j];
        j := j + 1;
      }
      RotatedHasOdd(x[..KK], ran_x[..]);
    }

    // The number that nextRand has returned last.
    ghost function Last(): int
      requires |start| == KK && rand_index >= 0
      reads this
    {
      X(start, BATCH * batch + rand_index)
    }

    // nextRand
    method NextRand() returns (r: int)
      requires Valid()
      modifies this`rand_index, this`batch, ran_x, aa
      ensures Valid()
      ensures if old(rand_index) < 100 then rand_index == old(rand_index) + 1 && batch == old(batch)
              else rand_index == 0 && batch == old(batch) + 1
      ensures r == X(start, BATCH * batch + rand_index) == Last() && 0 <= r < MM
    {
      rand_index := rand_index + 1;
      if rand_index > 100 {
        NextBatch();
        rand_index := 0;
      }
      r := aa[rand_index];
      TermInRange(start, BATCH * batch + rand_index);
    }

    method NextBatch()
      requires Shape() && |start| == KK && ran_x[..] == Window(start, BATCH * batch + BATCH)
      modifies this`batch, ran_x, aa
      ensures batch == old(batch) + 1
      ensures forall j :: 0 <= j < BATCH ==> aa[j] == X(start, BATCH * batch + j)
      ensures ran_x[..] == Window(start, BATCH * batch + BATCH)
    {
      ghost var s, n := ran_x[..], BATCH * batch + BATCH;
      RanArray(BATCH);
      batch := batch + 1;
      BatchContinues(start, n);
    }
  }

  lemma BatchContinues(start: seq<int>, n: nat)
    requires |start| == KK
    ensures forall j :: 0 <= j < BATCH ==> X(Window(start, n), j) == X(start, n + j)
    ensures Window(Window(start, n), BATCH) == Window(start, n + BATCH)
  {
    forall j | 0 <= j < BATCH ensures X(Window(start, n), j) == X(start, n + j) {
      Continues(start, n, j);
    }
    forall i | 0 <= i < KK ensures Window(Window(start, n), BATCH)[i] == Window(start, n + BATCH)[i] {
      Continues(start, n, BATCH + i);
    }
  }
}
