/** How long the powers of z modulo z^100 + z^37 + 1 take to repeat. */
module OrderOfZ {
  import opened Bits
  import opened PolynomialWords
  import opened PowersOfZ

  // ---------- primes ----------

  ghost predicate Prime(q: nat) {
    q > 1 && forall a: nat, b: nat :: a * b == q ==> a == 1 || b == 1
  }

  // None of the n odd numbers from a on divides q.
  ghost predicate NoDivisor(q: nat, a: nat, n: nat)
    requires a > 0
    decreases n
  {
    n == 0 || (q % a != 0 && NoDivisor(q, a + 2, n - 1))
  }

  lemma {:induction false} Excluded(q: nat, a: nat, n: nat, b: nat)
    requires a > 0 && NoDivisor(q, a, n) && a <= b < a + 2 * n && a % 2 == b % 2
    ensures q % b != 0
    decreases n
  {
    if a < b { Excluded(q, a + 2, n - 1, b); }
  }

  lemma AtLeast(a: nat, e: int)
    ensures e >= 1 ==> a * e >= a
    ensures e <= -1 ==> a * e + a <= 0
  {
    assert a * e == a + a * (e - 1);
    assert a * e + a == a * (e + 1);
  }

  lemma NoRemainder(a: nat, b: nat)
    requires a > 0
    ensures a * b % a == 0
  {
    var d, r := a * b / a, a * b % a;
    assert r == a * (b - d);
    AtLeast(a, b - d);
  }

  lemma OddFactor(a: nat, b: nat)
    requires a * b % 2 == 1
    ensures a % 2 == 1
  {
    assert a * b == 2 * (a / 2 * b) + a % 2 * b;
  }

  lemma SmallFactor(a: nat, b: nat, k: nat)
    requires a >= k && a * b < k * k
    ensures b < k
  {
    if b >= k {
      Products(a, b, k);
      assert false;
    }
  }

  lemma Products(a: nat, b: nat, k: nat)
    requires a >= k && b >= k
    ensures a * b >= k * k
  {
    assert a * b == k * k + (a - k) * b + k * (b - k);
  }

  lemma TrialDivision(q: nat, n: nat)
    requires q > 1 && q % 2 == 1 && NoDivisor(q, 3, n) && q < (2 * n + 3) * (2 * n + 3)
    ensures Prime(q)
  {
    forall a: nat, b: nat | a * b == q ensures a == 1 || b == 1 {
      OddFactor(a, b);
      assert b * a == q;
      OddFactor(b, a);
      if a >= 2 * n + 3 {
        SmallFactor(a, b, 2 * n + 3);
        NoRemainder(b, a);
        if b > 1 { Excluded(q, 3, n, b); }
      } else {
        NoRemainder(a, b);
        if a > 1 { Excluded(q, 3, n, a); }
      }
    }
  }

  lemma Prime8101()
    ensures Prime(8101)
  {
    assert NoDivisor(8101, 75, 8);
    assert NoDivisor(8101, 59, 16);
    assert NoDivisor(8101, 43, 24);
    assert NoDivisor(8101, 27, 32);
    assert NoDivisor(8101, 11, 40);
    TrialDivision(8101, 44);
  }

  lemma Prime4051()
    ensures Prime(4051)
  {
    assert NoDivisor(4051, 51, 7);
    assert NoDivisor(4051, 35, 15);
    assert NoDivisor(4051, 19, 23);
    TrialDivision(4051, 31);
  }

  lemma Prime101()
    ensures Prime(101)
  {
    TrialDivision(101, 4);
  }

  // A prime that divides a product divides one of the factors.
  lemma {:induction false} Euclid(q: nat, a: nat, b: nat, c: nat) returns (d: nat)
    requires Prime(q) && 0 < a < q && a * b == q * c
    ensures b == q * d
    decreases a
  {
    if a == 1 {
      d := c;
    } else {
      var t, r := q / a, q % a;
      assert q == a * t + r;
      NotWhole(q, a);
      Descent(q, a, b, c, t, r);
      d := Euclid(q, r, b, b - t * c);
    }
  }

  lemma NotWhole(q: nat, a: nat)
    requires Prime(q) && 1 < a < q
    ensures q % a > 0
  {
    assert a * (q / a) + q % a == q;
  }

  lemma Descent(q: nat, a: nat, b: nat, c: nat, t: nat, r: nat)
    requires a * b == q * c && q == a * t + r && q > 0
    ensures b >= t * c && r * b == q * (b - t * c)
  {
    calc {
      r * b;
    ==
      q * b - (a * t) * b;
    ==
      q * b - t * (a * b);
    ==
      q * b - q * (t * c);
    ==
      q * (b - t * c);
    }
    AtLeast(q, b - t * c);
  }

  lemma Reduced(q: nat, a: nat, b: nat, c: nat, t: nat, r: nat)
    requires a * b == q * c && a == q * t + r && q > 0
    ensures c >= t * b && r * b == q * (c - t * b)
  {
    assert r * b == a * b - (q * t) * b;
    assert (q * t) * b == q * (t * b);
    AtLeast(q, c - t * b);
  }

  lemma PrimeFactor(q: nat, a: nat, b: nat, c: nat) returns (d: nat)
    requires Prime(q) && a % q != 0 && a * b == q * c
    ensures b == q * d
  {
    var t, r := a / q, a % q;
    assert a == q * t + r;
    Reduced(q, a, b, c, t, r);
    d := Euclid(q, r, b, c - t * b);
  }

  // ---------- the order of z ----------

  lemma {:induction false} ValCancels(a: nat, b: nat)
    requires a <= b && Val(a) == Val(b)
    ensures Val(b - a) == Val(0)
  {
    hide Val, Small, TimesZ;
    if a > 0 {
      ValNext(a - 1);
      ValNext(b - 1);
      NextCancels(Val(a - 1), Val(b - 1));
      ValCancels(a - 1, b - 1);
    }
  }

  lemma {:induction false} ValShifts(n: nat, k: nat)
    requires Val(n) == Val(0)
    ensures Val(n + k) == Val(k)
  {
    hide Val, Small, TimesZ;
    if k > 0 {
      ValShifts(n, k - 1);
      ValNext(k - 1);
      ValNext(n + k - 1);
    }
  }

  lemma {:induction false} ValMultiple(n: nat, j: nat, k: nat)
    requires Val(n) == Val(0)
    ensures Val(n * j + k) == Val(k)
    decreases j
  {
    hide Val;
    if j > 0 {
      ValMultiple(n, j - 1, k);
      ValShifts(n, n * (j - 1) + k);
      assert n * j + k == n + (n * (j - 1) + k);
    }
  }

  // The least exponent at which the powers of z come back to 1.
  ghost predicate Order(n: nat) {
    n > 0 && Val(n) == Val(0) && forall k :: 0 < k < n ==> Val(k) != Val(0)
  }

  lemma Least(k: nat, n: nat) returns (r: nat)
    requires 0 < k <= n && Val(n) == Val(0) && forall j :: 0 < j < k ==> Val(j) != Val(0)
    ensures Order(r)
    decreases n - k
  {
    if Val(k) == Val(0) { r := k; } else { r := Least(k + 1, n); }
  }

  lemma OrderDivides(n: nat, k: nat)
    requires Order(n) && Val(k) == Val(0)
    ensures k == n * (k / n)
  {
    hide Val;
    assert k == n * (k / n) + k % n;
    ValMultiple(n, k / n, k % n);
  }

  const FULL: nat := 0xF_FFFF_FFFF_FFFF_FFFF_FFFF_FFFF

  lemma OrderExists() returns (n: nat)
    ensures Order(n)
  {
    hide Val;
    FullPeriod();
    n := Least(1, FULL);
  }

  // z^(2^100) is z.
  lemma FullPeriod()
    ensures Val(FULL) == Val(0)
  {
    hide Val;
    FullPower();
    ValZero();
    FirstPower();
    ValCancels(1, 0x10_0000_0000_0000_0000_0000_0000);
  }

  lemma FirstPower()
    ensures Val(1) == 2
  {
    hide Val;
    ValZero();
    ValNext(0);
  }

  lemma Divided(q: nat, x: nat, y: nat)
    requires q > 0 && q * x == q * y
    ensures x == y
  {
    assert q * (x - y) == 0;
    AtLeast(q, x - y);
  }

  lemma NotInRest(n: nat, q: nat, c: nat, e: nat)
    requires Order(n) && q > 0 && n * e == q * c && Val(c) != Val(0)
    ensures e % q != 0
  {
    hide Val;
    if e % q == 0 {
      var f := e / q;
      assert n * (q * f) == q * (n * f);
      Divided(q, n * f, c);
      ValMultiple(n, f, 0);
      assert false;
    }
  }

  // A prime factor q of 2^100 - 1 divides the order if z to the power of the
  // rest is not 1.
  lemma FactorOfOrder(n: nat, q: nat, c: nat) returns (d: nat)
    requires Order(n) && Prime(q) && FULL == q * c && Val(c) != Val(0)
    ensures n == q * d
  {
    hide Val;
    FullPeriod();
    OrderDivides(n, FULL);
    NotInRest(n, q, c, FULL / n);
    d := PrimeFactor(q, FULL / n, n, c);
  }

  lemma Factor8101(n: nat) returns (d: nat)
    requires Order(n)
    ensures n == 8101 * d
  {
    hide Val, Prime, Order;
    Without8101();
    ValZero();
    Prime8101();
    d := FactorOfOrder(n, 8101, 0x81_7016_C0B3_FFDF_A3FA_4FD3);
  }

  lemma Factor4051(n: nat) returns (d: nat)
    requires Order(n)
    ensures n == 4051 * d
  {
    hide Val, Prime, Order;
    Without4051();
    ValZero();
    Prime4051();
    d := FactorOfOrder(n, 4051, 0x102_D7FF_7E94_0040_B5FF_DFA5);
  }

  lemma Factor101(n: nat) returns (d: nat)
    requires Order(n)
    ensures n == 101 * d
  {
    hide Val, Prime, Order;
    Without101();
    ValZero();
    Prime101();
    d := FactorOfOrder(n, 101, 0x288D_F0CA_C5B3_F5DC_83CD_4E93);
  }

  // The order of z is more than 2^31.
  lemma LongOrder(n: nat)
    requires Order(n)
    ensures n > 0x8000_0000
  {
    hide Val, Prime;
    var a := Factor8101(n);
    var b := Factor4051(n);
    var c := Factor101(n);
    Prime4051();
    Prime101();
    var d := PrimeFactor(4051, 8101, a, b);
    var e := PrimeFactor(101, 8101 * 4051, d, c);
    assert n == 8101 * (4051 * (101 * e));
  }

  // ---------- no two seeds agree ----------

  lemma OddOrder(n: nat)
    requires Order(n)
    ensures n % 2 == 1
  {
    hide Val;
    FullPeriod();
    OrderDivides(n, FULL);
    OddFactor(n, FULL / n);
  }

  lemma {:induction false} WithoutTwos(n: nat, x: nat, t: nat, e: nat) returns (f: nat)
    requires n % 2 == 1 && x * Pow2(t) == n * e
    ensures x == n * f
    decreases t
  {
    if t == 0 {
      f := e;
    } else {
      assert x * Pow2(t) == 2 * (x * Pow2(t - 1));
      EvenFactor(n, e, x * Pow2(t - 1));
      f := WithoutTwos(n, x, t - 1, e / 2);
    }
  }

  lemma EvenFactor(n: nat, e: nat, y: nat)
    requires n % 2 == 1 && n * e == 2 * y
    ensures e % 2 == 0 && n * (e / 2) == y
  {
    assert n * e == 2 * (n / 2 * e) + e;
    assert n * (2 * (e / 2)) == 2 * (n * (e / 2));
  }

  // z^(x * 2^t) is not 1 for an x below 2^31.
  lemma NoRepeat(x: nat, t: nat)
    requires 0 < x < 0x8000_0000
    ensures Val(x * Pow2(t)) != Val(0)
  {
    hide Val, Pow2;
    if Val(x * Pow2(t)) == Val(0) {
      var n := OrderExists();
      LongOrder(n);
      OddOrder(n);
      OrderDivides(n, x * Pow2(t));
      var f := WithoutTwos(n, x, t, x * Pow2(t) / n);
      AtLeast(n, f);
      assert false;
    }
  }

  // Powers of z with the same coefficients.
  lemma SamePower(a: nat, b: nat)
    requires a <= b && forall i {:trigger PowBit(a, i)} :: 0 <= i < KK ==> (PowBit(a, i) <==> PowBit(b, i))
    ensures Val(b - a) == Val(0)
  {
    SamePacked(a, b, 0);
    ValCancels(a, b);
  }
}
