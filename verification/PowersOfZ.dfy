/** Powers of z modulo z^100 + z^37 + 1 over the field with two elements, as
    bit vectors: the arithmetic behind the seeding of the generator in
    kernel/random.c. */
module PowersOfZ {
  const KK: nat := 100
  const LL: nat := 37

  // Coefficient i of z^k reduced modulo z^100 + z^37 + 1.
  ghost predicate PowBit(k: nat, i: nat)
    requires i < KK
    decreases k
  {
    if k == 0 then i == 0
    else if i == 0 then PowBit(k - 1, KK - 1)
    else if i == LL then PowBit(k - 1, LL - 1) != PowBit(k - 1, KK - 1)
    else PowBit(k - 1, i - 1)
  }

  // Below degree 100 nothing is reduced.
  lemma {:induction false} SmallPower(k: nat, i: nat)
    requires k < KK && i < KK
    ensures PowBit(k, i) <==> i == k
  {
    if k > 0 {
      SmallPower(k - 1, KK - 1);
      if i > 0 { SmallPower(k - 1, i - 1); }
    }
  }

  // z^(k+100) == z^(k+37) + z^k.
  lemma {:induction false} Reduction(k: nat, i: nat)
    requires i < KK
    ensures PowBit(k + KK, i) <==> (PowBit(k + LL, i) != PowBit(k, i))
    decreases k
  {
    if k == 0 {
      SmallPower(KK - 1, KK - 1);
      SmallPower(KK - 1, LL - 1);
      if i > 0 { SmallPower(KK - 1, i - 1); }
      SmallPower(LL, i);
    } else {
      Reduction(k - 1, KK - 1);
      Reduction(k - 1, LL - 1);
      if i > 0 { Reduction(k - 1, i - 1); }
    }
  }

  // No power of z is zero: z can be divided out again.
  lemma {:induction false} PowerNotZero(k: nat) returns (i: nat)
    ensures i < KK && PowBit(k, i)
  {
    if k == 0 {
      i := 0;
    } else {
      var p := PowerNotZero(k - 1);
      i := if PowBit(k - 1, KK - 1) then 0 else p + 1;
    }
  }

  // ---------- squaring ----------

  // Coefficient i of the sum of z^(2j+s) over the j < n with bit j of z^m set.
  ghost predicate SpreadBit(m: nat, n: nat, s: nat, i: nat)
    requires n <= KK && i < KK
    decreases n
  {
    n > 0 && (SpreadBit(m, n - 1, s, i) != (PowBit(m, n - 1) && PowBit(2 * (n - 1) + s, i)))
  }

  // Multiplying every term by z multiplies the sum by z.
  lemma {:induction false} SpreadTimesZ(m: nat, n: nat, s: nat, i: nat)
    requires n <= KK && i < KK
    ensures SpreadBit(m, n, s + 1, i) <==>
      (if i == 0 then SpreadBit(m, n, s, KK - 1)
       else if i == LL then SpreadBit(m, n, s, LL - 1) != SpreadBit(m, n, s, KK - 1)
       else SpreadBit(m, n, s, i - 1))
    decreases n
  {
    if n > 0 {
      SpreadTimesZ(m, n - 1, s, i);
    }
  }

  // Sum over the bits of z^(m+1), by the bits of z^m shifted up by one.
  lemma {:induction false} SpreadOfNext(m: nat, n: nat, i: nat)
    requires n < KK && i < KK
    ensures SpreadBit(m + 1, n + 1, 0, i) <==>
      ((SpreadBit(m, n, 2, i) != (PowBit(m, KK - 1) && PowBit(0, i)))
       != (n >= LL && PowBit(m, KK - 1) && PowBit(2 * LL, i)))
    decreases n
  {
    if n > 0 {
      SpreadOfNext(m, n - 1, i);
      assert 2 * (n - 1) + 2 == 2 * n + 0;
    }
  }

  lemma DoubleReduction(i: nat)
    requires i < KK
    ensures PowBit(2 * KK, i) <==> (PowBit(2 * LL, i) != PowBit(0, i))
  {
    Reduction(KK, i);
    Reduction(LL, i);
    Reduction(0, i);
  }

  lemma {:induction false} SpreadOfOne(n: nat, i: nat)
    requires 1 <= n <= KK && i < KK
    ensures SpreadBit(0, n, 0, i) <==> PowBit(0, i)
  {
    if n > 1 { SpreadOfOne(n - 1, i); }
  }

  // Squaring z^m by doubling every exponent gives z^(2m).
  lemma {:induction false} Squaring(m: nat, i: nat)
    requires i < KK
    ensures SpreadBit(m, KK, 0, i) <==> PowBit(2 * m, i)
    decreases m, 0
  {
    if m == 0 {
      SpreadOfOne(KK, i);
    } else {
      SquareTimesZ(m - 1, i);
      if i > 0 { SquareTimesZ(m - 1, i - 1); }
      SquareTimesZ(m - 1, LL - 1);
      SquareTimesZ(m - 1, KK - 1);
      SpreadTimesZ(m - 1, KK, 1, i);
      assert SpreadBit(m - 1, KK, 2, i) <==> PowBit(2 * m, i);
      SpreadOfNext(m - 1, KK - 1, i);
      DoubleReduction(i);
    }
  }

  lemma SquareTimesZ(m: nat, i: nat)
    requires i < KK
    ensures SpreadBit(m, KK, 1, i) <==> PowBit(2 * m + 1, i)
    decreases m, 1
  {
    if i > 0 { Squaring(m, i - 1); }
    Squaring(m, LL - 1);
    Squaring(m, KK - 1);
    SpreadTimesZ(m, KK, 0, i);
  }
}
