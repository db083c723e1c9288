/** Different seeds of random.c start far apart in the sequence of powers of z
    and give different states. */
module Seeds {
  import opened Bits
  import OrderOfZ
  import opened PowersOfZ
  import opened Random

  ghost function Length(ss: nat): nat {
    if ss == 0 then 0 else 1 + Length(ss / 2)
  }

  lemma {:induction false} Times(m: nat, t: nat)
    ensures TimesPowerOfTwo(m, t) == m * Pow2(t)
    decreases t
  {
    if t > 0 {
      Times(2 * m, t - 1);
      assert 2 * m * Pow2(t - 1) == m * (2 * Pow2(t - 1));
    }
  }

  lemma {:induction false} PowersGrow(i: nat, j: nat)
    requires i <= j
    ensures Pow2(i) <= Pow2(j)
  {
    if i < j { PowersGrow(i, j - 1); }
  }

  lemma {:induction false} PowerSum(i: nat, j: nat)
    ensures Pow2(i + j) == Pow2(i) * Pow2(j)
  {
    if i > 0 {
      PowerSum(i - 1, j);
      assert 2 * (Pow2(i - 1) * Pow2(j)) == 2 * Pow2(i - 1) * Pow2(j);
    }
  }

  // m stays in front of the bits that are appended.
  lemma {:induction false} InFront(ss: nat, m: nat)
    ensures m * Pow2(Length(ss)) <= Appended(ss, m) < (m + 1) * Pow2(Length(ss))
    decreases ss
  {
    if ss > 0 {
      var p := Pow2(Length(ss / 2));
      InFront(ss / 2, 2 * m + ss % 2);
      assert 2 * p == Pow2(Length(ss));
      Widened(m, ss % 2, p);
    }
  }

  lemma Widened(m: nat, b: nat, p: nat)
    requires b <= 1
    ensures m * (2 * p) <= (2 * m + b) * p && (2 * m + b + 1) * p <= (m + 1) * (2 * p)
  {
    assert (2 * m + b) * p == m * (2 * p) + b * p;
    assert (m + 1) * (2 * p) == (2 * m + 2) * p;
    assert (2 * m + b + 1) * p + (1 - b) * p == (2 * m + 2) * p;
  }

  // Numbers of j + 1 bits.
  ghost predicate HasBits(m: nat, j: nat) {
    Pow2(j) <= m < Pow2(j + 1)
  }

  lemma AppendedBits(ss: nat, m: nat, j: nat)
    requires HasBits(m, j)
    ensures HasBits(Appended(ss, m), j + Length(ss))
  {
    var p := Pow2(Length(ss));
    InFront(ss, m);
    PowerSum(j, Length(ss));
    PowerSum(j + 1, Length(ss));
    Scaled(Pow2(j), m, p);
    Scaled(m + 1, Pow2(j + 1), p);
  }

  lemma Scaled(a: nat, b: nat, p: nat)
    requires a <= b
    ensures a * p <= b * p
  {
    assert b * p == a * p + (b - a) * p;
  }

  lemma DifferentFront(x: nat, m1: nat, y: nat, m2: nat, j: nat)
    requires HasBits(m1, j) && HasBits(m2, j) && m1 < m2
    ensures Appended(x, m1) != Appended(y, m2)
  {
    AppendedBits(x, m1, j);
    AppendedBits(y, m2, j);
    InFront(x, m1);
    InFront(y, m2);
    if Length(x) < Length(y) {
      PowersGrow(j + Length(x) + 1, j + Length(y));
    } else if Length(y) < Length(x) {
      PowersGrow(j + Length(y) + 1, j + Length(x));
    } else {
      Scaled(m1 + 1, m2, Pow2(Length(x)));
    }
  }

  lemma Longer(b: nat, m: nat)
    requires b > 0 && m > 0
    ensures Appended(b, m) > m
  {
    InFront(b / 2, 2 * m + b % 2);
    Scaled(1, Pow2(Length(b / 2)), 2 * m + b % 2);
  }

  lemma {:induction false} Different(a: nat, b: nat, m: nat, j: nat)
    requires a < b && HasBits(m, j)
    ensures Appended(a, m) != Appended(b, m)
    decreases b
  {
    if a == 0 {
      Longer(b, m);
    } else if a % 2 == b % 2 {
      Different(a / 2, b / 2, 2 * m + a % 2, j + 1);
    } else if a % 2 < b % 2 {
      DifferentFront(a / 2, 2 * m + a % 2, b / 2, 2 * m + b % 2, j + 1);
    } else {
      DifferentFront(b / 2, 2 * m + b % 2, a / 2, 2 * m + a % 2, j + 1);
    }
  }

  // Seeds that differ modulo 2^30 start at powers of z that are at least 2^69
  // apart.
  lemma SeedsApart(a: int, b: int)
    requires a % MM < b % MM
    ensures SeedPower(a) + Pow2(69) <= SeedPower(b) || SeedPower(b) + Pow2(69) <= SeedPower(a)
  {
    hide Appended, Pow2, TimesPowerOfTwo, HasBits;
    var x, y := Appended(a % MM, 1), Appended(b % MM, 1);
    OneBit();
    Different(a % MM, b % MM, 1, 0);
    Times(x, 69);
    Times(y, 69);
    MultiplesApart(x, y, Pow2(69));
  }

  lemma OneBit()
    ensures HasBits(1, 0)
  {
  }

  lemma MultiplesApart(x: nat, y: nat, p: nat)
    requires x != y
    ensures x * p + p <= y * p || y * p + p <= x * p
  {
    if x < y { Scaled(x + 1, y, p); } else { Scaled(y + 1, x, p); }
  }

  lemma {:induction false} ShortSeed(ss: nat, k: nat)
    requires ss < Pow2(k)
    ensures Length(ss) <= k
    decreases ss
  {
    if ss > 0 { ShortSeed(ss / 2, k - 1); }
  }

  lemma AppendedBound(ss: nat)
    requires ss < MM
    ensures Appended(ss, 1) < 0x8000_0000
  {
    hide Appended;
    assert Pow2(10) == 0x400 && Pow2(20) == 0x10_0000;
    ShortSeed(ss, 30);
    OneBit();
    AppendedBits(ss, 1, 0);
    PowersGrow(Length(ss) + 1, 31);
  }

  lemma DifferentPowers(a: int, b: int)
    requires SeedPower(a) <= SeedPower(b) && a % MM != b % MM
    ensures exists i :: 0 <= i < KK && PowBit(SeedPower(a), i) != PowBit(SeedPower(b), i)
  {
    hide Appended, Pow2, TimesPowerOfTwo, HasBits, PowBit;
    var x, y := Appended(a % MM, 1), Appended(b % MM, 1);
    OneBit();
    if a % MM < b % MM { Different(a % MM, b % MM, 1, 0); } else { Different(b % MM, a % MM, 1, 0); }
    AppendedBound(a % MM);
    AppendedBound(b % MM);
    Times(x, 69);
    Times(y, 69);
    MultiplesApart(x, y, Pow2(69));
    assert SeedPower(b) - SeedPower(a) == (y - x) * Pow2(69);
    if y < x { Scaled(y, x, Pow2(69)); }
    OrderOfZ.NoRepeat(y - x, 69);
    if forall i {:trigger PowBit(SeedPower(a), i)} ::
      0 <= i < KK ==> (PowBit(SeedPower(a), i) <==> PowBit(SeedPower(b), i))
    {
      OrderOfZ.SamePower(SeedPower(a), SeedPower(b));
    }
  }

  lemma SameSeed(a: int, b: int)
    requires a % MM == b % MM
    ensures SeedState(a) == SeedState(b)
  {
    hide Rounds, SeedWord;
    SameRest(a, b);
    forall j: nat ensures SeedWord(a, j) == SeedWord(b, j) { SameWord(a, b, j); }
    assert InitialState(a) == InitialState(b);
  }

  lemma SameRest(a: int, b: int)
    requires a % MM == b % MM
    ensures (a + 2) % MM == (b + 2) % MM
  {
    RestPlusTwo(a);
    RestPlusTwo(b);
  }

  lemma RestPlusTwo(a: int)
    ensures (a + 2) % 0x4000_0000 == (a % 0x4000_0000 + 2) % 0x4000_0000
  {
  }

  lemma SameWord(a: int, b: int, j: nat)
    requires (a + 2) % MM == (b + 2) % MM
    ensures SeedWord(a, j) == SeedWord(b, j)
  {
  }

  lemma DifferentWord(a: int, b: int)
    requires a % MM != b % MM
    ensures exists i :: 0 <= i < KK && SeedState(a)[i] % 2 != SeedState(b)[i] % 2
  {
    hide SeedState, SeedPower, PowBit, HasOdd;
    if SeedPower(a) <= SeedPower(b) { DifferentPowers(a, b); } else { DifferentPowers(b, a); }
    SeedStatePower(a);
    SeedStatePower(b);
    var i :| 0 <= i < KK && PowBit(SeedPower(a), i) != PowBit(SeedPower(b), i);
    assert SeedState(a)[i] % 2 != SeedState(b)[i] % 2;
  }

  // Two seeds give the same state exactly if they agree modulo 2^30; otherwise
  // some word is odd in one state and even in the other.
  lemma SeedsDiffer(a: int, b: int)
    ensures SeedState(a) == SeedState(b) <==> a % MM == b % MM
    ensures a % MM != b % MM ==>
      exists i :: 0 <= i < KK && SeedState(a)[i] % 2 != SeedState(b)[i] % 2
  {
    hide SeedState;
    if a % MM == b % MM { SameSeed(a, b); } else { DifferentWord(a, b); }
  }
}
