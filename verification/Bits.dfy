/** Single bits of numbers, for the operators |, &, ^ with 1 << k. */
module Bits {
  // 1 << k
  function Pow2(k: nat): (r: nat)
    ensures r >= 1
  {
    if k == 0 then 1 else 2 * Pow2(k - 1)
  }

  // (b & (1 << k)) != 0
  predicate Bit(b: nat, k: nat) {
    if k == 0 then b % 2 == 1 else Bit(b / 2, k - 1)
  }

  // Where bit k is clear, b | (1 << k) is b + 2^k.
  lemma {:induction false} SetOneBit(b: nat, k: nat, j: nat)
    requires !Bit(b, k)
    ensures Bit(b + Pow2(k), j) <==> j == k || Bit(b, j)
  {
    if k > 0 {
      assert (b + Pow2(k)) / 2 == b / 2 + Pow2(k - 1) && (b + Pow2(k)) % 2 == b % 2;
      if j > 0 { SetOneBit(b / 2, k - 1, j - 1); }
    } else if j > 0 {
      assert (b + 1) / 2 == b / 2;
    }
  }

  // Where bit k is set, b & ~(1 << k) is b - 2^k.
  lemma {:induction false} ClearOneBit(b: nat, k: nat, j: nat)
    requires Bit(b, k)
    ensures b >= Pow2(k) && (Bit(b - Pow2(k), j) <==> j != k && Bit(b, j))
  {
    if k > 0 {
      ClearOneBit(b / 2, k - 1, if j > 0 then j - 1 else 0);
      assert b == 2 * (b / 2) + b % 2;
      assert (b - Pow2(k)) / 2 == b / 2 - Pow2(k - 1) && (b - Pow2(k)) % 2 == b % 2;
    } else if j > 0 {
      assert (b - 1) / 2 == b / 2;
    }
  }

  // A clear bit below 2^n leaves room to set it below 2^n.
  lemma {:induction false} SetBitFits(b: nat, k: nat, n: nat)
    requires !Bit(b, k) && k < n && b < Pow2(n)
    ensures b + Pow2(k) < Pow2(n)
  {
    if k > 0 {
      assert b / 2 < Pow2(n - 1);
      SetBitFits(b / 2, k - 1, n - 1);
      Doubled(b, Pow2(k - 1), Pow2(n - 1));
    } else {
      assert b % 2 == 0;
      Doubled(b, 0, Pow2(n - 1));
    }
  }

  lemma Doubled(b: nat, p: nat, m: nat)
    requires b / 2 + p < m
    ensures b + 2 * p + (1 - b % 2) < 2 * m
  {
  }

  // b | (1 << k)
  function Or(b: nat, k: nat): nat {
    if Bit(b, k) then b else b + Pow2(k)
  }

  // b ^ (1 << k)
  function Xor(b: nat, k: nat): (r: int)
    ensures r >= 0
  {
    if Bit(b, k) then ClearOneBit(b, k, 0); b - Pow2(k) else b + Pow2(k)
  }

  lemma OrBit(b: nat, k: nat, j: nat)
    ensures Bit(Or(b, k), j) <==> j == k || Bit(b, j)
  {
    if !Bit(b, k) { SetOneBit(b, k, j); }
  }

  lemma XorBit(b: nat, k: nat, j: nat)
    ensures Bit(Xor(b, k), j) <==> (Bit(b, j) != (j == k))
  {
    if Bit(b, k) { ClearOneBit(b, k, j); } else { SetOneBit(b, k, j); }
  }
}
