/** Polynomials over the field with two elements modulo z^100 + z^37 + 1, as
    words of 100 bits, and three of the powers of z. */
module PolynomialWords {
  import opened PowersOfZ

  // ---------- polynomials as words of 100 bits ----------

  type Poly = bv128

  function Plus(x: Poly, y: Poly): Poly {
    x ^ y
  }

  function TimesZ(v: Poly): Poly {
    var t := (v >> 99) & 1;
    ((v << 1) & 0xF_FFFF_FFFF_FFFF_FFFF_FFFF_FFFF) ^ t ^ (t << 37)
  }

  // Fifty coefficients moved to twice their degrees.
  function Spread(x: Poly): Poly {
    var a := (x | (x << 32)) & 0x0000_0000_FFFF_FFFF_0000_0000_FFFF_FFFF;
    var b := (a | (a << 16)) & 0x0000_FFFF_0000_FFFF_0000_FFFF_0000_FFFF;
    var c := (b | (b << 8)) & 0x00FF_00FF_00FF_00FF_00FF_00FF_00FF_00FF;
    var d := (c | (c << 4)) & 0x0F0F_0F0F_0F0F_0F0F_0F0F_0F0F_0F0F_0F0F;
    var e := (d | (d << 2)) & 0x3333_3333_3333_3333_3333_3333_3333_3333;
    (e | (e << 1)) & 0x5555_5555_5555_5555_5555_5555_5555_5555
  }

  // What z^100 times b leaves beside b itself.
  function Up(b: Poly): Poly {
    (b << 37) & 0xF_FFFF_FFFF_FFFF_FFFF_FFFF_FFFF
  }

  function Over(b: Poly): Poly {
    b >> 63
  }

  function OverUp(b: Poly): Poly {
    (b >> 63) << 37
  }

  function Fold(b: Poly): Poly {
    Plus(Plus(b, Up(b)), Plus(Over(b), OverUp(b)))
  }

  function Low(v: Poly): Poly {
    v & 0x3_FFFF_FFFF_FFFF
  }

  function High(v: Poly): Poly {
    (v >> 50) & 0x3_FFFF_FFFF_FFFF
  }

  function Square(v: Poly): Poly {
    Plus(Spread(Low(v)), Fold(Spread(High(v))))
  }

  // ---------- sums ----------

  lemma IsXor(a: Poly, b: Poly)
    ensures Plus(a, b) == a ^ b
  {
  }

  lemma Commute(a: Poly, b: Poly)
    ensures Plus(a, b) == Plus(b, a)
  {
  }

  lemma XorAssociate(a: Poly, b: Poly, c: Poly)
    ensures Plus(a ^ b, c) == Plus(a, b ^ c)
  {
  }

  lemma Associate(a: Poly, b: Poly, c: Poly)
    ensures Plus(Plus(a, b), c) == Plus(a, Plus(b, c))
  {
    hide Plus;
    IsXor(a, b);
    XorAssociate(a, b, c);
    IsXor(b, c);
  }

  lemma Regroup(a: Poly, b: Poly, c: Poly, d: Poly)
    ensures Plus(Plus(a, b), Plus(c, d)) == Plus(Plus(a, c), Plus(b, d))
  {
    hide Plus;
    Associate(a, b, Plus(c, d));
    Associate(b, c, d);
    Commute(b, c);
    Associate(c, b, d);
    Associate(a, c, Plus(b, d));
  }

  lemma Cancel(a: Poly, b: Poly, c: Poly)
    ensures Plus(Plus(a, c), Plus(b, c)) == Plus(a, b)
  {
    hide Plus;
    Regroup(a, c, b, c);
    Twins(Plus(a, b), c);
  }

  lemma Twins(a: Poly, c: Poly)
    ensures Plus(a, Plus(c, c)) == a
  {
  }

  lemma XorTimesZ(x: Poly, y: Poly)
    ensures TimesZ(x ^ y) == TimesZ(x) ^ TimesZ(y)
  {
  }

  lemma TimesZSum(x: Poly, y: Poly)
    ensures TimesZ(Plus(x, y)) == Plus(TimesZ(x), TimesZ(y))
  {
    hide TimesZ;
    XorTimesZ(x, y);
  }

  lemma TwiceSum(x: Poly, y: Poly)
    ensures TimesZ(TimesZ(Plus(x, y))) == Plus(TimesZ(TimesZ(x)), TimesZ(TimesZ(y)))
  {
    hide Plus, TimesZ;
    TimesZSum(x, y);
    TimesZSum(TimesZ(x), TimesZ(y));
  }

  lemma XorParts(x: Poly, y: Poly)
    ensures ((x ^ y) << 37) & 0xF_FFFF_FFFF_FFFF_FFFF_FFFF_FFFF ==
      ((x << 37) & 0xF_FFFF_FFFF_FFFF_FFFF_FFFF_FFFF) ^ ((y << 37) & 0xF_FFFF_FFFF_FFFF_FFFF_FFFF_FFFF)
    ensures (x ^ y) >> 63 == (x >> 63) ^ (y >> 63)
    ensures ((x ^ y) >> 63) << 37 == ((x >> 63) << 37) ^ ((y >> 63) << 37)
  {
  }

  lemma UpSum(x: Poly, y: Poly)
    ensures Up(Plus(x, y)) == Plus(Up(x), Up(y))
  {
    XorParts(x, y);
  }

  lemma OverSum(x: Poly, y: Poly)
    ensures Over(Plus(x, y)) == Plus(Over(x), Over(y))
  {
    XorParts(x, y);
  }

  lemma OverUpSum(x: Poly, y: Poly)
    ensures OverUp(Plus(x, y)) == Plus(OverUp(x), OverUp(y))
  {
    XorParts(x, y);
  }

  lemma FoldSum(x: Poly, y: Poly)
    ensures Fold(Plus(x, y)) == Plus(Fold(x), Fold(y))
  {
    hide Plus, Up, Over, OverUp;
    UpSum(x, y);
    OverSum(x, y);
    OverUpSum(x, y);
    Regroup(x, y, Up(x), Up(y));
    Regroup(Over(x), Over(y), OverUp(x), OverUp(y));
    Regroup(Plus(x, Up(x)), Plus(y, Up(y)), Plus(Over(x), OverUp(x)), Plus(Over(y), OverUp(y)));
  }

  // ---------- the square of z times v is z^2 times the square of v ----------

  // For a word with even degrees only: two places up, and the top bit, bit 62
  // and the part over bit 63 at the places where the reduction puts them.
  function UpTwo(b: Poly): Poly {
    (b << 2) & 0xF_FFFF_FFFF_FFFF_FFFF_FFFF_FFFF
  }

  function Top(b: Poly): Poly {
    (b >> 98) & 1
  }

  function Top37(b: Poly): Poly {
    ((b >> 98) & 1) << 37
  }

  function Top74(b: Poly): Poly {
    ((b >> 98) & 1) << 74
  }

  function Next1(b: Poly): Poly {
    ((b >> 62) & 1) << 1
  }

  function Next38(b: Poly): Poly {
    ((b >> 62) & 1) << 38
  }

  function Over2(b: Poly): Poly {
    (b >> 63) << 2
  }

  function Over39(b: Poly): Poly {
    (b >> 63) << 39
  }

  lemma TwiceEven(x: Poly)
    ensures var b := x & 0x5_5555_5555_5555_5555_5555_5555;
      TimesZ(TimesZ(b)) == Plus(UpTwo(b), Plus(Top(b), Top37(b)))
  {
  }

  lemma UpOnce(x: Poly)
    ensures var b := x & 0x5_5555_5555_5555_5555_5555_5555;
      TimesZ(Up(b)) == Plus((Up(b) << 1) & 0xF_FFFF_FFFF_FFFF_FFFF_FFFF_FFFF, Plus((b >> 62) & 1, ((b >> 62) & 1) << 37))
  {
  }

  lemma UpAgain(x: Poly)
    ensures var b := x & 0x5_5555_5555_5555_5555_5555_5555;
      TimesZ((Up(b) << 1) & 0xF_FFFF_FFFF_FFFF_FFFF_FFFF_FFFF) == Up((b << 2) & 0xF_FFFF_FFFF_FFFF_FFFF_FFFF_FFFF)
  {
  }

  lemma UpAgainTwo(x: Poly)
    ensures var b := x & 0x5_5555_5555_5555_5555_5555_5555;
      TimesZ((Up(b) << 1) & 0xF_FFFF_FFFF_FFFF_FFFF_FFFF_FFFF) == Up(UpTwo(b))
  {
    hide TimesZ, Up;
    UpAgain(x);
  }

  lemma BitUp(b: Poly)
    ensures TimesZ(Plus((b >> 62) & 1, ((b >> 62) & 1) << 37)) == Plus(Next1(b), Next38(b))
  {
  }

  lemma TwiceUp(x: Poly)
    ensures var b := x & 0x5_5555_5555_5555_5555_5555_5555;
      TimesZ(TimesZ(Up(b))) == Plus(Up(UpTwo(b)), Plus(Next1(b), Next38(b)))
  {
    hide TimesZ, Plus, Up, UpTwo, Next1, Next38;
    var b := x & 0x5_5555_5555_5555_5555_5555_5555;
    UpOnce(x);
    TimesZSum((Up(b) << 1) & 0xF_FFFF_FFFF_FFFF_FFFF_FFFF_FFFF, Plus((b >> 62) & 1, ((b >> 62) & 1) << 37));
    UpAgainTwo(x);
    BitUp(b);
  }

  lemma TwiceOver(x: Poly)
    ensures var b := x & 0x5_5555_5555_5555_5555_5555_5555;
      TimesZ(TimesZ(Over(b))) == Over2(b) && TimesZ(TimesZ(OverUp(b))) == Over39(b)
  {
  }

  lemma OverUpTwo(x: Poly)
    ensures var b := x & 0x5_5555_5555_5555_5555_5555_5555; Over(UpTwo(b)) == Plus(Over2(b), Plus(Next1(b), Top37(b)))
  {
  }

  lemma OverUpUpTwo(x: Poly)
    ensures var b := x & 0x5_5555_5555_5555_5555_5555_5555; OverUp(UpTwo(b)) == Plus(Over39(b), Plus(Next38(b), Top74(b)))
  {
  }

  lemma FoldArrange(n: Poly, u: Poly, o: Poly, p: Poly, t0: Poly, t37: Poly, t74: Poly, s1: Poly, s38: Poly)
    ensures Plus(Plus(Plus(n, Plus(t0, t37)), Plus(u, Plus(s1, s38))), Plus(o, p))
         == Plus(Plus(Plus(n, u), Plus(Plus(o, Plus(s1, t37)), Plus(p, Plus(s38, t74)))), Plus(t0, t74))
  {
    hide Plus;
    var nu, op := Plus(n, u), Plus(o, p);
    var x, y := Plus(Plus(t0, t37), Plus(s1, s38)), Plus(Plus(s1, t37), Plus(s38, t74));
    Regroup(n, Plus(t0, t37), u, Plus(s1, s38));
    Regroup(o, Plus(s1, t37), p, Plus(s38, t74));
    assert x == Plus(y, Plus(t0, t74)) by {
      Regroup(s1, t37, s38, t74);
      Associate(Plus(s1, s38), Plus(t37, t74), Plus(t0, t74));
      Cancel(t37, t0, t74);
      Commute(t37, t0);
      Commute(Plus(s1, s38), Plus(t0, t37));
    }
    Associate(nu, x, op);
    Commute(x, op);
    Associate(op, y, Plus(t0, t74));
    Associate(nu, Plus(op, y), Plus(t0, t74));
  }

  lemma FoldTwice(x: Poly)
    ensures var b := x & 0x5_5555_5555_5555_5555_5555_5555;
      TimesZ(TimesZ(Fold(b))) == Plus(Fold(UpTwo(b)), Plus(Top(b), Top74(b)))
  {
    hide TimesZ, Plus, Up, UpTwo, Over, OverUp, Top, Top37, Top74, Next1, Next38, Over2, Over39;
    var b := x & 0x5_5555_5555_5555_5555_5555_5555;
    TwiceSum(Plus(b, Up(b)), Plus(Over(b), OverUp(b)));
    TwiceSum(b, Up(b));
    TwiceSum(Over(b), OverUp(b));
    TwiceEven(x);
    TwiceUp(x);
    TwiceOver(x);
    OverUpTwo(x);
    OverUpUpTwo(x);
    FoldArrange(UpTwo(b), Up(UpTwo(b)), Over2(b), Over39(b), Top(b), Top37(b), Top74(b), Next1(b), Next38(b));
  }

  lemma SpreadEven(x: Poly)
    ensures Spread(x & 0x3_FFFF_FFFF_FFFF) & 0x5_5555_5555_5555_5555_5555_5555 == Spread(x & 0x3_FFFF_FFFF_FFFF)
  {
  }

  lemma TwiceSpread(x: Poly)
    ensures var b := Spread(x & 0x3_FFFF_FFFF_FFFF);
      TimesZ(TimesZ(b)) == Plus(UpTwo(b), Plus(Top(b), Top37(b)))
      && TimesZ(TimesZ(Fold(b))) == Plus(Fold(UpTwo(b)), Plus(Top(b), Top74(b)))
  {
    hide TimesZ, Plus, Fold, Spread, UpTwo, Top, Top37, Top74;
    SpreadEven(x);
    TwiceEven(Spread(x & 0x3_FFFF_FFFF_FFFF));
    FoldTwice(Spread(x & 0x3_FFFF_FFFF_FFFF));
  }

  lemma SpreadXor(x: Poly, y: Poly)
    ensures Spread((x & 0x3_FFFF_FFFF_FFFF) ^ (y & 0x3_FFFF_FFFF_FFFF)) ==
      Spread(x & 0x3_FFFF_FFFF_FFFF) ^ Spread(y & 0x3_FFFF_FFFF_FFFF)
  {
  }

  lemma SpreadSum(x: Poly, y: Poly)
    ensures Spread(Plus(x & 0x3_FFFF_FFFF_FFFF, y & 0x3_FFFF_FFFF_FFFF)) ==
      Plus(Spread(x & 0x3_FFFF_FFFF_FFFF), Spread(y & 0x3_FFFF_FFFF_FFFF))
  {
    hide Spread;
    SpreadXor(x, y);
  }

  // What z times v puts into its lower half and its upper half.
  function LowUp(v: Poly): Poly {
    (v << 1) & 0x3_FFFF_FFFF_FFFF
  }

  function HighUp(v: Poly): Poly {
    ((v >> 50) << 1) & 0x3_FFFF_FFFF_FFFF
  }

  function Carry(v: Poly): Poly {
    (((v >> 99) & 1) ^ (((v >> 99) & 1) << 37)) & 0x3_FFFF_FFFF_FFFF
  }

  function Middle(v: Poly): Poly {
    ((v >> 49) & 1) & 0x3_FFFF_FFFF_FFFF
  }

  lemma LowHalf(x: Poly)
    ensures var v := x & 0xF_FFFF_FFFF_FFFF_FFFF_FFFF_FFFF; Low(TimesZ(v)) == Plus(LowUp(v), Carry(v))
  {
  }

  lemma HighHalf(x: Poly)
    ensures var v := x & 0xF_FFFF_FFFF_FFFF_FFFF_FFFF_FFFF;
      (TimesZ(v) >> 50) & 0x3_FFFF_FFFF_FFFF == (((v >> 50) << 1) & 0x3_FFFF_FFFF_FFFF) ^ ((v >> 49) & 1)
  {
  }

  lemma Halves(x: Poly)
    ensures var v := x & 0xF_FFFF_FFFF_FFFF_FFFF_FFFF_FFFF;
      Low(TimesZ(v)) == Plus(LowUp(v), Carry(v)) && High(TimesZ(v)) == Plus(HighUp(v), Middle(v))
  {
    hide TimesZ, LowUp, Carry;
    LowHalf(x);
    HighHalf(x);
  }

  lemma LowSum(v: Poly)
    ensures Spread(Plus(LowUp(v), Carry(v))) == Plus(Spread(LowUp(v)), Spread(Carry(v)))
  {
    hide Spread, Plus;
    SpreadSum(v << 1, ((v >> 99) & 1) ^ (((v >> 99) & 1) << 37));
  }

  lemma HighSum(v: Poly)
    ensures Spread(Plus(HighUp(v), Middle(v))) == Plus(Spread(HighUp(v)), Spread(Middle(v)))
  {
    hide Spread, Plus;
    SpreadSum((v >> 50) << 1, (v >> 49) & 1);
  }

  lemma SpreadDouble(x: Poly)
    ensures Spread((x << 1) & 0x3_FFFF_FFFF_FFFF) ==
      (Spread(x & 0x3_FFFF_FFFF_FFFF) << 2) & 0xF_FFFF_FFFF_FFFF_FFFF_FFFF_FFFF
  {
  }

  lemma SpreadLowUp(v: Poly)
    ensures Spread(LowUp(v)) == UpTwo(Spread(Low(v)))
  {
    hide Spread;
    SpreadDouble(v);
  }

  lemma HighIsLow(v: Poly)
    ensures HighUp(v) == LowUp(v >> 50) && High(v) == Low(v >> 50)
  {
  }

  lemma SpreadHighUp(v: Poly)
    ensures Spread(HighUp(v)) == UpTwo(Spread(High(v)))
  {
    hide Spread, UpTwo, High, Low, HighUp, LowUp;
    HighIsLow(v);
    SpreadLowUp(v >> 50);
  }

  lemma SpreadCarry(x: Poly)
    ensures var v := x & 0xF_FFFF_FFFF_FFFF_FFFF_FFFF_FFFF; var b := Spread(High(v));
      Spread(Carry(v)) == Plus(Top(b), Top74(b))
  {
  }

  lemma SpreadMiddle(x: Poly)
    ensures var v := x & 0xF_FFFF_FFFF_FFFF_FFFF_FFFF_FFFF; Spread(Middle(v)) == Top(Spread(Low(v)))
  {
  }

  lemma FoldTop(a: Poly)
    ensures Fold(Top(a)) == Plus(Top(a), Top37(a))
  {
  }

  lemma SquareOfTimesZ(x: Poly)
    ensures var v := x & 0xF_FFFF_FFFF_FFFF_FFFF_FFFF_FFFF; Square(TimesZ(v)) == TimesZ(TimesZ(Square(v)))
  {
    hide TimesZ, Plus, Spread, Fold, Low, High, LowUp, HighUp, UpTwo, Top, Top37, Top74, Carry, Middle;
    var v := x & 0xF_FFFF_FFFF_FFFF_FFFF_FFFF_FFFF;
    var a, b := Spread(Low(v)), Spread(High(v));
    Halves(x);
    LowSum(v);
    HighSum(v);
    SpreadLowUp(v);
    SpreadHighUp(v);
    SpreadCarry(x);
    SpreadMiddle(x);
    FoldSum(UpTwo(b), Top(a));
    FoldTop(a);
    TwiceSum(a, Fold(b));
    TwiceHalves(v);
    Crossed(UpTwo(a), Plus(Top(b), Top74(b)), Fold(UpTwo(b)), Plus(Top(a), Top37(a)));
  }

  lemma TwiceHalves(v: Poly)
    ensures var a := Spread(Low(v)); TimesZ(TimesZ(a)) == Plus(UpTwo(a), Plus(Top(a), Top37(a)))
    ensures var b := Spread(High(v)); TimesZ(TimesZ(Fold(b))) == Plus(Fold(UpTwo(b)), Plus(Top(b), Top74(b)))
  {
    hide TimesZ, Plus, Spread, Fold, UpTwo, Top, Top37, Top74;
    TwiceSpread(v);
    TwiceSpread(v >> 50);
  }

  lemma Crossed(a: Poly, b: Poly, c: Poly, d: Poly)
    ensures Plus(Plus(a, b), Plus(c, d)) == Plus(Plus(a, d), Plus(c, b))
  {
    hide Plus;
    Commute(c, d);
    Regroup(a, b, d, c);
    Commute(b, c);
  }

  lemma TimesZCancels(x: Poly, y: Poly)
    requires TimesZ(x & 0xF_FFFF_FFFF_FFFF_FFFF_FFFF_FFFF) == TimesZ(y & 0xF_FFFF_FFFF_FFFF_FFFF_FFFF_FFFF)
    ensures x & 0xF_FFFF_FFFF_FFFF_FFFF_FFFF_FFFF == y & 0xF_FFFF_FFFF_FFFF_FFFF_FFFF_FFFF
  {
  }

  // ---------- the powers ----------

  function Double(x: Poly): Poly {
    x << 1
  }

  function Bit(b: bool): Poly {
    if b then 1 else 0
  }

  function Push(x: Poly, b: bool): Poly {
    Plus(Double(x), Bit(b))
  }

  // Coefficients k .. 99 of z^m, coefficient k lowest.
  ghost function Packed(m: nat, k: nat): Poly
    requires k <= KK
    decreases KK - k
  {
    if k == KK then 0 else Push(Packed(m, k + 1), PowBit(m, k))
  }

  ghost function Val(m: nat): Poly {
    Packed(m, 0)
  }

  lemma {:induction false} SamePacked(m: nat, n: nat, k: nat)
    requires k <= KK && forall i {:trigger PowBit(m, i)} :: 0 <= i < KK ==> (PowBit(m, i) <==> PowBit(n, i))
    ensures Packed(m, k) == Packed(n, k)
    decreases KK - k
  {
    hide Push, PowBit;
    if k < KK { SamePacked(m, n, k + 1); }
  }

  // x shifted up n places, one at a time.
  ghost function Shl(x: Poly, n: nat): Poly
    decreases n
  {
    if n == 0 then x else Double(Shl(x, n - 1))
  }

  lemma ShiftedOne()
    ensures Shl(1, 62) == 0x4000_0000_0000_0000 && Shl(1, 99) == 0x8_0000_0000_0000_0000_0000_0000
  {
    assert Shl(0x1, 9) == 0x200;
    assert Shl(0x1, 18) == 0x4_0000;
    assert Shl(0x1, 27) == 0x800_0000;
    assert Shl(0x1, 36) == 0x10_0000_0000;
    assert Shl(0x1, 45) == 0x2000_0000_0000;
    assert Shl(0x1, 54) == 0x40_0000_0000_0000;
    assert Shl(0x1, 63) == 0x8000_0000_0000_0000;
    assert Shl(0x1, 72) == 0x100_0000_0000_0000_0000;
    assert Shl(0x1, 81) == 0x2_0000_0000_0000_0000_0000;
    assert Shl(0x1, 90) == 0x400_0000_0000_0000_0000_0000;
  }

  lemma ShiftedOnes()
    ensures Shl(0xFFFF_FFFF_FFFF_FFFF_FFFF_FFFF_FFFF_FFFF, 99) == 0xFFFF_FFF8_0000_0000_0000_0000_0000_0000
  {
    assert Shl(0xFFFF_FFFF_FFFF_FFFF_FFFF_FFFF_FFFF_FFFF, 9) == 0xFFFF_FFFF_FFFF_FFFF_FFFF_FFFF_FFFF_FE00;
    assert Shl(0xFFFF_FFFF_FFFF_FFFF_FFFF_FFFF_FFFF_FFFF, 18) == 0xFFFF_FFFF_FFFF_FFFF_FFFF_FFFF_FFFC_0000;
    assert Shl(0xFFFF_FFFF_FFFF_FFFF_FFFF_FFFF_FFFF_FFFF, 27) == 0xFFFF_FFFF_FFFF_FFFF_FFFF_FFFF_F800_0000;
    assert Shl(0xFFFF_FFFF_FFFF_FFFF_FFFF_FFFF_FFFF_FFFF, 36) == 0xFFFF_FFFF_FFFF_FFFF_FFFF_FFF0_0000_0000;
    assert Shl(0xFFFF_FFFF_FFFF_FFFF_FFFF_FFFF_FFFF_FFFF, 45) == 0xFFFF_FFFF_FFFF_FFFF_FFFF_E000_0000_0000;
    assert Shl(0xFFFF_FFFF_FFFF_FFFF_FFFF_FFFF_FFFF_FFFF, 54) == 0xFFFF_FFFF_FFFF_FFFF_FFC0_0000_0000_0000;
    assert Shl(0xFFFF_FFFF_FFFF_FFFF_FFFF_FFFF_FFFF_FFFF, 63) == 0xFFFF_FFFF_FFFF_FFFF_8000_0000_0000_0000;
    assert Shl(0xFFFF_FFFF_FFFF_FFFF_FFFF_FFFF_FFFF_FFFF, 72) == 0xFFFF_FFFF_FFFF_FF00_0000_0000_0000_0000;
    assert Shl(0xFFFF_FFFF_FFFF_FFFF_FFFF_FFFF_FFFF_FFFF, 81) == 0xFFFF_FFFF_FFFE_0000_0000_0000_0000_0000;
    assert Shl(0xFFFF_FFFF_FFFF_FFFF_FFFF_FFFF_FFFF_FFFF, 90) == 0xFFFF_FFFF_FC00_0000_0000_0000_0000_0000;
  }

  lemma ShiftedCarry()
    ensures Shl(0x8000_0000_0000_0001, 36) == 0x8_0000_0000_0000_0010_0000_0000
  {
    assert Shl(0x8000_0000_0000_0001, 9) == 0x100_0000_0000_0000_0200;
    assert Shl(0x8000_0000_0000_0001, 18) == 0x2_0000_0000_0000_0004_0000;
    assert Shl(0x8000_0000_0000_0001, 27) == 0x400_0000_0000_0000_0800_0000;
  }

  lemma {:induction false} ShiftedZero(n: nat)
    ensures Shl(0, n) == 0
  {
    if n > 0 { ShiftedZero(n - 1); }
  }

  // What coefficient 99 of z^m adds to coefficients k .. 99 of z^(m+1).
  ghost function Carried(k: nat): Poly
    requires 1 <= k <= KK
  {
    if k > LL then Shl(1, KK - k) else Shl(0x8000_0000_0000_0001, LL - k)
  }

  lemma PushSum(x: Poly, y: Poly, b: bool, c: bool)
    ensures Push(Plus(x, y), b != c) == Plus(Push(x, b), Push(y, c))
  {
    hide Plus, Double, Bit;
    DoubleSum(x, y);
    BitSum(b, c);
    Regroup(Double(x), Double(y), Bit(b), Bit(c));
  }

  lemma DoubleSum(x: Poly, y: Poly)
    ensures Double(Plus(x, y)) == Plus(Double(x), Double(y))
  {
    XorDouble(x, y);
  }

  lemma XorDouble(x: Poly, y: Poly)
    ensures (x ^ y) << 1 == (x << 1) ^ (y << 1)
  {
  }

  lemma BitSum(b: bool, c: bool)
    ensures Bit(b != c) == Plus(Bit(b), Bit(c))
  {
  }

  lemma CarryIn()
    ensures Push(0x4000_0000_0000_0000, true) == 0x8000_0000_0000_0001
  {
  }

  lemma PlusZero(x: Poly)
    ensures Plus(x, 0) == x
  {
  }

  lemma CarriedNext(k: nat)
    requires 1 <= k < KK
    ensures Carried(k) == Push(Carried(k + 1), k == LL)
  {
    hide Plus, Double;
    if k == LL {
      ShiftedOne();
      CarryIn();
    } else {
      PlusZero(Double(Carried(k + 1)));
    }
  }

  lemma {:induction false} PackedNext(m: nat, k: nat)
    requires 1 <= k <= KK
    ensures Packed(m, k - 1) ==
      if PowBit(m, KK - 1) then Plus(Packed(m + 1, k), Carried(k)) else Packed(m + 1, k)
    decreases KK - k
  {
    hide Push, Plus, Carried, PowBit;
    if k == KK {
      LastPacked(m);
    } else {
      PackedNext(m, k + 1);
      CarriedNext(k);
      NextBit(m, k);
      PushSum(Packed(m + 1, k + 1), Carried(k + 1), PowBit(m + 1, k), k == LL);
    }
  }

  lemma NextBit(m: nat, k: nat)
    requires 1 <= k < KK
    ensures PowBit(m + 1, k) <==> if k == LL then PowBit(m, k - 1) != PowBit(m, KK - 1) else PowBit(m, k - 1)
  {
  }

  lemma LastPacked(m: nat)
    ensures Packed(m, KK - 1) == if PowBit(m, KK - 1) then Plus(Packed(m + 1, KK), Carried(KK)) else Packed(m + 1, KK)
  {
  }

  function And(x: Poly, h: Poly): Poly {
    x & h
  }

  lemma OddAnd(x: Poly, h: Poly)
    ensures And((x << 1) ^ 1, h << 1) == And(x << 1, h << 1)
  {
  }

  lemma AndOne(x: Poly, h: Poly)
    ensures And(Plus(Double(x), 1), Double(h)) == And(Double(x), Double(h))
  {
    hide And, Plus;
    OddAnd(x, h);
    IsXor(x << 1, 1);
  }

  lemma AndPush(x: Poly, b: bool, h: Poly)
    ensures And(Push(x, b), Double(h)) == And(Double(x), Double(h))
  {
    hide And, Plus, Double;
    AndOne(x, h);
    PlusZero(Double(x));
  }

  lemma AndDouble(x: Poly, h: Poly)
    ensures And(Double(x), Double(h)) == Double(And(x, h))
  {
  }

  lemma PushHead(x: Poly, b: bool, h: Poly)
    ensures And(Push(x, b), Double(h)) == Double(And(x, h))
  {
    hide Plus, And, Double, Bit;
    AndPush(x, b, h);
    AndDouble(x, h);
  }

  const ALL: Poly := 0xFFFF_FFFF_FFFF_FFFF_FFFF_FFFF_FFFF_FFFF
  const OVER98: Poly := 0xFFFF_FFF8_0000_0000_0000_0000_0000_0000

  // Coefficient 99 is the highest bit.
  lemma {:induction false} Headed(m: nat, k: nat)
    requires k < KK
    ensures And(Packed(m, k), Shl(ALL, 99 - k)) == Shl(Bit(PowBit(m, 99)), 99 - k)
    decreases KK - k
  {
    hide PowBit, Plus, And, Double, Bit, Push;
    if k == 99 {
      LastHead(m);
    } else {
      Headed(m, k + 1);
      PushHead(Packed(m, k + 1), PowBit(m, k), Shl(ALL, 98 - k));
    }
  }

  lemma LastHead(m: nat)
    ensures And(Packed(m, 99), ALL) == Bit(PowBit(m, 99))
  {
    hide PowBit;
  }

  lemma TopBit(m: nat)
    ensures And(Val(m), OVER98) == Shl(Bit(PowBit(m, 99)), 99)
  {
    hide PowBit, And, Plus, Double, Bit, Push;
    Headed(m, 0);
    ShiftedOnes();
  }

  ghost predicate Small(v: Poly) {
    v & 0xF_FFFF_FFFF_FFFF_FFFF_FFFF_FFFF == v
  }

  lemma TimesZLow(v: Poly)
    requires And(v, OVER98) == 0
    ensures TimesZ(v) == Double(v) && Small(v)
  {
  }

  lemma TimesZHigh(v: Poly, w: Poly)
    requires And(v, OVER98) == 0x8_0000_0000_0000_0000_0000_0000
    requires Double(v) == Plus(w, 0x10_0000_0000_0000_0020_0000_0001)
    ensures TimesZ(v) == w && Small(v)
  {
  }

  lemma FirstBit(m: nat)
    ensures Val(m + 1) == Push(Packed(m + 1, 1), PowBit(m, 99))
  {
    hide Push;
  }

  lemma CarryOut()
    ensures Push(0x8_0000_0000_0000_0010_0000_0000, true) == 0x10_0000_0000_0000_0020_0000_0001
  {
  }

  lemma PushFalse(x: Poly)
    ensures Push(x, false) == Double(x)
  {
    hide Plus, Double;
    PlusZero(Double(x));
  }

  lemma ValNext(m: nat)
    ensures Val(m + 1) == TimesZ(Val(m)) && Small(Val(m))
  {
    hide TimesZ, Small, PowBit, Push, Plus, Double, And, Shl;
    TopBit(m);
    PackedNext(m, 1);
    FirstBit(m);
    PushFalse(Val(m));
    if PowBit(m, 99) {
      ShiftedOne();
      ShiftedCarry();
      PushSum(Packed(m + 1, 1), Carried(1), true, true);
      CarryOut();
      TimesZHigh(Val(m), Val(m + 1));
    } else {
      ShiftedZero(99);
      TimesZLow(Val(m));
    }
  }

  lemma {:induction false} PackedZero(k: nat)
    requires 1 <= k <= KK
    ensures Packed(0, k) == 0
    decreases KK - k
  {
    if k < KK { PackedZero(k + 1); }
  }

  lemma ValZero()
    ensures Val(0) == 1
  {
    PackedZero(1);
  }

  lemma SquareNext(v: Poly)
    requires Small(v)
    ensures Square(TimesZ(v)) == TimesZ(TimesZ(Square(v)))
  {
    hide TimesZ, Square;
    SquareOfTimesZ(v);
  }

  lemma SquareOne()
    ensures Square(1) == 1
  {
  }

  lemma {:induction false} SquareVal(m: nat)
    ensures Square(Val(m)) == Val(2 * m)
  {
    hide TimesZ, Square, Val, Small;
    if m == 0 {
      ValZero();
      SquareOne();
    } else {
      SquareVal(m - 1);
      ValNext(m - 1);
      SquareNext(Val(m - 1));
      ValNext(2 * m - 2);
      ValNext(2 * m - 1);
    }
  }

  lemma NextCancels(v: Poly, w: Poly)
    requires Small(v) && Small(w) && TimesZ(v) == TimesZ(w)
    ensures v == w
  {
    hide TimesZ;
    TimesZCancels(v, w);
  }

  // ---------- raising to a power, four bits of the exponent at a time ----------

  function Sum(a: Poly, b: Poly, c: Poly, d: Poly, e: Poly): Poly {
    a ^ b ^ c ^ d ^ e
  }

  // Square in one expression.
  function FlatSquare(v: Poly): Poly {
    var s := Spread((v >> 50) & 0x3_FFFF_FFFF_FFFF);
    Sum(Spread(v & 0x3_FFFF_FFFF_FFFF), s, (s << 37) & 0xF_FFFF_FFFF_FFFF_FFFF_FFFF_FFFF, s >> 63, (s >> 63) << 37)
  }

  lemma FlatParts(v: Poly, a: Poly, s: Poly)
    requires a == Spread(v & 0x3_FFFF_FFFF_FFFF) && s == Spread((v >> 50) & 0x3_FFFF_FFFF_FFFF)
    ensures FlatSquare(v) == Sum(a, s, Up(s), Over(s), OverUp(s))
  {
    hide Sum;
  }

  lemma SumParts(a: Poly, b: Poly, c: Poly, d: Poly, e: Poly)
    ensures Plus(a, b ^ c ^ d ^ e) == Sum(a, b, c, d, e)
    ensures Plus(b ^ c, d ^ e) == b ^ c ^ d ^ e
  {
  }

  lemma NestedSum(a: Poly, b: Poly, c: Poly, d: Poly, e: Poly)
    ensures Plus(a, Plus(Plus(b, c), Plus(d, e))) == Sum(a, b, c, d, e)
  {
    hide Plus, Sum;
    IsXor(b, c);
    IsXor(d, e);
    SumParts(a, b, c, d, e);
  }

  lemma SameSquare(v: Poly)
    ensures FlatSquare(v) == Square(v)
  {
    hide FlatSquare, Spread, Up, Over, OverUp, Plus, Sum;
    var s := Spread(High(v));
    FlatParts(v, Spread(Low(v)), s);
    NestedSum(Spread(Low(v)), s, Up(s), Over(s), OverUp(s));
  }

  function Step(v: Poly, odd: bool): Poly {
    if odd then TimesZ(FlatSquare(v)) else FlatSquare(v)
  }

  function Digit(v: Poly, d: bv4): Poly {
    Step(Step(Step(Step(v, d & 8 != 0), d & 4 != 0), d & 2 != 0), d & 1 != 0)
  }

  function Digits(v: Poly, a: bv4, b: bv4, c: bv4, d: bv4): Poly {
    Digit(Digit(Digit(Digit(v, a), b), c), d)
  }

  function Number(d: bv4): nat {
    (if d & 8 != 0 then 8 else 0) + (if d & 4 != 0 then 4 else 0) + (if d & 2 != 0 then 2 else 0)
    + if d & 1 != 0 then 1 else 0
  }

  lemma StepVal(m: nat, odd: bool)
    ensures Step(Val(m), odd) == Val(2 * m + if odd then 1 else 0)
  {
    hide TimesZ, Square, FlatSquare, Val, Small;
    SameSquare(Val(m));
    SquareVal(m);
    ValNext(2 * m);
  }

  lemma DigitVal(m: nat, d: bv4)
    ensures Digit(Val(m), d) == Val(16 * m + Number(d))
  {
    hide Val, Step;
    var a, b, c := d & 8 != 0, d & 4 != 0, d & 2 != 0;
    StepVal(m, a);
    StepVal(2 * m + (if a then 1 else 0), b);
    StepVal(4 * m + (if a then 2 else 0) + (if b then 1 else 0), c);
    StepVal(8 * m + (if a then 4 else 0) + (if b then 2 else 0) + (if c then 1 else 0), d & 1 != 0);
  }

  lemma DigitsVal(m: nat, a: bv4, b: bv4, c: bv4, d: bv4)
    ensures Digits(Val(m), a, b, c, d) ==
      Val(0x1_0000 * m + 0x1000 * Number(a) + 0x100 * Number(b) + 0x10 * Number(c) + Number(d))
  {
    hide Val, Digit, Number;
    DigitVal(m, a);
    DigitVal(16 * m + Number(a), b);
    DigitVal(0x100 * m + 16 * Number(a) + Number(b), c);
    DigitVal(0x1000 * m + 0x100 * Number(a) + 16 * Number(b) + Number(c), d);
  }

  lemma Raise(m: nat, v: Poly, a: bv4, b: bv4, c: bv4, d: bv4, w: Poly)
    requires Val(m) == v && Digits(v, a, b, c, d) == w
    ensures Val(0x1_0000 * m + 0x1000 * Number(a) + 0x100 * Number(b) + 0x10 * Number(c) + Number(d)) == w
  {
    hide Val, Digits, Number;
    DigitsVal(m, a, b, c, d);
  }

  lemma FullPowerA()
    ensures Val(0x10_0000_0000) == 0x6_B31B_A24B_1EAD_91C4_31C2_B74E
  {
    hide Val;
    ValZero();
    Raise(0x0, 0x1, 0x0, 0x0, 0x1, 0x0,
      0x1_0000);
    Raise(0x10, 0x1_0000, 0x0, 0x0, 0x0, 0x0,
      0x8_C2CB_043E_040E_9CE1_AEF8_0208);
    Raise(0x10_0000, 0x8_C2CB_043E_040E_9CE1_AEF8_0208, 0x0, 0x0, 0x0, 0x0,
      0x6_B31B_A24B_1EAD_91C4_31C2_B74E);
  }

  lemma FullPowerB()
    ensures Val(0x10_0000_0000_0000_0000_0000) == 0xC5C7_9B29_4359_3375_215D_71C2
  {
    hide Val;
    FullPowerA();
    Raise(0x10_0000_0000, 0x6_B31B_A24B_1EAD_91C4_31C2_B74E, 0x0, 0x0, 0x0, 0x0,
      0x4_C51D_364A_1614_093E_8136_D628);
    Raise(0x10_0000_0000_0000, 0x4_C51D_364A_1614_093E_8136_D628, 0x0, 0x0, 0x0, 0x0,
      0x1_5C2F_8E32_6C07_6325_15ED_DC4D);
    Raise(0x10_0000_0000_0000_0000, 0x1_5C2F_8E32_6C07_6325_15ED_DC4D, 0x0, 0x0, 0x0, 0x0,
      0xC5C7_9B29_4359_3375_215D_71C2);
  }

  lemma FullPower()
    ensures Val(0x10_0000_0000_0000_0000_0000_0000) == 0x2
  {
    hide Val;
    FullPowerB();
    Raise(0x10_0000_0000_0000_0000_0000, 0xC5C7_9B29_4359_3375_215D_71C2, 0x0, 0x0, 0x0, 0x0,
      0x2);
  }

  lemma Without8101A()
    ensures Val(0x81_7016_C0B3) == 0xD_5FB3_1C7E_9B87_DAAD_ECEF_D3D3
  {
    hide Val;
    ValZero();
    Raise(0x0, 0x1, 0x0, 0x0, 0x8, 0x1,
      0x4_0000_0000_2000_0000);
    Raise(0x81, 0x4_0000_0000_2000_0000, 0x7, 0x0, 0x1, 0x6,
      0x6_DFA7_B969_ECE0_0B00_A91A_5C70);
    Raise(0x81_7016, 0x6_DFA7_B969_ECE0_0B00_A91A_5C70, 0xC, 0x0, 0xB, 0x3,
      0xD_5FB3_1C7E_9B87_DAAD_ECEF_D3D3);
  }

  lemma Without8101()
    ensures Val(0x81_7016_C0B3_FFDF_A3FA_4FD3) == 0x9_7645_3378_5B5F_646C_CA77_9761
  {
    hide Val;
    Without8101A();
    Raise(0x81_7016_C0B3, 0xD_5FB3_1C7E_9B87_DAAD_ECEF_D3D3, 0xF, 0xF, 0xD, 0xF,
      0x1616_0F15_BE33_340B_002B_D20F);
    Raise(0x81_7016_C0B3_FFDF, 0x1616_0F15_BE33_340B_002B_D20F, 0xA, 0x3, 0xF, 0xA,
      0xF_12E1_F488_4FF8_BBB3_54D2_2A8F);
    Raise(0x81_7016_C0B3_FFDF_A3FA, 0xF_12E1_F488_4FF8_BBB3_54D2_2A8F, 0x4, 0xF, 0xD, 0x3,
      0x9_7645_3378_5B5F_646C_CA77_9761);
  }

  lemma Without4051A()
    ensures Val(0x102_D7FF_7E94) == 0x7_BA86_9C6D_EB9F_59CE_6385_2F04
  {
    hide Val;
    ValZero();
    Raise(0x0, 0x1, 0x0, 0x1, 0x0, 0x2,
      0x20_0400_0001_0000_0000);
    Raise(0x102, 0x20_0400_0001_0000_0000, 0xD, 0x7, 0xF, 0xF,
      0x6_2780_1B97_240D_BC25_B5AF_A412);
    Raise(0x102_D7FF, 0x6_2780_1B97_240D_BC25_B5AF_A412, 0x7, 0xE, 0x9, 0x4,
      0x7_BA86_9C6D_EB9F_59CE_6385_2F04);
  }

  lemma Without4051()
    ensures Val(0x102_D7FF_7E94_0040_B5FF_DFA5) == 0x1_C8BF_1A23_243E_06C9_487D_C67A
  {
    hide Val;
    Without4051A();
    Raise(0x102_D7FF_7E94, 0x7_BA86_9C6D_EB9F_59CE_6385_2F04, 0x0, 0x0, 0x4, 0x0,
      0xE_454D_D21B_9315_0F6F_C84A_EA69);
    Raise(0x102_D7FF_7E94_0040, 0xE_454D_D21B_9315_0F6F_C84A_EA69, 0xB, 0x5, 0xF, 0xF,
      0xD_3BC1_E86C_7FC2_73D8_1CAD_D487);
    Raise(0x102_D7FF_7E94_0040_B5FF, 0xD_3BC1_E86C_7FC2_73D8_1CAD_D487, 0xD, 0xF, 0xA, 0x5,
      0x1_C8BF_1A23_243E_06C9_487D_C67A);
  }

  lemma Without101A()
    ensures Val(0x288D_F0CA_C5B3) == 0x8_C5FB_B77D_F7E5_2781_7E62_9FCC
  {
    hide Val;
    ValZero();
    Raise(0x0, 0x1, 0x2, 0x8, 0x8, 0xD,
      0x49C2_2012_006C_4040_9086_1224);
    Raise(0x288D, 0x49C2_2012_006C_4040_9086_1224, 0xF, 0x0, 0xC, 0xA,
      0x3A59_986E_4947_C30B_163F_3D49);
    Raise(0x288D_F0CA, 0x3A59_986E_4947_C30B_163F_3D49, 0xC, 0x5, 0xB, 0x3,
      0x8_C5FB_B77D_F7E5_2781_7E62_9FCC);
  }

  lemma Without101()
    ensures Val(0x288D_F0CA_C5B3_F5DC_83CD_4E93) == 0x7_4ACD_5B33_F529_1F13_99C7_7725
  {
    hide Val;
    Without101A();
    Raise(0x288D_F0CA_C5B3, 0x8_C5FB_B77D_F7E5_2781_7E62_9FCC, 0xF, 0x5, 0xD, 0xC,
      0x4_4EC4_DEF0_C048_281E_6CB8_B0B6);
    Raise(0x288D_F0CA_C5B3_F5DC, 0x4_4EC4_DEF0_C048_281E_6CB8_B0B6, 0x8, 0x3, 0xC, 0xD,
      0x5_F91A_B246_220E_9384_2C72_EF7B);
    Raise(0x288D_F0CA_C5B3_F5DC_83CD, 0x5_F91A_B246_220E_9384_2C72_EF7B, 0x4, 0xE, 0x9, 0x3,
      0x7_4ACD_5B33_F529_1F13_99C7_7725);
  }
}
