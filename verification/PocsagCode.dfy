/** The error-correcting code of POCSAG (EccContainer in src/apps/pocsag_app.hpp), the algebra: the generator
    x^10 + x^9 + x^8 + x^6 + x^5 + x^3 + 1 is a product of two irreducible factors of degree five, and the
    remainders by them tell every error pattern of weight one or two from every other. */
module PocsagCode {

  datatype Syndrome = Syndrome(v: bv10)

  function Plus(a: Syndrome, b: Syndrome): Syndrome { Syndrome(a.v ^ b.v) }

  const CLEAN := Syndrome(0)

  // ----- the columns of the code

  /** One step of the generator's shift register. */
  function Next(s: Syndrome): Syndrome { Syndrome((s.v >> 1) ^ ((s.v & 1) * 0x3B4)) }

  /** ecs_[n]. */
  function Ecs(n: nat): Syndrome { if n == 0 then Syndrome(0x3B4) else Next(Ecs(n - 1)) }

  /** 1 << n. */
  function Unit(n: nat): Syndrome { if n == 0 then Syndrome(1) else Syndrome(Unit(n - 1).v << 1) }

  /** Stands for no position. */
  const NONE: nat := 31

  /** What an error at position `p`, which is bit 31 - p, adds to the syndrome. */
  function Col(p: nat): Syndrome {
    if p <= 20 then Ecs(p) else if p <= 30 then Unit(30 - p) else CLEAN
  }

  lemma EcsValues()
    ensures Ecs(0) == Syndrome(0x3b4) && Ecs(1) == Syndrome(0x1da) && Ecs(2) == Syndrome(0x0ed)
    ensures Ecs(3) == Syndrome(0x3c2) && Ecs(4) == Syndrome(0x1e1) && Ecs(5) == Syndrome(0x344)
    ensures Ecs(6) == Syndrome(0x1a2) && Ecs(7) == Syndrome(0x0d1) && Ecs(8) == Syndrome(0x3dc)
    ensures Ecs(9) == Syndrome(0x1ee) && Ecs(10) == Syndrome(0x0f7) && Ecs(11) == Syndrome(0x3cf)
    ensures Ecs(12) == Syndrome(0x253) && Ecs(13) == Syndrome(0x29d) && Ecs(14) == Syndrome(0x2fa)
    ensures Ecs(15) == Syndrome(0x17d) && Ecs(16) == Syndrome(0x30a) && Ecs(17) == Syndrome(0x185)
    ensures Ecs(18) == Syndrome(0x376) && Ecs(19) == Syndrome(0x1bb) && Ecs(20) == Syndrome(0x369)
  {
    assert Ecs(0) == Syndrome(0x3b4);
    assert Ecs(2) == Syndrome(0x0ed);
    assert Ecs(4) == Syndrome(0x1e1);
    assert Ecs(6) == Syndrome(0x1a2);
    assert Ecs(8) == Syndrome(0x3dc);
    assert Ecs(10) == Syndrome(0x0f7);
    assert Ecs(12) == Syndrome(0x253);
    assert Ecs(14) == Syndrome(0x2fa);
    assert Ecs(16) == Syndrome(0x30a);
    assert Ecs(18) == Syndrome(0x376);
    assert Ecs(20) == Syndrome(0x369);
  }

  lemma UnitValues()
    ensures Unit(0) == Syndrome(0x001) && Unit(1) == Syndrome(0x002) && Unit(2) == Syndrome(0x004) && Unit(3) == Syndrome(0x008) && Unit(4) == Syndrome(0x010)
    ensures Unit(5) == Syndrome(0x020) && Unit(6) == Syndrome(0x040) && Unit(7) == Syndrome(0x080) && Unit(8) == Syndrome(0x100) && Unit(9) == Syndrome(0x200)
  {
    assert Unit(2) == Syndrome(4) && Unit(4) == Syndrome(16) && Unit(6) == Syndrome(64);
  }

  function ColTable(p: nat): bv10 {
    if p == 0 then 0x3b4 else if p == 1 then 0x1da else if p == 2 then 0x0ed else if p == 3 then 0x3c2 else if p == 4 then 0x1e1 else if p == 5 then 0x344
    else if p == 6 then 0x1a2 else if p == 7 then 0x0d1 else if p == 8 then 0x3dc else if p == 9 then 0x1ee else if p == 10 then 0x0f7 else if p == 11 then 0x3cf
    else if p == 12 then 0x253 else if p == 13 then 0x29d else if p == 14 then 0x2fa else if p == 15 then 0x17d else if p == 16 then 0x30a else if p == 17 then 0x185
    else if p == 18 then 0x376 else if p == 19 then 0x1bb else if p == 20 then 0x369 else if p == 21 then 0x200 else if p == 22 then 0x100 else if p == 23 then 0x080
    else if p == 24 then 0x040 else if p == 25 then 0x020 else if p == 26 then 0x010 else if p == 27 then 0x008 else if p == 28 then 0x004 else if p == 29 then 0x002
    else if p == 30 then 0x001
    else 0x000
  }

  lemma ColValue(p: nat)
    requires p <= NONE
    ensures Col(p) == Syndrome(ColTable(p))
  {
    hide Ecs, Unit;
    EcsValues();
    UnitValues();
  }

  // ----- remainders by the two factors

  /** x^5 + x^2 + 1 and x^5 + x^4 + x^3 + x^2 + 1. */
  datatype Factor = First | Second

  /** Replaces x^5 by the rest of the factor, once. */
  function Fold(f: Factor, s: Syndrome): Syndrome {
    match f
    case First => Syndrome((s.v & 0x1F) ^ (s.v >> 5) ^ ((s.v >> 5) << 2))
    case Second => Syndrome((s.v & 0x1F) ^ (s.v >> 5) ^ ((s.v >> 5) << 2) ^ ((s.v >> 5) << 3) ^ ((s.v >> 5) << 4))
  }

  function Remainder(f: Factor, s: Syndrome): Syndrome {
    Fold(f, Fold(f, Fold(f, Fold(f, Fold(f, s)))))
  }

  lemma FoldIsLinear(f: Factor, a: Syndrome, b: Syndrome)
    ensures Fold(f, Plus(a, b)) == Plus(Fold(f, a), Fold(f, b))
  {
    if f == First {
    } else {
    }
  }

  lemma RemainderIsLinear(f: Factor, a: Syndrome, b: Syndrome)
    ensures Remainder(f, Plus(a, b)) == Plus(Remainder(f, a), Remainder(f, b))
  {
    hide Fold, Plus;
    var a1, b1 := Fold(f, a), Fold(f, b);
    var a2, b2 := Fold(f, a1), Fold(f, b1);
    var a3, b3 := Fold(f, a2), Fold(f, b2);
    var a4, b4 := Fold(f, a3), Fold(f, b3);
    FoldIsLinear(f, a, b);
    FoldIsLinear(f, a1, b1);
    FoldIsLinear(f, a2, b2);
    FoldIsLinear(f, a3, b3);
    FoldIsLinear(f, a4, b4);
  }

  /** x^i modulo the first factor, and modulo the second. */
  function PowerTable1(i: nat): bv10 {
    if i == 0 then 0x01 else if i == 1 then 0x02 else if i == 2 then 0x04 else if i == 3 then 0x08 else if i == 4 then 0x10 else if i == 5 then 0x05
    else if i == 6 then 0x0a else if i == 7 then 0x14 else if i == 8 then 0x0d else if i == 9 then 0x1a else if i == 10 then 0x11 else if i == 11 then 0x07
    else if i == 12 then 0x0e else if i == 13 then 0x1c else if i == 14 then 0x1d else if i == 15 then 0x1f else if i == 16 then 0x1b else if i == 17 then 0x13
    else if i == 18 then 0x03 else if i == 19 then 0x06 else if i == 20 then 0x0c else if i == 21 then 0x18 else if i == 22 then 0x15 else if i == 23 then 0x0f
    else if i == 24 then 0x1e else if i == 25 then 0x19 else if i == 26 then 0x17 else if i == 27 then 0x0b else if i == 28 then 0x16 else if i == 29 then 0x09
    else if i == 30 then 0x12
    else 0x00
  }

  function PowerTable2(i: nat): bv10 {
    if i == 0 then 0x01 else if i == 1 then 0x02 else if i == 2 then 0x04 else if i == 3 then 0x08 else if i == 4 then 0x10 else if i == 5 then 0x1d
    else if i == 6 then 0x07 else if i == 7 then 0x0e else if i == 8 then 0x1c else if i == 9 then 0x05 else if i == 10 then 0x0a else if i == 11 then 0x14
    else if i == 12 then 0x15 else if i == 13 then 0x17 else if i == 14 then 0x13 else if i == 15 then 0x1b else if i == 16 then 0x0b else if i == 17 then 0x16
    else if i == 18 then 0x11 else if i == 19 then 0x1f else if i == 20 then 0x03 else if i == 21 then 0x06 else if i == 22 then 0x0c else if i == 23 then 0x18
    else if i == 24 then 0x0d else if i == 25 then 0x1a else if i == 26 then 0x09 else if i == 27 then 0x12 else if i == 28 then 0x19 else if i == 29 then 0x0f
    else if i == 30 then 0x1e
    else 0x00
  }

  function Power(f: Factor, i: nat): Syndrome {
    Syndrome(if f == First then PowerTable1(i) else PowerTable2(i))
  }

  lemma NothingRemains(f: Factor)
    ensures Remainder(f, CLEAN) == CLEAN
  {
  }

  // ----- logarithms of sums

  /** 31 is where the powers of x come round. */
  function Wrap(i: int): (r: int)
    requires -31 <= i < 62
    ensures 0 <= r < 31
  {
    if i < 0 then i + 31 else if i >= 31 then i - 31 else i
  }

  /** 1 + x^d as a power of x, by either factor. */
  function ZechTable1(d: nat): nat {
    if d == 1 then 18 else if d == 2 then 5 else if d == 3 then 29 else if d == 4 then 10 else if d == 5 then 2 else if d == 6 then 27 else if d == 7 then 22 else if d == 8 then 20
    else if d == 9 then 16 else if d == 10 then 4 else if d == 11 then 19 else if d == 12 then 23 else if d == 13 then 14 else if d == 14 then 13 else if d == 15 then 24 else if d == 16 then 9
    else if d == 17 then 30 else if d == 18 then 1 else if d == 19 then 11 else if d == 20 then 8 else if d == 21 then 25 else if d == 22 then 7 else if d == 23 then 12 else if d == 24 then 15
    else if d == 25 then 21 else if d == 26 then 28 else if d == 27 then 6 else if d == 28 then 26 else if d == 29 then 3 else if d == 30 then 17
    else 0
  }

  function ZechTable2(d: nat): nat {
    if d == 1 then 20 else if d == 2 then 9 else if d == 3 then 26 else if d == 4 then 18 else if d == 5 then 8 else if d == 6 then 21 else if d == 7 then 29 else if d == 8 then 5
    else if d == 9 then 2 else if d == 10 then 16 else if d == 11 then 12 else if d == 12 then 11 else if d == 13 then 17 else if d == 14 then 27 else if d == 15 then 25 else if d == 16 then 10
    else if d == 17 then 13 else if d == 18 then 4 else if d == 19 then 30 else if d == 20 then 1 else if d == 21 then 6 else if d == 22 then 24 else if d == 23 then 28 else if d == 24 then 22
    else if d == 25 then 15 else if d == 26 then 3 else if d == 27 then 14 else if d == 28 then 23 else if d == 29 then 7 else if d == 30 then 19
    else 0
  }

  function Zech(f: Factor, d: nat): (z: nat)
    ensures z < 31
  {
    if f == First then ZechTable1(d) else ZechTable2(d)
  }

  function TimesX(f: Factor, s: Syndrome): Syndrome {
    match f
    case First => Syndrome((s.v << 1) ^ (((s.v >> 4) & 1) * 0x25))
    case Second => Syndrome((s.v << 1) ^ (((s.v >> 4) & 1) * 0x3D))
  }

  lemma TimesXIsLinear(f: Factor, a: Syndrome, b: Syndrome)
    ensures TimesX(f, Plus(a, b)) == Plus(TimesX(f, a), TimesX(f, b))
  {
    if f == First {
    } else {
    }
  }

  lemma NextPower1(i: nat)
    requires i < 31
    ensures TimesX(First, Syndrome(PowerTable1(i))).v == PowerTable1(Wrap(i + 1))
  {
  }

  lemma NextPower2(i: nat)
    requires i < 31
    ensures TimesX(Second, Syndrome(PowerTable2(i))).v == PowerTable2(Wrap(i + 1))
  {
  }

  lemma NextPower(f: Factor, i: nat)
    requires i < 31
    ensures TimesX(f, Power(f, i)) == Power(f, Wrap(i + 1))
  {
    hide TimesX, PowerTable1, PowerTable2;
    if f == First {
      NextPower1(i);
    } else {
      NextPower2(i);
    }
  }

  lemma DoubleMultiplies(f: Factor, s: Syndrome)
    requires s.v < 0x200
    ensures TimesX(f, Remainder(f, s)) == Remainder(f, Syndrome(s.v << 1))
  {
    if f == First {
    } else {
    }
  }

  lemma WrappedGenerator(f: Factor)
    ensures TimesX(f, Remainder(f, Syndrome(0x200))) == Remainder(f, Syndrome(0x369))
  {
    if f == First {
    } else {
    }
  }

  lemma EvenNext(s: Syndrome)
    requires s.v & 1 == 0
    ensures Next(s).v < 0x200 && Syndrome(Next(s).v << 1) == s
  {
  }

  lemma OddNext(s: Syndrome)
    requires s.v & 1 != 0
    ensures var t := Plus(Next(s), Syndrome(0x200));
            t.v < 0x200 && Next(s) == Plus(t, Syndrome(0x200)) && s == Plus(Syndrome(t.v << 1), Syndrome(0x369))
  {
  }

  /** A step of the generator's shift register divides by x. */
  lemma NextDivides(f: Factor, s: Syndrome)
    ensures TimesX(f, Remainder(f, Next(s))) == Remainder(f, s)
  {
    hide TimesX, Remainder, Next, Plus;
    if s.v & 1 == 0 {
      EvenNext(s);
      DoubleMultiplies(f, Next(s));
    } else {
      OddNext(s);
      var t, top := Plus(Next(s), Syndrome(0x200)), Syndrome(0x200);
      RemainderIsLinear(f, t, top);
      TimesXIsLinear(f, Remainder(f, t), Remainder(f, top));
      DoubleMultiplies(f, t);
      WrappedGenerator(f);
      RemainderIsLinear(f, Syndrome(t.v << 1), Syndrome(0x369));
    }
  }

  /** Every column is x times the next one. */
  lemma ColStep(f: Factor, p: nat)
    requires p < 30
    ensures TimesX(f, Remainder(f, Col(p + 1))) == Remainder(f, Col(p))
  {
    hide TimesX, Remainder, Next, Ecs, Unit;
    UnitValues();
    if p < 20 {
      EcsStep(p);
      NextDivides(f, Ecs(p));
    } else if p == 20 {
      EcsValues();
      WrappedGenerator(f);
    } else {
      UnitStep(29 - p);
      DoubleMultiplies(f, Unit(29 - p));
    }
  }

  lemma EcsStep(n: nat)
    ensures Ecs(n + 1) == Next(Ecs(n))
  {
  }

  lemma UnitStep(n: nat)
    requires n < 9
    ensures Unit(n + 1) == Syndrome(Unit(n).v << 1) && Unit(n).v < 0x200
  {
    hide Unit;
    UnitValues();
  }

  lemma LastCol(f: Factor)
    ensures Remainder(f, Col(30)) == Power(f, 0)
  {
  }

  /** The column of position `p` is the power 30 - p of x, by either factor. */
  lemma {:induction false} ColIsPower(f: Factor, p: nat)
    requires p <= 30
    ensures Remainder(f, Col(p)) == Power(f, 30 - p)
    decreases 30 - p
  {
    hide Col, Power, Remainder, TimesX;
    if p == 30 {
      LastCol(f);
    } else {
      ColIsPower(f, p + 1);
      ColStep(f, p);
      NextPower(f, 29 - p);
    }
  }

  lemma SumWithOne1(d: nat)
    requires 1 <= d < 31
    ensures 0x01 ^ PowerTable1(d) == PowerTable1(ZechTable1(d))
  {
    if d < 8 {
    } else if d < 16 {
    } else if d < 24 {
    } else {
    }
  }

  lemma SumWithOne2(d: nat)
    requires 1 <= d < 31
    ensures 0x01 ^ PowerTable2(d) == PowerTable2(ZechTable2(d))
  {
    if d < 8 {
    } else if d < 16 {
    } else if d < 24 {
    } else {
    }
  }

  lemma PowerZero(f: Factor)
    ensures Power(f, 0) == Syndrome(0x01)
  {
  }

  lemma SumWithOne(f: Factor, d: nat)
    requires 1 <= d < 31
    ensures Plus(Power(f, 0), Power(f, d)) == Power(f, Zech(f, d))
  {
    hide PowerTable1, PowerTable2, ZechTable1, ZechTable2;
    PowerZero(f);
    if f == First {
      SumWithOne1(d);
    } else {
      SumWithOne2(d);
    }
  }

  /** The sum of two powers of x is a power of x. */
  lemma {:induction false} SumOfPowers(f: Factor, i: nat, j: nat)
    requires i < 31 && j < 31 && i != j
    ensures Plus(Power(f, i), Power(f, j)) == Power(f, Wrap(i + Zech(f, Wrap(j - i))))
    decreases i
  {
    hide Plus, Power, Zech, TimesX;
    if i == 0 {
      SumWithOne(f, j);
    } else {
      var k := Wrap(j - 1);
      SumOfPowers(f, i - 1, k);
      TimesXIsLinear(f, Power(f, i - 1), Power(f, k));
      NextPower(f, i - 1);
      NextPower(f, k);
      NextPower(f, Wrap(i - 1 + Zech(f, Wrap(k - (i - 1)))));
    }
  }

  lemma PowersDiffer(f: Factor, i: nat, j: nat)
    requires i < 31 && j < 31 && Power(f, i) == Power(f, j)
    ensures i == j
  {
    hide Power;
    LogOfPower(f, i);
    LogOfPower(f, j);
  }

  function Log(f: Factor, s: Syndrome): nat {
    if f == First then LogTable1(s.v) else LogTable2(s.v)
  }

  function LogTable1(v: bv10): nat {
    if v == 0x01 then 0 else if v == 0x02 then 1 else if v == 0x03 then 18 else if v == 0x04 then 2 else if v == 0x05 then 5 else if v == 0x06 then 19 else if v == 0x07 then 11
    else if v == 0x08 then 3 else if v == 0x09 then 29 else if v == 0x0a then 6 else if v == 0x0b then 27 else if v == 0x0c then 20 else if v == 0x0d then 8 else if v == 0x0e then 12
    else if v == 0x0f then 23 else if v == 0x10 then 4 else if v == 0x11 then 10 else if v == 0x12 then 30 else if v == 0x13 then 17 else if v == 0x14 then 7 else if v == 0x15 then 22
    else if v == 0x16 then 28 else if v == 0x17 then 26 else if v == 0x18 then 21 else if v == 0x19 then 25 else if v == 0x1a then 9 else if v == 0x1b then 16 else if v == 0x1c then 13
    else if v == 0x1d then 14 else if v == 0x1e then 24 else if v == 0x1f then 15
    else 31
  }

  function LogTable2(v: bv10): nat {
    if v == 0x01 then 0 else if v == 0x02 then 1 else if v == 0x03 then 20 else if v == 0x04 then 2 else if v == 0x05 then 9 else if v == 0x06 then 21 else if v == 0x07 then 6
    else if v == 0x08 then 3 else if v == 0x09 then 26 else if v == 0x0a then 10 else if v == 0x0b then 16 else if v == 0x0c then 22 else if v == 0x0d then 24 else if v == 0x0e then 7
    else if v == 0x0f then 29 else if v == 0x10 then 4 else if v == 0x11 then 18 else if v == 0x12 then 27 else if v == 0x13 then 14 else if v == 0x14 then 11 else if v == 0x15 then 12
    else if v == 0x16 then 17 else if v == 0x17 then 13 else if v == 0x18 then 23 else if v == 0x19 then 28 else if v == 0x1a then 25 else if v == 0x1b then 15 else if v == 0x1c then 8
    else if v == 0x1d then 5 else if v == 0x1e then 30 else if v == 0x1f then 19
    else 31
  }

  lemma LogOfPower1(i: nat)
    requires i < 31
    ensures LogTable1(PowerTable1(i)) == i && PowerTable1(i) != 0
  {
  }

  lemma LogOfPower2(i: nat)
    requires i < 31
    ensures LogTable2(PowerTable2(i)) == i && PowerTable2(i) != 0
  {
  }

  lemma LogOfPower(f: Factor, i: nat)
    requires i < 31
    ensures Log(f, Power(f, i)) == i
    ensures Power(f, i) != CLEAN
  {
    hide PowerTable1, PowerTable2, LogTable1, LogTable2;
    if f == First {
      LogOfPower1(i);
    } else {
      LogOfPower2(i);
    }
  }

  // ----- no two patterns of weight one or two have the same syndrome

  /** How far the two factors disagree about a difference. */
  function Gap(d: nat): int { Wrap(Zech(First, d) - Zech(Second, d)) }

  /** The disagreement gives away the difference, up to its direction. */
  lemma GapTells(d: nat, e: nat)
    requires 1 <= d < 31 && 1 <= e < 31 && Gap(d) == Gap(e)
    ensures d == e || d == 31 - e
  {
    hide Gap;
    GapOf(d);
    GapOf(e);
  }

  function GapTable(g: int): nat {
    if g == 29 then 1 else if g == 27 then 2 else if g == 3 then 3 else if g == 23 then 4 else if g == 25 then 5 else if g == 6 then 6 else if g == 24 then 7 else if g == 15 then 8
    else if g == 14 then 9 else if g == 19 then 10 else if g == 7 then 11 else if g == 12 then 12 else if g == 28 then 13 else if g == 17 then 14 else if g == 30 then 15
    else 0
  }

  lemma SmallGapOf(d: nat)
    requires 1 <= d <= 15
    ensures GapTable(Gap(d)) == d && Gap(d) != 0
  {
    if d < 4 {
    } else if d < 8 {
    } else if d < 12 {
    } else {
    }
  }

  lemma GapOf(d: nat)
    requires 1 <= d < 31
    ensures GapTable(Gap(d)) == if d <= 15 then d else 31 - d
    ensures Gap(d) != 0
  {
    hide GapTable, Zech;
    if d <= 15 {
      SmallGapOf(d);
    } else {
      SmallGapOf(31 - d);
      ZechMirrored(First, d);
      ZechMirrored(Second, d);
    }
  }

  lemma ZechMirrored(f: Factor, d: nat)
    requires 1 <= d < 31
    ensures Zech(f, 31 - d) == Wrap(Zech(f, d) - d)
  {
    if f == First {
    } else {
    }
  }

  /** The logarithm of the sum of the columns of two positions, by either factor. */
  function SumLog(f: Factor, p: nat, q: nat): (r: nat)
    requires p <= 30 && q <= 30
    ensures r < 31
  {
    Wrap(30 - p + Zech(f, Wrap(p - q)))
  }

  lemma PairIsPower(f: Factor, p: nat, q: nat)
    requires p <= 30 && q <= 30 && p != q
    ensures Remainder(f, Plus(Col(p), Col(q))) == Power(f, SumLog(f, p, q))
  {
    hide Remainder, Col, Plus, Power, Zech;
    ColIsPower(f, p);
    ColIsPower(f, q);
    RemainderIsLinear(f, Col(p), Col(q));
    SumOfPowers(f, 30 - p, 30 - q);
  }

  /** Two errors are told from any other two. */
  lemma PairsDiffer(p: nat, q: nat, r: nat, s: nat)
    requires p <= 30 && q <= 30 && r <= 30 && s <= 30 && p != q && r != s
    requires Plus(Col(p), Col(q)) == Plus(Col(r), Col(s))
    ensures (p == r && q == s) || (p == s && q == r)
  {
    hide Remainder, Col, Plus, Power, SumLog;
    PairIsPower(First, p, q);
    PairIsPower(First, r, s);
    PowersDiffer(First, SumLog(First, p, q), SumLog(First, r, s));
    PairIsPower(Second, p, q);
    PairIsPower(Second, r, s);
    PowersDiffer(Second, SumLog(Second, p, q), SumLog(Second, r, s));
    LogsTell(p, q, r, s);
  }

  lemma LogsTell(p: nat, q: nat, r: nat, s: nat)
    requires p <= 30 && q <= 30 && r <= 30 && s <= 30 && p != q && r != s
    requires SumLog(First, p, q) == SumLog(First, r, s) && SumLog(Second, p, q) == SumLog(Second, r, s)
    ensures (p == r && q == s) || (p == s && q == r)
  {
    hide Zech, Wrap;
    var d, e := Wrap(p - q), Wrap(r - s);
    WrapApart(p, q);
    WrapApart(r, s);
    SumsGiveGap(p, r, Zech(First, d), Zech(First, e), Zech(Second, d), Zech(Second, e));
    GapTells(d, e);
    if d == e {
      SameSum(p, q, r, s, Zech(First, d));
    } else {
      ZechMirrored(First, d);
      MirroredSum(p, q, r, s, Zech(First, d), Zech(First, e));
    }
  }

  lemma WrapApart(p: nat, q: nat)
    requires p <= 30 && q <= 30 && p != q
    ensures 1 <= Wrap(p - q) < 31
  {
  }

  lemma SumsGiveGap(p: nat, r: nat, y: nat, z: nat, u: nat, v: nat)
    requires p <= 30 && r <= 30 && y < 31 && z < 31 && u < 31 && v < 31
    requires Wrap(30 - p + y) == Wrap(30 - r + z) && Wrap(30 - p + u) == Wrap(30 - r + v)
    ensures Wrap(y - u) == Wrap(z - v)
  {
  }

  lemma SameSum(p: nat, q: nat, r: nat, s: nat, z: nat)
    requires p <= 30 && q <= 30 && r <= 30 && s <= 30 && z < 31
    requires Wrap(30 - p + z) == Wrap(30 - r + z) && Wrap(p - q) == Wrap(r - s)
    ensures p == r && q == s
  {
  }

  lemma MirroredSum(p: nat, q: nat, r: nat, s: nat, y: nat, z: nat)
    requires p <= 30 && q <= 30 && r <= 30 && s <= 30 && p != q && r != s && y < 31 && z < 31
    requires Wrap(p - q) == 31 - Wrap(r - s) && z == Wrap(y - Wrap(p - q)) && Wrap(30 - p + y) == Wrap(30 - r + z)
    ensures p == s && q == r
  {
  }

  /** Two errors are told from one. */
  lemma PairIsNotSingle(p: nat, q: nat, r: nat)
    requires p <= 30 && q <= 30 && r <= 30 && p != q
    ensures Plus(Col(p), Col(q)) != Col(r)
  {
    hide Remainder, Col, Plus, Power, Zech;
    if Plus(Col(p), Col(q)) == Col(r) {
      PairIsPower(First, p, q);
      PairIsPower(Second, p, q);
      ColIsPower(First, r);
      ColIsPower(Second, r);
      PowersDiffer(First, SumLog(First, p, q), 30 - r);
      PowersDiffer(Second, SumLog(Second, p, q), 30 - r);
      GapOf(Wrap(p - q));
    }
  }

  lemma ColsDiffer(p: nat, q: nat)
    requires p <= 30 && q <= 30 && Col(p) == Col(q)
    ensures p == q
  {
    hide Remainder, Col, Power;
    ColIsPower(First, p);
    ColIsPower(First, q);
    PowersDiffer(First, 30 - p, 30 - q);
  }

  lemma ColIsNotClean(p: nat)
    requires p <= 30
    ensures Col(p) != CLEAN
  {
    hide Remainder, Col, Power;
    ColIsPower(First, p);
    NothingRemains(First);
    LogOfPower(First, 30 - p);
  }

  lemma PlusFacts(a: Syndrome, b: Syndrome)
    ensures Plus(a, b) == Plus(b, a) && Plus(a, CLEAN) == a && Plus(CLEAN, a) == a
    ensures Plus(a, b) == CLEAN ==> a == b
    ensures Plus(a, a) == CLEAN
  {
  }

  lemma NoColumn()
    ensures Col(NONE) == CLEAN
  {
  }

  /** Every error pattern of weight one or two has a syndrome of its own, and never the clean one. */
  lemma PatternsDiffer(p: nat, q: nat, r: nat, s: nat)
    requires p <= NONE && q <= NONE && r <= NONE && s <= NONE && p != q
    requires Plus(Col(p), Col(q)) == Plus(Col(r), Col(s))
    ensures (p == r && q == s) || (p == s && q == r)
  {
    hide Col, Plus;
    NoColumn();
    PlusFacts(Col(p), Col(q));
    PlusFacts(Col(q), Col(p));
    PlusFacts(Col(r), Col(s));
    PlusFacts(Col(s), Col(r));
    var a, b := if p < q then p else q, if p < q then q else p;
    var c, d := if r < s then r else s, if r < s then s else r;
    if b <= 30 {
      if c == d {
        ColsDiffer(p, q);
      } else if d <= 30 {
        PairsDiffer(p, q, r, s);
      } else {
        PairIsNotSingle(p, q, c);
      }
    } else {
      ColIsNotClean(a);
      if c < d <= 30 {
        PairIsNotSingle(r, s, a);
      } else if c < d {
        ColsDiffer(a, c);
      }
    }
  }
}
