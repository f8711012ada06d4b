/**
 * The roots of the CashAddr check polynomial (src/cashaddr/cashaddr.cpp): an element of GF(2^20) of order 1025,
 * and its 30th power. Both are found through their traces, which lie in GF(1024).
 */
module CashAddrRoots {
  import opened Group
  import opened LinearRegister
  import opened BinaryField
  import opened QuadraticExtension
  import opened RootBound
  import opened Traces
  import opened CashAddrChecksum
  import opened CashAddrField

  const TRACE: Small := Number(4, 12)
  const GAMMA: Element := Pair(Number(0, 0), TRACE)
  const DELTA: Element := Pair(TRACE, TRACE)

  lemma Unit1()
    ensures GF1024.mul(SHIFT, TRACE) == Number(26, 23)
  {
  }

  lemma Unit2()
    ensures GF1024.mul(TRACE, Number(26, 23)) == Number(1, 0)
  {
  }

  /** The element and its inverse. */
  lemma GammaDelta()
    ensures GF20.mul(GAMMA, DELTA) == GF20.one && GF20.plus.add(GAMMA, DELTA) == TOWER.lift(TRACE)
  {
    GF20Lawful();
    Unit1();
    Unit2();
    var zero := GF1024.plus.zero;
    MulZero(GF1024, GF1024.plus.add(zero, TRACE));
    ZeroLeft(GF1024.plus, TRACE);
    ZeroLeft(GF1024.plus, Number(1, 0));
    assert Conjugate(GF1024, GAMMA) == DELTA && Norm(GF1024, SHIFT, GAMMA) == GF1024.one;
    NormIsProduct(GF1024, SHIFT, GAMMA);
    Twice(GF1024, TRACE);
  }

  // ----- Traces of powers -----

  /**
   * Each trace from smaller ones: those of the powers 2, 4, 8, 16, 32, 64, 128, 256, 512, then 3, 5, 9, 17, 33,
   * 65, 129, 257, 513, 1025, then 7, 15, 30, 6, 12, 13, 25, 26, 51, 52, 102, 103 and 205.
   */
  ghost predicate TraceTable(k: Field<Small>) {
    && k.mul(Number(4, 12), Number(4, 12)) == Number(18, 2)
    && k.mul(Number(18, 2), Number(18, 2)) == Number(26, 4)
    && k.mul(Number(26, 4), Number(26, 4)) == Number(28, 16)
    && k.mul(Number(28, 16), Number(28, 16)) == Number(2, 26)
    && k.mul(Number(2, 26), Number(2, 26)) == Number(8, 12)
    && k.mul(Number(8, 12), Number(8, 12)) == Number(16, 2)
    && k.mul(Number(16, 2), Number(16, 2)) == Number(30, 4)
    && k.mul(Number(30, 4), Number(30, 4)) == Number(12, 16)
    && k.mul(Number(12, 16), Number(12, 16)) == Number(24, 26)
    && k.plus.add(k.mul(Number(18, 2), Number(4, 12)), Number(4, 12)) == Number(6, 27)
    && k.plus.add(k.mul(Number(6, 27), Number(18, 2)), Number(4, 12)) == Number(12, 14)
    && k.plus.add(k.mul(Number(12, 14), Number(26, 4)), Number(4, 12)) == Number(9, 5)
    && k.plus.add(k.mul(Number(9, 5), Number(28, 16)), Number(4, 12)) == Number(12, 4)
    && k.plus.add(k.mul(Number(12, 4), Number(2, 26)), Number(4, 12)) == Number(15, 11)
    && k.plus.add(k.mul(Number(15, 11), Number(8, 12)), Number(4, 12)) == Number(8, 31)
    && k.plus.add(k.mul(Number(8, 31), Number(16, 2)), Number(4, 12)) == Number(30, 23)
    && k.plus.add(k.mul(Number(30, 23), Number(30, 4)), Number(4, 12)) == Number(22, 5)
    && k.plus.add(k.mul(Number(22, 5), Number(12, 16)), Number(4, 12)) == Number(24, 26)
    && k.plus.add(k.mul(Number(24, 26), Number(24, 26)), Number(4, 12)) == Number(0, 0)
    && k.plus.add(k.mul(Number(26, 4), Number(6, 27)), Number(4, 12)) == Number(29, 21)
    && k.plus.add(k.mul(Number(28, 16), Number(29, 21)), Number(4, 12)) == Number(24, 19)
    && k.mul(Number(24, 19), Number(24, 19)) == Number(23, 31)
    && k.mul(Number(6, 27), Number(6, 27)) == Number(25, 13)
    && k.mul(Number(25, 13), Number(25, 13)) == Number(10, 3)
    && k.plus.add(k.mul(Number(29, 21), Number(25, 13)), Number(4, 12)) == Number(13, 30)
    && k.plus.add(k.mul(Number(13, 30), Number(10, 3)), Number(4, 12)) == Number(6, 3)
    && k.mul(Number(13, 30), Number(13, 30)) == Number(31, 28)
    && k.plus.add(k.mul(Number(31, 28), Number(6, 3)), Number(4, 12)) == Number(25, 19)
    && k.mul(Number(31, 28), Number(31, 28)) == Number(5, 24)
    && k.mul(Number(25, 19), Number(25, 19)) == Number(22, 31)
    && k.plus.add(k.mul(Number(5, 24), Number(25, 19)), Number(4, 12)) == Number(20, 7)
    && k.plus.add(k.mul(Number(20, 7), Number(22, 31)), Number(4, 12)) == Number(0, 1)
  }

  lemma Traces1()
    ensures GF1024.mul(Number(4, 12), Number(4, 12)) == Number(18, 2)
    ensures GF1024.mul(Number(18, 2), Number(18, 2)) == Number(26, 4)
    ensures GF1024.mul(Number(26, 4), Number(26, 4)) == Number(28, 16)
    ensures GF1024.mul(Number(28, 16), Number(28, 16)) == Number(2, 26)
  {
  }

  lemma Traces2()
    ensures GF1024.mul(Number(2, 26), Number(2, 26)) == Number(8, 12)
    ensures GF1024.mul(Number(8, 12), Number(8, 12)) == Number(16, 2)
    ensures GF1024.mul(Number(16, 2), Number(16, 2)) == Number(30, 4)
    ensures GF1024.mul(Number(30, 4), Number(30, 4)) == Number(12, 16)
  {
  }

  lemma Traces3()
    ensures GF1024.mul(Number(12, 16), Number(12, 16)) == Number(24, 26)
    ensures GF1024.plus.add(GF1024.mul(Number(18, 2), Number(4, 12)), Number(4, 12)) == Number(6, 27)
    ensures GF1024.plus.add(GF1024.mul(Number(6, 27), Number(18, 2)), Number(4, 12)) == Number(12, 14)
    ensures GF1024.plus.add(GF1024.mul(Number(12, 14), Number(26, 4)), Number(4, 12)) == Number(9, 5)
  {
  }

  lemma Traces4()
    ensures GF1024.plus.add(GF1024.mul(Number(9, 5), Number(28, 16)), Number(4, 12)) == Number(12, 4)
    ensures GF1024.plus.add(GF1024.mul(Number(12, 4), Number(2, 26)), Number(4, 12)) == Number(15, 11)
    ensures GF1024.plus.add(GF1024.mul(Number(15, 11), Number(8, 12)), Number(4, 12)) == Number(8, 31)
    ensures GF1024.plus.add(GF1024.mul(Number(8, 31), Number(16, 2)), Number(4, 12)) == Number(30, 23)
  {
  }

  lemma Traces5()
    ensures GF1024.plus.add(GF1024.mul(Number(30, 23), Number(30, 4)), Number(4, 12)) == Number(22, 5)
    ensures GF1024.plus.add(GF1024.mul(Number(22, 5), Number(12, 16)), Number(4, 12)) == Number(24, 26)
    ensures GF1024.plus.add(GF1024.mul(Number(24, 26), Number(24, 26)), Number(4, 12)) == Number(0, 0)
    ensures GF1024.plus.add(GF1024.mul(Number(26, 4), Number(6, 27)), Number(4, 12)) == Number(29, 21)
  {
  }

  lemma Traces6()
    ensures GF1024.plus.add(GF1024.mul(Number(28, 16), Number(29, 21)), Number(4, 12)) == Number(24, 19)
    ensures GF1024.mul(Number(24, 19), Number(24, 19)) == Number(23, 31)
    ensures GF1024.mul(Number(6, 27), Number(6, 27)) == Number(25, 13)
    ensures GF1024.mul(Number(25, 13), Number(25, 13)) == Number(10, 3)
  {
  }

  lemma Traces7()
    ensures GF1024.plus.add(GF1024.mul(Number(29, 21), Number(25, 13)), Number(4, 12)) == Number(13, 30)
    ensures GF1024.plus.add(GF1024.mul(Number(13, 30), Number(10, 3)), Number(4, 12)) == Number(6, 3)
    ensures GF1024.mul(Number(13, 30), Number(13, 30)) == Number(31, 28)
    ensures GF1024.plus.add(GF1024.mul(Number(31, 28), Number(6, 3)), Number(4, 12)) == Number(25, 19)
  {
  }

  lemma Traces8()
    ensures GF1024.mul(Number(31, 28), Number(31, 28)) == Number(5, 24)
    ensures GF1024.mul(Number(25, 19), Number(25, 19)) == Number(22, 31)
    ensures GF1024.plus.add(GF1024.mul(Number(5, 24), Number(25, 19)), Number(4, 12)) == Number(20, 7)
    ensures GF1024.plus.add(GF1024.mul(Number(20, 7), Number(22, 31)), Number(4, 12)) == Number(0, 1)
  {
  }

  lemma TraceTableHolds()
    ensures TraceTable(GF1024)
  {
    Traces1();
    Traces2();
    Traces3();
    Traces4();
    Traces5();
    Traces6();
    Traces7();
    Traces8();
  }

  lemma TracesOf(i: Inside<Small, Element>, x: Element, y: Element)
    requires i.Lawful() && TraceTable(i.k) && i.f.mul(x, y) == i.f.one && i.Trace(x, y, 1, Number(4, 12))
    ensures i.Trace(x, y, 25, Number(6, 3)) && i.Trace(x, y, 205, Number(0, 1)) && i.Trace(x, y, 1025, Number(0, 0))
    ensures i.Trace(x, y, 30, Number(23, 31))
  {
    TraceTwice(i, x, y, 1, Number(4, 12), Number(18, 2));
    TraceTwice(i, x, y, 2, Number(18, 2), Number(26, 4));
    TraceTwice(i, x, y, 4, Number(26, 4), Number(28, 16));
    TraceTwice(i, x, y, 8, Number(28, 16), Number(2, 26));
    TraceTwice(i, x, y, 16, Number(2, 26), Number(8, 12));
    TraceTwice(i, x, y, 32, Number(8, 12), Number(16, 2));
    TraceTwice(i, x, y, 64, Number(16, 2), Number(30, 4));
    TraceTwice(i, x, y, 128, Number(30, 4), Number(12, 16));
    TraceTwice(i, x, y, 256, Number(12, 16), Number(24, 26));
    TraceNext(i, x, y, 1, Number(4, 12), Number(18, 2), Number(4, 12), Number(6, 27));
    TraceNext(i, x, y, 2, Number(18, 2), Number(6, 27), Number(4, 12), Number(12, 14));
    TraceNext(i, x, y, 4, Number(26, 4), Number(12, 14), Number(4, 12), Number(9, 5));
    TraceNext(i, x, y, 8, Number(28, 16), Number(9, 5), Number(4, 12), Number(12, 4));
    TraceNext(i, x, y, 16, Number(2, 26), Number(12, 4), Number(4, 12), Number(15, 11));
    TraceNext(i, x, y, 32, Number(8, 12), Number(15, 11), Number(4, 12), Number(8, 31));
    TraceNext(i, x, y, 64, Number(16, 2), Number(8, 31), Number(4, 12), Number(30, 23));
    TraceNext(i, x, y, 128, Number(30, 4), Number(30, 23), Number(4, 12), Number(22, 5));
    TraceNext(i, x, y, 256, Number(12, 16), Number(22, 5), Number(4, 12), Number(24, 26));
    TraceNext(i, x, y, 512, Number(24, 26), Number(24, 26), Number(4, 12), Number(0, 0));
    TraceNext(i, x, y, 3, Number(6, 27), Number(26, 4), Number(4, 12), Number(29, 21));
    TraceNext(i, x, y, 7, Number(29, 21), Number(28, 16), Number(4, 12), Number(24, 19));
    TraceTwice(i, x, y, 15, Number(24, 19), Number(23, 31));
    TraceTwice(i, x, y, 3, Number(6, 27), Number(25, 13));
    TraceTwice(i, x, y, 6, Number(25, 13), Number(10, 3));
    TraceNext(i, x, y, 6, Number(25, 13), Number(29, 21), Number(4, 12), Number(13, 30));
    TraceNext(i, x, y, 12, Number(10, 3), Number(13, 30), Number(4, 12), Number(6, 3));
    TraceTwice(i, x, y, 13, Number(13, 30), Number(31, 28));
    TraceNext(i, x, y, 25, Number(6, 3), Number(31, 28), Number(4, 12), Number(25, 19));
    TraceTwice(i, x, y, 26, Number(31, 28), Number(5, 24));
    TraceTwice(i, x, y, 51, Number(25, 19), Number(22, 31));
    TraceNext(i, x, y, 51, Number(25, 19), Number(5, 24), Number(4, 12), Number(20, 7));
    TraceNext(i, x, y, 102, Number(22, 31), Number(20, 7), Number(4, 12), Number(0, 1));
  }

  /** The divisors of 1025 below it divide 205 or 25. */
  lemma ProperDivisor(g: nat, k: nat)
    requires g * k == 1025 && k > 1
    ensures (k % 5 == 0 && g * (k / 5) == 205) || (k == 41 && g == 25)
  {
    if k % 5 == 0 {
      assert g * (k / 5) * 5 == g * k;
    } else {
      FiveDivides(g, k, 205);
      var g1 := g / 5;
      assert g1 * k == 205;
      FiveDivides(g1, k, 41);
      var g2 := g1 / 5;
      assert g2 * k == 41;
      Divides41(g2, k);
    }
  }

  lemma FiveDivides(g: nat, k: nat, m: nat)
    requires g * k == 5 * m && k % 5 != 0
    ensures g % 5 == 0
  {
    var b, s := k / 5, k % 5;
    assert g * k == 5 * (g * b) + s * g by { assert k == 5 * b + s; }
    FifthPart(g, g * b, m, s);
  }

  lemma FifthPart(g: nat, gb: nat, m: nat, s: nat)
    requires 5 * gb + s * g == 5 * m && 0 < s < 5
    ensures g % 5 == 0
  {
    if s == 1 {
      assert g == 5 * (m - gb);
    } else if s == 2 {
      assert g == 5 * (3 * m - 3 * gb - g);
    } else if s == 3 {
      assert g == 5 * (2 * m - 2 * gb - g);
    } else {
      assert g == 5 * (4 * m - 4 * gb - 3 * g);
    }
  }

  lemma Divides41(g: nat, k: nat)
    requires g * k == 41 && k > 1
    ensures g == 1 && k == 41
  {
    if g > 1 {
      SmallFactor(g, k);
    }
  }

  lemma SmallFactor(g: nat, k: nat)
    requires g > 1 && k > 1
    ensures g * k != 41
  {
    if g <= 6 {
      assert g == 2 || g == 3 || g == 4 || g == 5 || g == 6;
    } else if k <= 6 {
      assert k == 2 || k == 3 || k == 4 || k == 5 || k == 6;
    } else {
      assert g * k >= 7 * 7;
    }
  }

  lemma LargerFactor(g: nat, j: nat, k: nat, n: nat)
    requires n == g * j && 1025 == g * k && 0 < n < 1025
    ensures k > 1
  {
    assert j >= 1;
    assert g <= g * j;
    assert k != 0 && k != 1;
  }

  lemma OrderOf<F(!new)>(f: Field<F>, x: F, n: nat)
    requires f.Ring() && f.Pow(x, 1025) == f.one && f.Pow(x, 25) != f.one && f.Pow(x, 205) != f.one && 0 < n < 1025
    ensures f.Pow(x, n) != f.one
  {
    if f.Pow(x, n) == f.one {
      var g, j, k := CommonPeriod(f, x, n, 1025);
      LargerFactor(g, j, k, n);
      ProperDivisor(g, k);
      if k % 5 == 0 && g * (k / 5) == 205 {
        PowCycle(f, x, g, 0, k / 5);
        PowZero(f, x);
      }
    }
  }

  /** The powers of the element repeat after 1025 and not before. */
  lemma Order(n: nat)
    requires 0 < n < 1025
    ensures GF20.Pow(GAMMA, n) != GF20.one && GF20.Pow(GAMMA, 1025) == GF20.one
  {
    GammaTraces();
    TraceOfOne(TOWER, GAMMA, DELTA, 25, Number(6, 3));
    TraceOfOne(TOWER, GAMMA, DELTA, 205, Number(0, 1));
    TraceOfOne(TOWER, GAMMA, DELTA, 1025, Number(0, 0));
    OrderOf(GF20, GAMMA, n);
  }

  lemma GammaTraces()
    ensures TOWER.Lawful() && GF20.mul(GAMMA, DELTA) == GF20.one && TOWER.Trace(GAMMA, DELTA, 1, TRACE)
    ensures TOWER.Trace(GAMMA, DELTA, 25, Number(6, 3)) && TOWER.Trace(GAMMA, DELTA, 205, Number(0, 1)) && TOWER.Trace(GAMMA, DELTA, 1025, Number(0, 0))
    ensures TOWER.Trace(GAMMA, DELTA, 30, Number(23, 31))
  {
    TowerLawful();
    GammaDelta();
    PowOne(GF20, GAMMA);
    PowOne(GF20, DELTA);
    TraceTableHolds();
    TracesOf(TOWER, GAMMA, DELTA);
  }

  // ----- The check polynomial vanishes -----

  /** x^8 + {19}x^7 + {3}x^6 + {25}x^5 + {11}x^4 + {25}x^3 + {3}x^2 + {19}x + {1} */
  const GENERATOR: seq<Symbol> := [1, 19, 3, 25, 11, 25, 3, 19, 1]

  const LOW: Symbol -> Small := d => Embed(GF32, BitsOf(d))

  lemma FirstStep0()
    ensures Advanced(GF1024, LOW, Number(4, 12), Linear(Number(0, 0), Number(0, 0)), 1) == Linear(Number(1, 0), Number(0, 0))
  {
  }

  lemma FirstStep1()
    ensures Advanced(GF1024, LOW, Number(4, 12), Linear(Number(1, 0), Number(0, 0)), 19) == Linear(Number(19, 0), Number(1, 0))
  {
  }

  lemma FirstStep2()
    ensures Advanced(GF1024, LOW, Number(4, 12), Linear(Number(19, 0), Number(1, 0)), 3) == Linear(Number(2, 0), Number(23, 12))
  {
  }

  lemma FirstStep3()
    ensures Advanced(GF1024, LOW, Number(4, 12), Linear(Number(2, 0), Number(23, 12)), 25) == Linear(Number(14, 12), Number(14, 9))
  {
  }

  lemma FirstStep4()
    ensures Advanced(GF1024, LOW, Number(4, 12), Linear(Number(14, 12), Number(14, 9)), 11) == Linear(Number(5, 9), Number(8, 12))
  {
  }

  lemma FirstStep5()
    ensures Advanced(GF1024, LOW, Number(4, 12), Linear(Number(5, 9), Number(8, 12)), 25) == Linear(Number(17, 12), Number(14, 9))
  {
  }

  lemma FirstStep6()
    ensures Advanced(GF1024, LOW, Number(4, 12), Linear(Number(17, 12), Number(14, 9)), 3) == Linear(Number(13, 9), Number(23, 12))
  {
  }

  lemma FirstStep7()
    ensures Advanced(GF1024, LOW, Number(4, 12), Linear(Number(13, 9), Number(23, 12)), 19) == Linear(Number(4, 12), Number(1, 0))
  {
  }

  lemma FirstStep8()
    ensures Advanced(GF1024, LOW, Number(4, 12), Linear(Number(4, 12), Number(1, 0)), 1) == Linear(Number(0, 0), Number(0, 0))
  {
  }

  lemma FirstReduced()
    ensures Reduced(GF1024, LOW, Number(4, 12), GENERATOR) == Linear(Number(0, 0), Number(0, 0))
  {
    FirstStep0();
    FirstStep1();
    FirstStep2();
    FirstStep3();
    FirstStep4();
    FirstStep5();
    FirstStep6();
    FirstStep7();
    FirstStep8();
    ReducedNine(GF1024, LOW, Number(4, 12), GENERATOR,
                Linear(Number(0, 0), Number(0, 0)), Linear(Number(1, 0), Number(0, 0)), Linear(Number(19, 0), Number(1, 0)),
                Linear(Number(2, 0), Number(23, 12)), Linear(Number(14, 12), Number(14, 9)), Linear(Number(5, 9), Number(8, 12)),
                Linear(Number(17, 12), Number(14, 9)), Linear(Number(13, 9), Number(23, 12)), Linear(Number(4, 12), Number(1, 0)),
                Linear(Number(0, 0), Number(0, 0)));
  }

  lemma SecondStep0()
    ensures Advanced(GF1024, LOW, Number(23, 31), Linear(Number(0, 0), Number(0, 0)), 1) == Linear(Number(1, 0), Number(0, 0))
  {
  }

  lemma SecondStep1()
    ensures Advanced(GF1024, LOW, Number(23, 31), Linear(Number(1, 0), Number(0, 0)), 19) == Linear(Number(19, 0), Number(1, 0))
  {
  }

  lemma SecondStep2()
    ensures Advanced(GF1024, LOW, Number(23, 31), Linear(Number(19, 0), Number(1, 0)), 3) == Linear(Number(2, 0), Number(4, 31))
  {
  }

  lemma SecondStep3()
    ensures Advanced(GF1024, LOW, Number(23, 31), Linear(Number(2, 0), Number(4, 31)), 25) == Linear(Number(29, 31), Number(17, 9))
  {
  }

  lemma SecondStep4()
    ensures Advanced(GF1024, LOW, Number(23, 31), Linear(Number(29, 31), Number(17, 9)), 11) == Linear(Number(26, 9), Number(10, 6))
  {
  }

  lemma SecondStep5()
    ensures Advanced(GF1024, LOW, Number(23, 31), Linear(Number(26, 9), Number(10, 6)), 25) == Linear(Number(19, 6), Number(17, 9))
  {
  }

  lemma SecondStep6()
    ensures Advanced(GF1024, LOW, Number(23, 31), Linear(Number(19, 6), Number(17, 9)), 3) == Linear(Number(18, 9), Number(4, 31))
  {
  }

  lemma SecondStep7()
    ensures Advanced(GF1024, LOW, Number(23, 31), Linear(Number(18, 9), Number(4, 31)), 19) == Linear(Number(23, 31), Number(1, 0))
  {
  }

  lemma SecondStep8()
    ensures Advanced(GF1024, LOW, Number(23, 31), Linear(Number(23, 31), Number(1, 0)), 1) == Linear(Number(0, 0), Number(0, 0))
  {
  }

  lemma SecondReduced()
    ensures Reduced(GF1024, LOW, Number(23, 31), GENERATOR) == Linear(Number(0, 0), Number(0, 0))
  {
    SecondStep0();
    SecondStep1();
    SecondStep2();
    SecondStep3();
    SecondStep4();
    SecondStep5();
    SecondStep6();
    SecondStep7();
    SecondStep8();
    ReducedNine(GF1024, LOW, Number(23, 31), GENERATOR,
                Linear(Number(0, 0), Number(0, 0)), Linear(Number(1, 0), Number(0, 0)), Linear(Number(19, 0), Number(1, 0)),
                Linear(Number(2, 0), Number(4, 31)), Linear(Number(29, 31), Number(17, 9)), Linear(Number(26, 9), Number(10, 6)),
                Linear(Number(19, 6), Number(17, 9)), Linear(Number(18, 9), Number(4, 31)), Linear(Number(23, 31), Number(1, 0)),
                Linear(Number(0, 0), Number(0, 0)));
  }

  /** The element and its 30th power are roots of the check polynomial. */
  lemma CheckRoots()
    ensures Eval(GF20, Lift, GAMMA, GENERATOR) == GF20.plus.zero
    ensures Eval(GF20, Lift, GF20.Pow(GAMMA, 30), GENERATOR) == GF20.plus.zero
  {
    GammaTraces();
    PowOne(GF20, GAMMA);
    FirstReduced();
    VanishesAt(TOWER, LOW, Lift, GAMMA, DELTA, 1, TRACE, GENERATOR);
    SecondReduced();
    VanishesAt(TOWER, LOW, Lift, GAMMA, DELTA, 30, Number(23, 31), GENERATOR);
  }
}
