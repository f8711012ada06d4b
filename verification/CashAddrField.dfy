/**
 * The field of the CashAddr checksum (src/cashaddr/cashaddr.cpp): symbols, taken as five bits, are elements of
 * GF(32), where a^5 = a^3 + 1. Two quadratic extensions lead to GF(2^20).
 */
module CashAddrField {
  import opened Group
  import opened LinearRegister
  import opened BinaryField
  import opened QuadraticExtension
  import opened Traces
  import opened CashAddrChecksum

  // ----- The field of 32 elements -----

  const ZERO: Bits := Bits(false, false, false, false, false)
  const ONE: Bits := Bits(true, false, false, false, false)
  const BITS: Abelian<Bits> := Abelian(ZERO, Differ, x => x)

  function BitsOf(s: Symbol): Bits {
    Bits(s & 1 != 0, s & 2 != 0, s & 4 != 0, s & 8 != 0, s & 16 != 0)
  }

  /** Multiplication by a. */
  function TimesA(x: Bits): Bits {
    Bits(x.b4, x.b0, x.b1, x.b2 != x.b4, x.b3)
  }

  function PlusIf(x: Bits, b: bool, y: Bits): Bits {
    if b then Differ(x, y) else x
  }

  /** The product, bit by bit of the second. */
  function Times(x: Bits, y: Bits): Bits {
    var x2 := TimesA(x);
    var x4 := TimesA(x2);
    var x8 := TimesA(x4);
    PlusIf(PlusIf(PlusIf(PlusIf(PlusIf(ZERO, y.b0, x), y.b1, x2), y.b2, x4), y.b3, x8), y.b4, TimesA(x8))
  }

  function Invert(x: Bits): Bits {
    match x
    case Bits(true, false, false, false, false) => Bits(true, false, false, false, false)
    case Bits(false, true, false, false, false) => Bits(false, false, true, false, true)
    case Bits(true, true, false, false, false) => Bits(false, false, false, true, true)
    case Bits(false, false, true, false, false) => Bits(false, true, false, true, false)
    case Bits(true, false, true, false, false) => Bits(false, false, false, true, false)
    case Bits(false, true, true, false, false) => Bits(false, false, true, true, false)
    case Bits(true, true, true, false, false) => Bits(true, false, true, true, true)
    case Bits(false, false, false, true, false) => Bits(true, false, true, false, false)
    case Bits(true, false, false, true, false) => Bits(true, true, false, true, false)
    case Bits(false, true, false, true, false) => Bits(false, false, true, false, false)
    case Bits(true, true, false, true, false) => Bits(true, false, false, true, false)
    case Bits(false, false, true, true, false) => Bits(false, true, true, false, false)
    case Bits(true, false, true, true, false) => Bits(false, false, true, true, true)
    case Bits(false, true, true, true, false) => Bits(false, true, false, true, true)
    case Bits(true, true, true, true, false) => Bits(true, true, true, true, true)
    case Bits(false, false, false, false, true) => Bits(false, true, true, false, true)
    case Bits(true, false, false, false, true) => Bits(false, true, false, false, true)
    case Bits(false, true, false, false, true) => Bits(true, false, false, false, true)
    case Bits(true, true, false, false, true) => Bits(true, true, true, false, true)
    case Bits(false, false, true, false, true) => Bits(false, true, false, false, false)
    case Bits(true, false, true, false, true) => Bits(true, false, false, true, true)
    case Bits(false, true, true, false, true) => Bits(false, false, false, false, true)
    case Bits(true, true, true, false, true) => Bits(true, true, false, false, true)
    case Bits(false, false, false, true, true) => Bits(true, true, false, false, false)
    case Bits(true, false, false, true, true) => Bits(true, false, true, false, true)
    case Bits(false, true, false, true, true) => Bits(false, true, true, true, false)
    case Bits(true, true, false, true, true) => Bits(false, true, true, true, true)
    case Bits(false, false, true, true, true) => Bits(true, false, true, true, false)
    case Bits(true, false, true, true, true) => Bits(true, true, true, false, false)
    case Bits(false, true, true, true, true) => Bits(true, true, false, true, true)
    case Bits(true, true, true, true, true) => Bits(true, true, true, true, false)
    case _ => ZERO
  }

  const GF32: Field<Bits> := Field(BITS, ONE, Times, Invert)

  lemma BitsLawful()
    ensures BITS.Lawful() && SelfInverse(BITS)
  {
  }

  lemma BitsOfXor(s: Symbol, t: Symbol)
    ensures BitsOf(XorSymbol(s, t)) == Differ(BitsOf(s), BitsOf(t))
  {
  }

  /** Doubling a symbol is multiplication by a. */
  lemma TimesAIsDouble(s: Symbol)
    ensures BitsOf(Double(s)) == TimesA(BitsOf(s))
  {
  }

  lemma TimesAAdds()
    ensures Preserves(BITS, TimesA)
  {
    forall x, y ensures PreservesAt(BITS, TimesA, x, y) { TimesAAddsAt(x, y); }
  }

  lemma TimesAAddsAt(x: Bits, y: Bits)
    ensures TimesA(Differ(x, y)) == Differ(TimesA(x), TimesA(y))
  {
  }

  lemma AddIfIs(x: Bits, b: bool, y: Bits)
    ensures AddIf(BITS, x, b, y) == PlusIf(x, b, y)
  {
  }

  lemma ProductByBits(x: Bits, y: Bits)
    ensures Times(x, y) == ByBits(BITS, TimesA, x, y)
  {
    var x2 := TimesA(x);
    var x4 := TimesA(x2);
    var x8 := TimesA(x4);
    var s0 := PlusIf(ZERO, y.b0, x);
    var s1 := PlusIf(s0, y.b1, x2);
    var s2 := PlusIf(s1, y.b2, x4);
    var s3 := PlusIf(s2, y.b3, x8);
    AddIfIs(ZERO, y.b0, x);
    AddIfIs(s0, y.b1, x2);
    AddIfIs(s1, y.b2, x4);
    AddIfIs(s2, y.b3, x8);
    AddIfIs(s3, y.b4, TimesA(x8));
  }

  lemma ProductsAdd(x: Bits, w: Bits, y: Bits)
    ensures Times(Differ(x, w), y) == Differ(Times(x, y), Times(w, y))
  {
    BitsLawful();
    TimesAAdds();
    ByBitsAdds(BITS, TimesA, x, w, y);
    ProductByBits(Differ(x, w), y);
    ProductByBits(x, y);
    ProductByBits(w, y);
  }

  /** A map that respects sums and multiplication by a respects products. */
  lemma ProductsThrough(m: Bits -> Bits, x: Bits, y: Bits)
    requires m(ZERO) == ZERO && Preserves(BITS, m) && forall w :: m(TimesA(w)) == TimesA(m(w))
    ensures m(Times(x, y)) == Times(m(x), y)
  {
    BitsLawful();
    ByBitsThrough(BITS, TimesA, m, x, y);
    ProductByBits(x, y);
    ProductByBits(m(x), y);
  }

  lemma ZeroProduct(y: Bits)
    ensures Times(ZERO, y) == ZERO
  {
  }

  lemma OneProduct(x: Bits)
    ensures Times(ONE, x) == x
  {
  }

  lemma ProductTimesA(x: Bits, y: Bits)
    ensures Times(TimesA(x), y) == TimesA(Times(x, y))
  {
    TimesAAdds();
    ProductsThrough(TimesA, x, y);
  }

  /** (x y) z, through multiplication by z, is (x z) y. */
  lemma ProductsSwap(x: Bits, y: Bits, z: Bits)
    ensures Times(Times(x, y), z) == Times(Times(x, z), y)
  {
    var timesZ := (w: Bits) => Times(w, z);
    forall v, w ensures PreservesAt(BITS, timesZ, v, w) { ProductsAdd(v, w, z); }
    forall w ensures timesZ(TimesA(w)) == TimesA(timesZ(w)) { ProductTimesA(w, z); }
    ZeroProduct(z);
    ProductsThrough(timesZ, x, y);
  }

  lemma ProductsCommute(x: Bits, y: Bits)
    ensures Times(x, y) == Times(y, x)
  {
    OneProduct(x);
    OneProduct(y);
    ProductsSwap(ONE, x, y);
  }

  lemma ProductsAssociate(x: Bits, y: Bits, z: Bits)
    ensures Times(Times(x, y), z) == Times(x, Times(y, z))
  {
    ProductsCommute(x, y);
    ProductsSwap(y, x, z);
    ProductsCommute(Times(y, z), x);
  }

  lemma ProductOne(x: Bits)
    ensures Times(x, ONE) == x
  {
    ProductsCommute(x, ONE);
    OneProduct(x);
  }

  lemma ProductDistributes(x: Bits, y: Bits, z: Bits)
    ensures Times(x, Differ(y, z)) == Differ(Times(x, y), Times(x, z))
  {
    ProductsCommute(x, Differ(y, z));
    ProductsAdd(y, z, x);
    ProductsCommute(y, x);
    ProductsCommute(z, x);
  }

  lemma InversesEven(x: Bits)
    requires x != ZERO && !x.b0
    ensures Times(x, Invert(x)) == ONE
  {
  }

  lemma InversesOdd(x: Bits)
    requires x.b0
    ensures Times(x, Invert(x)) == ONE
  {
  }

  lemma GF32Lawful()
    ensures GF32.Lawful()
  {
    BitsLawful();
    forall x, y, z ensures GF32.MulAssoc(x, y, z) { ProductsAssociate(x, y, z); }
    forall x, y ensures GF32.MulComm(x, y) { ProductsCommute(x, y); }
    forall x ensures GF32.MulOne(x) { ProductOne(x); }
    forall x, y, z ensures GF32.Distributes(x, y, z) { ProductDistributes(x, y, z); }
    forall x ensures GF32.Invertible(x) { InverseAt(x); }
  }

  lemma InverseAt(x: Bits)
    ensures GF32.Invertible(x)
  {
    if x.b0 {
      InversesOdd(x);
    } else if x != ZERO {
      InversesEven(x);
    }
  }

  // ----- Every element is its own 32nd power -----

  lemma TimesAIsProduct(w: Bits)
    ensures Times(TimesA(ONE), w) == TimesA(w)
  {
    ProductTimesA(ONE, w);
    OneProduct(w);
  }

  lemma Squares()
    ensures Times(BitsOf(2), BitsOf(2)) == BitsOf(4) && Times(BitsOf(4), BitsOf(4)) == BitsOf(16)
    ensures Times(BitsOf(16), BitsOf(16)) == BitsOf(26) && Times(BitsOf(26), BitsOf(26)) == BitsOf(12)
    ensures Times(BitsOf(12), BitsOf(12)) == BitsOf(2) && TimesA(ONE) == BitsOf(2)
  {
  }

  lemma TwoPower()
    ensures GF32.Pow(BitsOf(2), 32) == BitsOf(2)
  {
    GF32Lawful();
    Squares();
    PowOne(GF32, BitsOf(2));
    PowTwice(GF32, BitsOf(2), 1);
    PowTwice(GF32, BitsOf(2), 2);
    PowTwice(GF32, BitsOf(2), 4);
    PowTwice(GF32, BitsOf(2), 8);
    PowTwice(GF32, BitsOf(2), 16);
  }

  lemma PowerTimesA(w: Bits)
    ensures GF32.Pow(TimesA(w), 32) == TimesA(GF32.Pow(w, 32))
  {
    GF32Lawful();
    Squares();
    TimesAIsProduct(w);
    PowProduct(GF32, BitsOf(2), w, 32);
    TwoPower();
    TimesAIsProduct(GF32.Pow(w, 32));
  }

  /** Raising to the 32nd power respects sums and multiplication by a, and keeps 1. */
  lemma SymbolPower(x: Bits)
    ensures GF32.Pow(x, 32) == x
  {
    var m := (w: Bits) => GF32.Pow(w, 32);
    GF32Lawful();
    Additive32(GF32);
    forall v, w ensures PreservesAt(BITS, m, v, w) { assert AddsAt(GF32, 32, v, w); }
    forall w ensures m(TimesA(w)) == TimesA(m(w)) { PowerTimesA(w); }
    PowStep(GF32, ZERO, 31);
    MulZero(GF32, GF32.Pow(ZERO, 31));
    PowOfOne(GF32, 32);
    ProductsThrough(m, ONE, x);
    OneProduct(x);
  }

  // ----- The tower -----

  type Small = Pair<Bits>
  type Element = Pair<Small>

  /** An element of the field of 1024 elements, lo + hi y. */
  function Number(lo: Symbol, hi: Symbol): Small {
    Pair(BitsOf(lo), BitsOf(hi))
  }

  /** y^2 = y + 1 */
  const GF1024: Field<Small> := Extension(GF32, ONE)

  /** z^2 = z + (3 + 15 y) */
  const SHIFT: Small := Number(3, 15)
  const GF20: Field<Element> := Extension(GF1024, SHIFT)

  lemma NoRootsBelow(z: Bits)
    ensures Times(z, Differ(z, ONE)) != ONE && Times(z, Differ(z, ONE)) != BitsOf(15)
  {
  }

  lemma GF20Lawful()
    ensures GF1024.Lawful() && GF20.Lawful()
  {
    GF32Lawful();
    forall z ensures NotRoot(GF32, ONE, z) && NotRoot(GF32, BitsOf(15), z) { NoRootsBelow(z); }
    ExtensionLawful(GF32, ONE);
    NoRootAbove(GF32, ONE, SHIFT);
    ExtensionLawful(GF1024, SHIFT);
  }

  /** A symbol as an element of the large field. */
  function Lift(s: Symbol): Element {
    Embed(GF1024, Embed(GF32, BitsOf(s)))
  }

  lemma LiftAdds(s: Symbol, t: Symbol)
    ensures Lift(XorSymbol(s, t)) == GF20.plus.add(Lift(s), Lift(t))
  {
    GF32Lawful();
    GF20Lawful();
    BitsOfXor(s, t);
    EmbedAdds(GF32, ONE, BitsOf(s), BitsOf(t));
    EmbedAdds(GF1024, SHIFT, Embed(GF32, BitsOf(s)), Embed(GF32, BitsOf(t)));
  }

  lemma LiftMultiplies(s: Symbol, t: Symbol, r: Symbol)
    requires BitsOf(r) == Times(BitsOf(s), BitsOf(t))
    ensures Lift(r) == GF20.mul(Lift(s), Lift(t))
  {
    GF32Lawful();
    GF20Lawful();
    EmbedMultiplies(GF32, ONE, BitsOf(s), BitsOf(t));
    EmbedMultiplies(GF1024, SHIFT, Embed(GF32, BitsOf(s)), Embed(GF32, BitsOf(t)));
  }

  lemma LiftPower(s: Symbol)
    ensures GF20.Pow(Lift(s), 32) == Lift(s)
  {
    GF32Lawful();
    GF20Lawful();
    EmbedPow(GF32, ONE, BitsOf(s), 32);
    EmbedPow(GF1024, SHIFT, Embed(GF32, BitsOf(s)), 32);
    SymbolPower(BitsOf(s));
  }

  /** The field of 1024 elements inside the large one. */
  const TOWER: Inside<Small, Element> := Inside(GF1024, GF20, u => Embed(GF1024, u))

  lemma TowerLawful()
    ensures TOWER.Lawful()
  {
    GF20Lawful();
    forall u, v ensures TOWER.AddsAt(u, v) && TOWER.MultipliesAt(u, v) {
      EmbedAdds(GF1024, SHIFT, u, v);
      EmbedMultiplies(GF1024, SHIFT, u, v);
    }
  }
}
