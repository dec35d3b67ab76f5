/**
 Arithmetic of the field with 1024 elements, as far as a Bech32 checksum needs it: an
 element x of order 1023 and its powers as linear maps.
 */
module GaloisField {

  /** Ten bits over the powers of a primitive element x, where x^10 = x^8 + x^5 + x + 1. */
  datatype Element = Element(
    b0: bool, b1: bool, b2: bool, b3: bool, b4: bool, b5: bool, b6: bool, b7: bool, b8: bool, b9: bool)

  const ZERO := Element(false, false, false, false, false, false, false, false, false, false)

  function Add(a: Element, b: Element): Element {
    Element(a.b0 != b.b0, a.b1 != b.b1, a.b2 != b.b2, a.b3 != b.b3, a.b4 != b.b4,
            a.b5 != b.b5, a.b6 != b.b6, a.b7 != b.b7, a.b8 != b.b8, a.b9 != b.b9)
  }

  /** Multiplication by x. */
  function Times(v: Element): Element {
    Element(v.b9, v.b0 != v.b9, v.b1, v.b2, v.b3, v.b4 != v.b9, v.b5, v.b6, v.b7 != v.b9, v.b8)
  }

  function Turn(n: nat, v: Element): Element {
    if n == 0 then v else Times(Turn(n - 1, v))
  }

  function LowBase(v: Element): Element {
    Element(v.b1 != v.b2, v.b1 != v.b3, v.b2 != v.b4, v.b3, v.b0 != v.b4,
            v.b0 != v.b2, (v.b0 != v.b1) != v.b3, ((v.b0 != v.b1) != v.b2) != v.b4, v.b0 != v.b3,
            (v.b0 != v.b1) != v.b4)
  }

  function HighBase(v: Element): Element {
    Element(v.b5, v.b5 != v.b6, v.b6 != v.b7, (v.b5 != v.b7) != v.b8, (v.b6 != v.b8) != v.b9,
            v.b7 != v.b9, v.b8, v.b9, false, false)
  }

  /** Multiplication by x^24, the low bits and the high bits apart. */
  function Base(v: Element): Element {
    Add(LowBase(v), HighBase(v))
  }

  // ---- everything is linear ----

  lemma AddSwaps(a: Element, b: Element, c: Element, d: Element)
    ensures Add(Add(a, b), Add(c, d)) == Add(Add(a, c), Add(b, d))
  {
  }

  lemma AddZero(a: Element)
    ensures Add(a, ZERO) == a == Add(ZERO, a) && Add(a, a) == ZERO
  {
  }

  lemma AddVanishes(a: Element, b: Element)
    ensures Add(a, b) == ZERO <==> a == b
  {
  }

  lemma TimesIsLinear(a: Element, b: Element)
    ensures Times(Add(a, b)) == Add(Times(a), Times(b))
  {
  }

  lemma {:induction false} TurnIsLinear(n: nat, a: Element, b: Element)
    ensures Turn(n, Add(a, b)) == Add(Turn(n, a), Turn(n, b))
  {
    hide Add, Times;
    if n > 0 {
      TurnIsLinear(n - 1, a, b);
      TimesIsLinear(Turn(n - 1, a), Turn(n - 1, b));
    }
  }

  lemma {:induction false} TurnTurns(n: nat, m: nat, v: Element)
    ensures Turn(n, Turn(m, v)) == Turn(n + m, v)
  {
    hide Times;
    if n > 0 {
      TurnTurns(n - 1, m, v);
    }
  }

  lemma TimesZero()
    ensures Times(ZERO) == ZERO
  {
  }

  lemma BaseIsLinear(a: Element, b: Element)
    ensures Base(Add(a, b)) == Add(Base(a), Base(b))
  {
    hide Add, LowBase, HighBase;
    LowIsLinear(a, b);
    HighIsLinear(a, b);
    AddSwaps(LowBase(a), LowBase(b), HighBase(a), HighBase(b));
  }

  lemma LowIsLinear(a: Element, b: Element)
    ensures LowBase(Add(a, b)) == Add(LowBase(a), LowBase(b))
  {
  }

  lemma HighIsLinear(a: Element, b: Element)
    ensures HighBase(Add(a, b)) == Add(HighBase(a), HighBase(b))
  {
  }

  lemma BaseTimes(v: Element)
    ensures Base(Times(v)) == Times(Base(v))
  {
    hide Base, Times, Add;
    var low := Element(v.b0, v.b1, v.b2, v.b3, v.b4, false, false, false, false, false);
    var high := Element(false, false, false, false, false, v.b5, v.b6, v.b7, v.b8, v.b9);
    Halves(v);
    BaseTimesLow(low);
    BaseTimesHigh(high);
    BaseIsLinear(low, high);
    TimesIsLinear(low, high);
    TimesIsLinear(Base(low), Base(high));
    BaseIsLinear(Times(low), Times(high));
  }

  lemma Halves(v: Element)
    ensures v == Add(Element(v.b0, v.b1, v.b2, v.b3, v.b4, false, false, false, false, false),
                     Element(false, false, false, false, false, v.b5, v.b6, v.b7, v.b8, v.b9))
  {
  }

  lemma BaseTimesLow(v: Element)
    requires !v.b5 && !v.b6 && !v.b7 && !v.b8 && !v.b9
    ensures Base(Times(v)) == Times(Base(v))
  {
  }

  lemma BaseTimesHigh(v: Element)
    requires !v.b0 && !v.b1 && !v.b2 && !v.b3 && !v.b4
    ensures Base(Times(v)) == Times(Base(v))
  {
  }

  lemma BaseVanishes(v: Element)
    requires Base(v) == ZERO
    ensures v == ZERO
  {
  }

  lemma {:induction false} BaseTurn(n: nat, v: Element)
    ensures Base(Turn(n, v)) == Turn(n, Base(v))
  {
    hide Base, Times;
    if n > 0 {
      BaseTurn(n - 1, v);
      BaseTimes(Turn(n - 1, v));
    }
  }

  lemma TimesVanishes(v: Element)
    requires Times(v) == ZERO
    ensures v == ZERO
  {
  }

  lemma {:induction false} TurnVanishes(n: nat, v: Element)
    requires Turn(n, v) == ZERO
    ensures v == ZERO
  {
    hide Times;
    if n > 0 {
      TimesVanishes(Turn(n - 1, v));
      TurnVanishes(n - 1, v);
    }
  }

  // ---- the order of x ----

  const ONE := Element(true, false, false, false, false, false, false, false, false, false)

  function Square(v: Element): Element {
    Element(((((v.b0 != v.b5) != v.b6) != v.b7) != v.b8) != v.b9,
            ((v.b5 != v.b6) != v.b7) != v.b9,
            ((v.b1 != v.b6) != v.b7) != v.b9,
            (v.b6 != v.b7) != v.b8,
            (v.b2 != v.b7) != v.b8,
            v.b5 != v.b6,
            v.b3 != v.b9,
            v.b6 != v.b7,
            ((((v.b4 != v.b5) != v.b6) != v.b7) != v.b8) != v.b9,
            v.b7)
  }

  lemma SquareTimes(v: Element)
    ensures Square(Times(v)) == Times(Times(Square(v)))
  {
  }

  /** A power of x, by repeated squaring. */
  function Power(n: nat): Element {
    if n == 0 then ONE
    else if n % 2 == 0 then Square(Power(n / 2))
    else Times(Square(Power(n / 2)))
  }

  lemma {:induction false} SquareTurn(n: nat)
    ensures Square(Turn(n, ONE)) == Turn(2 * n, ONE)
  {
    if n > 0 {
      SquareTurn(n - 1);
      SquareTimes(Turn(n - 1, ONE));
      assert Turn(2 * n, ONE) == Times(Turn(2 * n - 1, ONE));
    }
  }

  lemma {:induction false} PowerIsTurn(n: nat)
    ensures Power(n) == Turn(n, ONE)
  {
    hide Times, Square;
    if n > 0 {
      PowerIsTurn(n / 2);
      SquareTurn(n / 2);
    }
  }

  /** The element with these bits. */
  function Of(n: bv10): Element {
    Element(n & 1 != 0, n & 2 != 0, n & 4 != 0, n & 8 != 0, n & 16 != 0,
            n & 32 != 0, n & 64 != 0, n & 128 != 0, n & 256 != 0, n & 512 != 0)
  }

  lemma PowerOne()
    ensures Power(1) == Of(2)
  {
    assert Power(0) == ONE;
  }

  function Climb(v: Element, odd: bool): Element {
    if odd then Times(Square(v)) else Square(v)
  }

  lemma PowerStep(n: nat, v: Element, w: Element)
    requires n > 0 && Power(n / 2) == v && Climb(v, n % 2 == 1) == w
    ensures Power(n) == w
  {
  }

  // x has order 1023, and one plus each of its 33rd, 93rd and 341st powers is a power

  lemma Power1023()
    ensures Power(1023) == ONE
  {
    hide Power;
    PowerOne();
    PowerStep(3, Of(0x002), Of(0x008));
    PowerStep(7, Of(0x008), Of(0x080));
    PowerStep(15, Of(0x080), Of(0x21D));
    PowerStep(31, Of(0x21D), Of(0x02C));
    PowerStep(63, Of(0x02C), Of(0x2E6));
    PowerStep(127, Of(0x2E6), Of(0x1A3));
    PowerStep(255, Of(0x1A3), Of(0x263));
    PowerStep(511, Of(0x263), Of(0x39C));
    PowerStep(1023, Of(0x39C), Of(0x001));
  }

  lemma Power33()
    ensures Add(Power(33), ONE) == Power(429)
  {
    hide Power;
    PowerOne();
    PowerStep(2, Of(0x002), Of(0x004));
    PowerStep(4, Of(0x004), Of(0x010));
    PowerStep(8, Of(0x010), Of(0x100));
    PowerStep(16, Of(0x100), Of(0x119));
    PowerStep(33, Of(0x119), Of(0x0B0));
    PowerStep(3, Of(0x002), Of(0x008));
    PowerStep(6, Of(0x008), Of(0x040));
    PowerStep(13, Of(0x040), Of(0x35E));
    PowerStep(26, Of(0x35E), Of(0x0A5));
    PowerStep(53, Of(0x0A5), Of(0x079));
    PowerStep(107, Of(0x079), Of(0x39A));
    PowerStep(214, Of(0x39A), Of(0x285));
    PowerStep(429, Of(0x285), Of(0x0B1));
  }

  lemma Power93()
    ensures Add(Power(93), ONE) == Power(426)
  {
    hide Power;
    PowerOne();
    PowerStep(2, Of(0x002), Of(0x004));
    PowerStep(5, Of(0x004), Of(0x020));
    PowerStep(11, Of(0x020), Of(0x246));
    PowerStep(23, Of(0x246), Of(0x1F8));
    PowerStep(46, Of(0x1F8), Of(0x34A));
    PowerStep(93, Of(0x34A), Of(0x36A));
    PowerStep(3, Of(0x002), Of(0x008));
    PowerStep(6, Of(0x008), Of(0x040));
    PowerStep(13, Of(0x040), Of(0x35E));
    PowerStep(26, Of(0x35E), Of(0x0A5));
    PowerStep(53, Of(0x0A5), Of(0x079));
    PowerStep(106, Of(0x079), Of(0x1CD));
    PowerStep(213, Of(0x1CD), Of(0x3D3));
    PowerStep(426, Of(0x3D3), Of(0x36B));
  }

  lemma Power341()
    ensures Add(Power(341), ONE) == Power(682)
  {
    hide Power;
    PowerOne();
    PowerStep(2, Of(0x002), Of(0x004));
    PowerStep(5, Of(0x004), Of(0x020));
    PowerStep(10, Of(0x020), Of(0x123));
    PowerStep(21, Of(0x123), Of(0x07E));
    PowerStep(42, Of(0x07E), Of(0x1D8));
    PowerStep(85, Of(0x1D8), Of(0x1F1));
    PowerStep(170, Of(0x1F1), Of(0x30B));
    PowerStep(341, Of(0x30B), Of(0x036));
    PowerStep(682, Of(0x036), Of(0x037));
  }

  function Scalar(bit: bool): Element {
    if bit then ONE else ZERO
  }

  /** A relation between powers of x, applied to v. */
  predicate Related(d: nat, plus: bool, z: nat, v: Element) {
    Add(Turn(d, v), if plus then v else ZERO) == Turn(z, v)
  }

  lemma RelatedScalar(d: nat, plus: bool, z: nat, bit: bool)
    requires Related(d, plus, z, ONE)
    ensures Related(d, plus, z, Scalar(bit))
  {
    hide Add, Times;
    TurnZero(d);
    TurnZero(z);
    AddZero(ZERO);
  }

  lemma {:induction false} TurnZero(n: nat)
    ensures Turn(n, ZERO) == ZERO
  {
    hide Times;
    if n > 0 {
      TurnZero(n - 1);
      TimesZero();
    }
  }

  lemma RelatedTimes(d: nat, plus: bool, z: nat, v: Element)
    requires Related(d, plus, z, v)
    ensures Related(d, plus, z, Times(v))
  {
    hide Add, Times;
    TurnTimes(d, v);
    TurnTimes(z, v);
    TimesZero();
    TimesIsLinear(Turn(d, v), if plus then v else ZERO);
  }

  lemma TurnTimes(n: nat, v: Element)
    ensures Turn(n, Times(v)) == Times(Turn(n, v))
  {
    hide Times;
    assert Turn(1, v) == Times(Turn(0, v));
    TurnTurns(n, 1, v);
  }

  lemma RelatedAdd(d: nat, plus: bool, z: nat, v: Element, w: Element)
    requires Related(d, plus, z, v) && Related(d, plus, z, w)
    ensures Related(d, plus, z, Add(v, w))
  {
    hide Add, Times, Turn;
    TurnIsLinear(d, v, w);
    TurnIsLinear(z, v, w);
    AddZero(ZERO);
    AddSwaps(Turn(d, v), if plus then v else ZERO, Turn(d, w), if plus then w else ZERO);
    AddSwaps(Turn(d, v), Turn(d, w), if plus then v else ZERO, if plus then w else ZERO);
  }

  lemma RelatedStep(d: nat, plus: bool, z: nat, bit: bool, v: Element)
    requires Related(d, plus, z, ONE) && Related(d, plus, z, v)
    ensures Related(d, plus, z, Add(Scalar(bit), Times(v)))
  {
    hide Add, Times, Related;
    RelatedScalar(d, plus, z, bit);
    RelatedTimes(d, plus, z, v);
    RelatedAdd(d, plus, z, Scalar(bit), Times(v));
  }

  function Down(v: Element): Element {
    Element(v.b1, v.b2, v.b3, v.b4, v.b5, v.b6, v.b7, v.b8, v.b9, false)
  }

  predicate Below(v: Element, k: nat) {
    && (k <= 0 ==> !v.b0) && (k <= 1 ==> !v.b1) && (k <= 2 ==> !v.b2) && (k <= 3 ==> !v.b3) && (k <= 4 ==> !v.b4)
    && (k <= 5 ==> !v.b5) && (k <= 6 ==> !v.b6) && (k <= 7 ==> !v.b7) && (k <= 8 ==> !v.b8) && (k <= 9 ==> !v.b9)
  }

  lemma DownStep(v: Element, k: nat)
    requires Below(v, k)
    ensures v == Add(Scalar(v.b0), Times(Down(v)))
    ensures k == 0 ==> v == Scalar(false)
    ensures k > 0 ==> Below(Down(v), k - 1)
  {
  }

  lemma {:induction false} RelatedBelow(d: nat, plus: bool, z: nat, v: Element, k: nat)
    requires Related(d, plus, z, ONE) && Below(v, k)
    ensures Related(d, plus, z, v)
    decreases k
  {
    hide Related, Scalar, Add, Times, Below, Down;
    DownStep(v, k);
    if k == 0 {
      RelatedScalar(d, plus, z, false);
    } else {
      RelatedBelow(d, plus, z, Down(v), k - 1);
      RelatedStep(d, plus, z, v.b0, Down(v));
    }
  }

  /** Every element is a polynomial in x, so what relates powers of x holds everywhere. */
  lemma RelatedEverywhere(d: nat, plus: bool, z: nat, v: Element)
    requires Related(d, plus, z, ONE)
    ensures Related(d, plus, z, v)
  {
    hide Related;
    RelatedBelow(d, plus, z, v, 10);
  }

  lemma OrderDivides(v: Element)
    ensures Turn(1023, v) == v
  {
    hide Add, Times, Turn;
    Power1023();
    PowerIsTurn(1023);
    assert Turn(0, ONE) == ONE && Turn(0, v) == v by { TurnNothing(); }
    AddZero(ONE);
    assert Related(1023, false, 0, ONE);
    RelatedEverywhere(1023, false, 0, v);
    AddZero(Turn(1023, v));
  }

  lemma TurnNothing()
    ensures forall v :: Turn(0, v) == v
  {
  }

  /** No element but zero comes back after 33, 93 or 341 turns. */
  lemma NoReturn(d: nat, v: Element)
    requires d in {33, 93, 341} && Turn(d, v) == v
    ensures v == ZERO
  {
    hide Add, Times, Turn, Power;
    var z := if d == 33 then 429 else if d == 93 then 426 else 682;
    Power33();
    Power93();
    Power341();
    PowerIsTurn(d);
    PowerIsTurn(z);
    assert Related(d, true, z, ONE);
    RelatedEverywhere(d, true, z, v);
    AddZero(v);
    TurnVanishes(z, v);
  }

  /** Two return times have a common divisor that is one as well. */
  lemma {:induction false} CommonReturn(a: nat, b: nat, v: Element) returns (g: nat, k: nat, m: nat)
    requires a > 0 && b > 0 && Turn(a, v) == v && Turn(b, v) == v
    ensures g > 0 && a == g * k && b == g * m && Turn(g, v) == v
    decreases a + b
  {
    hide Turn;
    if a == b {
      g, k, m := a, 1, 1;
    } else if a > b {
      ReturnDifference(a, b, v);
      g, k, m := CommonReturn(a - b, b, v);
      k := k + m;
    } else {
      ReturnDifference(b, a, v);
      g, k, m := CommonReturn(a, b - a, v);
      m := m + k;
    }
  }

  lemma ReturnDifference(a: nat, b: nat, v: Element)
    requires a > b && Turn(a, v) == v && Turn(b, v) == v
    ensures Turn(a - b, v) == v
  {
    hide Turn;
    TurnTurns(b, a - b, v);
    TurnInjective(b, Turn(a - b, v), v);
  }

  lemma TurnInjective(n: nat, v: Element, w: Element)
    requires Turn(n, v) == Turn(n, w)
    ensures v == w
  {
    hide Turn, Add;
    TurnIsLinear(n, v, w);
    AddVanishes(Turn(n, v), Turn(n, w));
    TurnVanishes(n, Add(v, w));
    AddVanishes(v, w);
  }

  lemma {:induction false} ReturnMultiple(n: nat, k: nat, v: Element)
    requires Turn(n, v) == v
    ensures Turn(n * k, v) == v
  {
    hide Turn;
    if k == 0 {
      TurnNothing();
    } else {
      ReturnMultiple(n, k - 1, v);
      TurnTurns(n, n * (k - 1), v);
      assert n * k == n + n * (k - 1);
    }
  }

  /** A proper divisor of 1023 = 3 * 11 * 31 divides 33, 93 or 341. */
  lemma ProperDivisor(g: nat, k: nat) returns (e: nat, f: nat)
    requires g * k == 1023 && k > 1 && g > 0
    ensures e in {33, 93, 341} && e == g * f
  {
    if k <= 31 {
      assert k == 3 || k == 11 || k == 31;
      e, f := if k == 3 then 341 else if k == 11 then 93 else 33, 1;
    } else {
      Smaller(g, k);
      assert g == 1 || g == 3 || g == 11 || g == 31;
      e, f := if g == 31 then 341 else 33, if g == 1 then 33 else if g == 3 then 11 else if g == 11 then 3 else 11;
    }
  }

  lemma Smaller(g: nat, k: nat)
    requires g * k == 1023 && k >= 32
    ensures g <= 31
  {
  }

  /** No element but zero comes back after fewer than 1023 turns. */
  lemma NoEarlyReturn(d: nat, v: Element)
    requires 0 < d < 1023 && Turn(d, v) == v
    ensures v == ZERO
  {
    hide Turn;
    OrderDivides(v);
    var g, k, m := CommonReturn(1023, d, v);
    ProperQuotient(g, k, m, d);
    var e, f := ProperDivisor(g, k);
    ReturnMultiple(g, f, v);
    NoReturn(e, v);
  }

  lemma ProperQuotient(g: nat, k: nat, m: nat, d: nat)
    requires g > 0 && g * k == 1023 && g * m == d && 0 < d < 1023
    ensures k > 1
  {
  }
}
