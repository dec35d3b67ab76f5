/**
 Why three substituted symbols anywhere cannot keep a checksum. The generator of section
 "Checksum" of BIP-173 has three roots in geometric progression in the field with 1024
 elements; evaluating a word at them turns equal checksums into three equations.
 */
module Syndromes {
  import opened Bech32
  import opened GaloisField

  /** The low symbol of a word, as an element of the field. */
  function Embed(x: bv30): Element {
    var s0, s1, s2, s3, s4 := x & 1 != 0, x & 2 != 0, x & 4 != 0, x & 8 != 0, x & 16 != 0;
    Element(s0 != s4, s1 != s4, (s1 != s2) != s4, (s1 != s3) != s4, (s2 != s3) != s4,
            s4, s2 != s3, s4, s3, s3)
  }

  /** Multiplication by the roots, which follow one another by one turn. */
  function Raise(l: nat, v: Element): Element {
    Turn(l, Base(v))
  }

  function Lift(l: nat, n: nat, v: Element): Element {
    if n == 0 then v else Raise(l, Lift(l, n - 1, v))
  }

  // ---- the roots as linear maps ----

  lemma RaiseIsLinear(l: nat, a: Element, b: Element)
    ensures Raise(l, Add(a, b)) == Add(Raise(l, a), Raise(l, b))
  {
    hide Add, Base, Turn;
    BaseIsLinear(a, b);
    TurnIsLinear(l, Base(a), Base(b));
  }

  lemma RaiseZero(l: nat)
    ensures Raise(l, ZERO) == ZERO
  {
    hide Add, Base, Turn;
    RaiseIsLinear(l, ZERO, ZERO);
    AddZero(ZERO);
    AddZero(Raise(l, ZERO));
  }

  lemma {:induction false} LiftIsLinear(l: nat, n: nat, a: Element, b: Element)
    ensures Lift(l, n, Add(a, b)) == Add(Lift(l, n, a), Lift(l, n, b))
  {
    hide Add, Raise;
    if n > 0 {
      LiftIsLinear(l, n - 1, a, b);
      RaiseIsLinear(l, Lift(l, n - 1, a), Lift(l, n - 1, b));
    }
  }

  lemma {:induction false} LiftLifts(l: nat, n: nat, m: nat, v: Element)
    ensures Lift(l, n, Lift(l, m, v)) == Lift(l, n + m, v)
  {
    hide Raise;
    if n > 0 {
      LiftLifts(l, n - 1, m, v);
    }
  }

  /** Root l is root 0 turned l times. */
  lemma {:induction false} LiftSplits(l: nat, n: nat, v: Element)
    ensures Lift(l, n, v) == Turn(l * n, Lift(0, n, v))
  {
    hide Base, Times;
    if n == 0 {
      assert l * n == 0;
    } else {
      var u := Lift(0, n - 1, v);
      LiftSplits(l, n - 1, v);
      BaseTurn(l * (n - 1), u);
      TurnTurns(l, l * (n - 1), Base(u));
      assert l * n == l + l * (n - 1);
      assert Raise(0, u) == Base(u);
    }
  }

  lemma {:induction false} LiftVanishes(l: nat, n: nat, v: Element)
    requires Lift(l, n, v) == ZERO
    ensures v == ZERO
  {
    hide Base, Turn;
    if n > 0 {
      TurnVanishes(l, Base(Lift(l, n - 1, v)));
      BaseVanishes(Lift(l, n - 1, v));
      LiftVanishes(l, n - 1, v);
    }
  }

  // ---- evaluating a word ----

  function Lower(w: bv30): bv30 {
    w >> 5
  }

  function Next(l: nat, x: bv30, rest: Element): Element {
    Add(Embed(x), Raise(l, rest))
  }

  /** The polynomial of the low `n` symbols of a word and the leading coefficient `top`, at root l. */
  function Horner(l: nat, w: bv30, n: nat, top: Element): Element {
    if n == 0 then top else Next(l, w, Horner(l, Lower(w), n - 1, top))
  }

  function Evaluate(l: nat, w: bv30): Element {
    Horner(l, w, 6, ZERO)
  }

  lemma EmbedIsLinear(a: bv30, b: bv30)
    ensures Embed(Xor(a, b)) == Add(Embed(a), Embed(b))
  {
    BitOfXor(a, b, 1);
    BitOfXor(a, b, 2);
    BitOfXor(a, b, 4);
    BitOfXor(a, b, 8);
    BitOfXor(a, b, 16);
    hide Xor;
  }

  lemma EmbedVanishes(x: bv30)
    requires x < 32 && Embed(x) == ZERO
    ensures x == 0
  {
  }

  lemma NextIsLinear(l: nat, x: bv30, y: bv30, a: Element, b: Element)
    ensures Next(l, Xor(x, y), Add(a, b)) == Add(Next(l, x, a), Next(l, y, b))
  {
    hide Xor, Add, Embed, Raise;
    EmbedIsLinear(x, y);
    RaiseIsLinear(l, a, b);
    AddSwaps(Embed(x), Embed(y), Raise(l, a), Raise(l, b));
  }

  lemma LowerIsLinear(a: bv30, b: bv30)
    ensures Lower(Xor(a, b)) == Xor(Lower(a), Lower(b))
  {
  }

  lemma {:induction false} HornerIsLinear(l: nat, a: bv30, b: bv30, n: nat, s: Element, t: Element)
    ensures Horner(l, Xor(a, b), n, Add(s, t)) == Add(Horner(l, a, n, s), Horner(l, b, n, t))
    decreases n
  {
    hide Xor, Add, Next, Lower;
    if n > 0 {
      LowerIsLinear(a, b);
      HornerIsLinear(l, Lower(a), Lower(b), n - 1, s, t);
      NextIsLinear(l, a, b, Horner(l, Lower(a), n - 1, s), Horner(l, Lower(b), n - 1, t));
    }
  }

  lemma EvaluateIsLinear(l: nat, a: bv30, b: bv30)
    ensures Evaluate(l, Xor(a, b)) == Add(Evaluate(l, a), Evaluate(l, b))
  {
    hide Xor, Add, Horner;
    AddZero(ZERO);
    HornerIsLinear(l, a, b, 6, ZERO, ZERO);
  }

  lemma ZeroWord()
    ensures Lower(0) == 0 && Embed(0) == ZERO
  {
  }

  lemma {:induction false} HornerOfZero(l: nat, n: nat, top: Element)
    ensures Horner(l, 0, n, top) == Lift(l, n, top)
  {
    hide Lower, Embed, Raise, Add;
    ZeroWord();
    if n > 0 {
      HornerOfZero(l, n - 1, top);
      AddZero(Raise(l, Lift(l, n - 1, top)));
    }
  }

  /** A leading coefficient adds its power of the root. */
  lemma HornerTop(l: nat, w: bv30, n: nat, top: Element)
    ensures Horner(l, w, n, top) == Add(Horner(l, w, n, ZERO), Lift(l, n, top))
  {
    hide Xor, Add, Horner;
    XorZero(w);
    AddZero(top);
    HornerIsLinear(l, w, 0, n, ZERO, top);
    HornerOfZero(l, n, top);
  }

  function Drop(w: bv30, n: nat): bv30 {
    if n == 0 then w else Drop(Lower(w), n - 1)
  }

  lemma {:induction false} HornerLast(l: nat, w: bv30, n: nat)
    ensures Horner(l, w, n + 1, ZERO) == Horner(l, w, n, Embed(Drop(w, n)))
    decreases n
  {
    hide Lower, Embed, Raise, Add;
    if n == 0 {
      RaiseZero(l);
      AddZero(Embed(w));
      assert Horner(l, Lower(w), 0, ZERO) == ZERO;
    } else {
      HornerLast(l, Lower(w), n - 1);
    }
  }

  lemma DropsToTop(w: bv30)
    ensures Drop(w, 5) == Top(w)
  {
    var w1 := Lower(w);
    var w2 := Lower(w1);
    var w3 := Lower(w2);
    var w4 := Lower(w3);
    assert Drop(w, 5) == Drop(w1, 4) == Drop(w2, 3) == Drop(w3, 2) == Drop(w4, 1) == Lower(w4);
  }

  // ---- a shift multiplies by the root ----

  function Mask(n: nat): bv30
    requires n <= 5
  {
    if n == 0 then 0 else if n == 1 then 0x1F else if n == 2 then 0x3FF else if n == 3 then 0x7FFF
    else if n == 4 then 0xFFFFF else 0x1FFFFFF
  }

  lemma MaskStep(w: bv30, n: nat)
    requires 0 < n <= 5
    ensures Lower(w & Mask(n)) == Lower(w) & Mask(n - 1) && Embed(w & Mask(n)) == Embed(w)
  {
  }

  lemma {:induction false} HornerMasked(l: nat, w: bv30, n: nat, top: Element)
    requires n <= 5
    ensures Horner(l, w & Mask(n), n, top) == Horner(l, w, n, top)
    decreases n
  {
    hide Lower, Mask, Embed, Raise, Add;
    if n > 0 {
      MaskStep(w, n);
      HornerMasked(l, Lower(w), n - 1, top);
    }
  }

  lemma ShiftedSymbols(w: bv30)
    ensures Lower(Shifted(w)) == w & Mask(5) && Embed(Shifted(w)) == ZERO
  {
  }

  lemma EvaluateShifted(l: nat, w: bv30)
    ensures Evaluate(l, Shifted(w)) == Raise(l, Horner(l, w, 5, ZERO))
  {
    hide Lower, Mask, Embed, Raise, Add, Shifted;
    ShiftedSymbols(w);
    HornerMasked(l, w, 5, ZERO);
    AddZero(Raise(l, Horner(l, w, 5, ZERO)));
  }

  // ---- the generators are multiples of one polynomial that has the roots ----

  /** Multiplication by the second symbol. */
  function Double(v: Element): Element {
    Turn(1, Add(v, Add(Turn(1, v), Turn(2, v))))
  }

  function Direct(l: nat, v: Element): Element
    requires l <= 2
  {
    if l == 0 then Base(v) else if l == 1 then Times(Base(v)) else Times(Times(Base(v)))
  }

  lemma RaiseDirect(l: nat, v: Element)
    requires l <= 2
    ensures Raise(l, v) == Direct(l, v)
  {
    hide Base, Times;
    var r := Base(v);
    assert Turn(2, r) == Times(Turn(1, r)) && Turn(1, r) == Times(Turn(0, r));
  }

  lemma NextStep(l: nat, x: bv30, v: Element, w: Element)
    requires l <= 2 && Add(Embed(x), Direct(l, v)) == w
    ensures Next(l, x, v) == w
  {
    hide Add, Embed, Raise, Direct;
    RaiseDirect(l, v);
  }

  lemma HornerSix(l: nat, w: bv30, top: Element)
    ensures Horner(l, w, 6, top)
         == Next(l, w, Next(l, Drop(w, 1), Next(l, Drop(w, 2), Next(l, Drop(w, 3), Next(l, Drop(w, 4),
            Next(l, Drop(w, 5), top))))))
  {
    hide Next, Lower;
    var w1 := Lower(w);
    var w2 := Lower(w1);
    var w3 := Lower(w2);
    var w4 := Lower(w3);
    var w5 := Lower(w4);
    assert Drop(w, 1) == Drop(w1, 0) == w1;
    assert Drop(w, 2) == Drop(w1, 1) == Drop(w2, 0) == w2;
    assert Drop(w, 3) == Drop(w1, 2) == Drop(w2, 1) == Drop(w3, 0) == w3;
    assert Drop(w, 4) == Drop(w1, 3) == Drop(w2, 2) == Drop(w3, 1) == Drop(w4, 0) == w4;
    assert Drop(w, 5) == Drop(w1, 4) == Drop(w2, 3) == Drop(w3, 2) == Drop(w4, 1) == Drop(w5, 0) == w5;
    assert Horner(l, w5, 1, top) == Next(l, w5, Horner(l, Lower(w5), 0, top)) == Next(l, w5, top);
    assert Horner(l, w4, 2, top) == Next(l, w4, Horner(l, w5, 1, top));
    assert Horner(l, w3, 3, top) == Next(l, w3, Horner(l, w4, 2, top));
    assert Horner(l, w2, 4, top) == Next(l, w2, Horner(l, w3, 3, top));
    assert Horner(l, w1, 5, top) == Next(l, w1, Horner(l, w2, 4, top));
  }

  lemma Drops()
    ensures GENERATORS[0] == 0x3B6A57B2 && Drop(GENERATORS[0], 1) == 0x1DB52BD && Drop(GENERATORS[0], 2) == 0xEDA95
    ensures Drop(GENERATORS[0], 3) == 0x76D4 && Drop(GENERATORS[0], 4) == 0x3B6 && Drop(GENERATORS[0], 5) == 0x1D
  {
    var g := GENERATORS[0];
    assert Drop(g, 1) == 0x1DB52BD;
    DropLast(g, 1);
    DropLast(g, 2);
    DropLast(g, 3);
    DropLast(g, 4);
  }

  lemma {:induction false} DropLast(w: bv30, n: nat)
    ensures Drop(w, n + 1) == Lower(Drop(w, n))
    decreases n
  {
    hide Lower;
    if n > 0 {
      DropLast(Lower(w), n - 1);
    }
  }

  lemma Root0()
    ensures Horner(0, GENERATORS[0], 6, ONE) == ZERO
  {
    hide Horner, Next;
    Drops();
    HornerSix(0, GENERATORS[0], ONE);
    NextStep(0, 0x1D, ONE, Of(0x042));
    NextStep(0, 0x3B6, Of(0x042), Of(0x230));
    NextStep(0, 0x76D4, Of(0x230), Of(0x2C4));
    NextStep(0, 0xEDA95, Of(0x2C4), Of(0x0C5));
    NextStep(0, 0x1DB52BD, Of(0x0C5), Of(0x0DD));
    NextStep(0, 0x3B6A57B2, Of(0x0DD), ZERO);
  }

  lemma Root1()
    ensures Horner(1, GENERATORS[0], 6, ONE) == ZERO
  {
    hide Horner, Next;
    Drops();
    HornerSix(1, GENERATORS[0], ONE);
    NextStep(1, 0x1D, ONE, Of(0x171));
    NextStep(1, 0x3B6, Of(0x171), Of(0x2A7));
    NextStep(1, 0x76D4, Of(0x2A7), Of(0x2E9));
    NextStep(1, 0xEDA95, Of(0x2E9), Of(0x1BF));
    NextStep(1, 0x1DB52BD, Of(0x1BF), Of(0x2FF));
    NextStep(1, 0x3B6A57B2, Of(0x2FF), ZERO);
  }

  lemma Root2()
    ensures Horner(2, GENERATORS[0], 6, ONE) == ZERO
  {
    hide Horner, Next;
    Drops();
    HornerSix(2, GENERATORS[0], ONE);
    NextStep(2, 0x1D, ONE, Of(0x317));
    NextStep(2, 0x3B6, Of(0x317), Of(0x028));
    NextStep(2, 0x76D4, Of(0x028), Of(0x0CC));
    NextStep(2, 0xEDA95, Of(0x0CC), Of(0x29D));
    NextStep(2, 0x1DB52BD, Of(0x29D), Of(0x3EE));
    NextStep(2, 0x3B6A57B2, Of(0x3EE), ZERO);
  }

  lemma DoubleIsLinear(a: Element, b: Element)
    ensures Double(Add(a, b)) == Add(Double(a), Double(b))
  {
    hide Add, Turn;
    TurnIsLinear(1, a, b);
    TurnIsLinear(2, a, b);
    AddSwaps(Turn(1, a), Turn(1, b), Turn(2, a), Turn(2, b));
    var c, d := Add(Turn(1, a), Turn(2, a)), Add(Turn(1, b), Turn(2, b));
    AddSwaps(a, b, c, d);
    TurnIsLinear(1, Add(a, c), Add(b, d));
  }

  lemma RaiseTurn(l: nat, n: nat, v: Element)
    ensures Raise(l, Turn(n, v)) == Turn(n, Raise(l, v))
  {
    hide Base, Turn;
    BaseTurn(n, v);
    TurnTurns(l, n, Base(v));
    TurnTurns(n, l, Base(v));
  }

  lemma DoubleRaise(l: nat, v: Element)
    ensures Double(Raise(l, v)) == Raise(l, Double(v))
  {
    hide Raise, Turn, Add;
    RaiseTurn(l, 1, v);
    RaiseTurn(l, 2, v);
    var c := Add(Turn(1, v), Turn(2, v));
    RaiseIsLinear(l, Turn(1, v), Turn(2, v));
    RaiseIsLinear(l, v, c);
    RaiseTurn(l, 1, Add(v, c));
  }

  lemma DoubleZero()
    ensures Double(ZERO) == ZERO
  {
    hide Turn, Add;
    AddZero(ZERO);
    TurnZero(1);
    TurnZero(2);
  }

  /** Every symbol of a word times the second symbol. */
  function Twice(w: bv30): bv30 {
    ((w & 0x1EF7BDEF) << 1) ^ ((w & 0x21084210) >> 4) ^ ((w & 0x21084210) >> 1)
  }

  lemma GeneratorsDouble(i: nat)
    requires i < 4
    ensures GENERATORS[i + 1] == Twice(GENERATORS[i])
  {
  }

  lemma TwiceLower(w: bv30)
    ensures Lower(Twice(w)) == Twice(Lower(w))
  {
  }

  lemma TwiceBits(w: bv30)
    ensures Twice(w) & 1 != 0 <==> w & 16 != 0
    ensures Twice(w) & 2 != 0 <==> w & 1 != 0
    ensures Twice(w) & 4 != 0 <==> w & 2 != 0
    ensures Twice(w) & 8 != 0 <==> ((w & 4 != 0) != (w & 16 != 0))
    ensures Twice(w) & 16 != 0 <==> w & 8 != 0
  {
  }

  lemma EmbedTwice(w: bv30)
    ensures Embed(Twice(w)) == Double(Embed(w))
  {
    hide Twice;
    TwiceBits(w);
    DoubleBits(Embed(w));
  }

  lemma {:induction false} HornerTwice(l: nat, w: bv30, n: nat, top: Element)
    ensures Horner(l, Twice(w), n, Double(top)) == Double(Horner(l, w, n, top))
    decreases n
  {
    hide Double, Embed, Raise, Lower, Add, Twice;
    if n > 0 {
      TwiceLower(w);
      EmbedTwice(w);
      HornerTwice(l, Lower(w), n - 1, top);
      var rest := Horner(l, Lower(w), n - 1, top);
      DoubleRaise(l, rest);
      DoubleIsLinear(Embed(w), Raise(l, rest));
    }
  }

  function Unit(i: nat): bv30
    requires i < 5
  {
    if i == 0 then 1 else if i == 1 then 2 else if i == 2 then 4 else if i == 3 then 8 else 16
  }

  lemma UnitsDouble(i: nat)
    requires i < 4
    ensures Unit(i + 1) == Twice(Unit(i))
  {
  }

  lemma UnitZero()
    ensures Embed(Unit(0)) == ONE
  {
  }

  lemma DoubleBits(v: Element)
    ensures Double(v) == Times(Add(v, Add(Times(v), Times(Times(v)))))
  {
    hide Times, Add;
    assert Turn(2, v) == Times(Turn(1, v));
    assert Turn(1, v) == Times(Turn(0, v)) == Times(v);
    var s := Add(v, Add(Turn(1, v), Turn(2, v)));
    assert Turn(1, s) == Times(Turn(0, s)) == Times(s);
  }

  lemma Roots(l: nat)
    requires l <= 2
    ensures Horner(l, GENERATORS[0], 6, ONE) == ZERO
  {
    hide Horner;
    if l == 0 {
      Root0();
    } else if l == 1 {
      Root1();
    } else {
      Root2();
    }
  }

  /** Each generator, with its multiple of the leading coefficient, vanishes at the roots. */
  lemma {:induction false} GeneratorVanishes(l: nat, i: nat)
    requires l <= 2 && i < 5
    ensures Horner(l, GENERATORS[i], 6, Embed(Unit(i))) == ZERO
    decreases i
  {
    hide Horner, Twice, Unit, Embed, Double;
    if i == 0 {
      UnitZero();
      Roots(l);
    } else {
      GeneratorVanishes(l, i - 1);
      GeneratorsDouble(i - 1);
      UnitsDouble(i - 1);
      EmbedTwice(Unit(i - 1));
      HornerTwice(l, GENERATORS[i - 1], 6, Embed(Unit(i - 1)));
      DoubleZero();
    }
  }

  lemma GeneratorAt(l: nat, i: nat)
    requires l <= 2 && i < 5
    ensures Evaluate(l, GENERATORS[i]) == Lift(l, 6, Embed(Unit(i)))
  {
    hide Horner, Lift, Embed, Add, Unit;
    GeneratorVanishes(l, i);
    HornerTop(l, GENERATORS[i], 6, Embed(Unit(i)));
    AddVanishes(Evaluate(l, GENERATORS[i]), Lift(l, 6, Embed(Unit(i))));
  }

  lemma TapAt(l: nat, t: bv30, i: nat)
    requires l <= 2 && i < 5
    ensures Evaluate(l, Tap(t, i)) == Lift(l, 6, Embed(t & Unit(i)))
  {
    hide Evaluate, Lift, Embed, Tap;
    OneBit(t, Unit(i));
    TapCases(t, i, Unit(i));
    if t & Unit(i) != 0 {
      GeneratorAt(l, i);
    } else {
      EvaluateZero(l);
      ZeroWord();
    }
  }

  lemma EvaluateZero(l: nat)
    ensures Evaluate(l, 0) == Lift(l, 6, ZERO) == ZERO
  {
    hide Horner, Add, Lift;
    HornerOfZero(l, 6, ZERO);
    LiftIsLinear(l, 6, ZERO, ZERO);
    AddZero(ZERO);
    AddZero(Lift(l, 6, ZERO));
  }

  lemma EmbedParts(t: bv30)
    ensures Embed(t) == Add(Add(Add(Add(Embed(t & 1), Embed(t & 2)), Embed(t & 4)), Embed(t & 8)), Embed(t & 16))
  {
    Masked(t);
  }

  lemma Masked(t: bv30)
    ensures (t & 1) & 1 == t & 1 && (t & 2) & 2 == t & 2 && (t & 4) & 4 == t & 4 && (t & 8) & 8 == t & 8
    ensures (t & 16) & 16 == t & 16
    ensures (t & 1) & 2 == 0 && (t & 1) & 4 == 0 && (t & 1) & 8 == 0 && (t & 1) & 16 == 0
    ensures (t & 2) & 1 == 0 && (t & 2) & 4 == 0 && (t & 2) & 8 == 0 && (t & 2) & 16 == 0
    ensures (t & 4) & 1 == 0 && (t & 4) & 2 == 0 && (t & 4) & 8 == 0 && (t & 4) & 16 == 0
    ensures (t & 8) & 1 == 0 && (t & 8) & 2 == 0 && (t & 8) & 4 == 0 && (t & 8) & 16 == 0
    ensures (t & 16) & 1 == 0 && (t & 16) & 2 == 0 && (t & 16) & 4 == 0 && (t & 16) & 8 == 0
  {
  }

  /** The feedback is the symbol shifted out, six places up. */
  lemma TapsAt(l: nat, t: bv30)
    requires l <= 2
    ensures Evaluate(l, Taps(t)) == Lift(l, 6, Embed(t))
  {
    hide Evaluate, Lift, Embed, Tap, Xor, Add;
    TapAt(l, t, 0);
    TapAt(l, t, 1);
    TapAt(l, t, 2);
    TapAt(l, t, 3);
    TapAt(l, t, 4);
    EmbedParts(t);
    var x1 := Xor(Tap(t, 0), Tap(t, 1));
    var x2 := Xor(x1, Tap(t, 2));
    var x3 := Xor(x2, Tap(t, 3));
    EvaluateIsLinear(l, Tap(t, 0), Tap(t, 1));
    EvaluateIsLinear(l, x1, Tap(t, 2));
    EvaluateIsLinear(l, x2, Tap(t, 3));
    EvaluateIsLinear(l, x3, Tap(t, 4));
    var e1 := Add(Embed(t & 1), Embed(t & 2));
    var e2 := Add(e1, Embed(t & 4));
    var e3 := Add(e2, Embed(t & 8));
    LiftIsLinear(l, 6, Embed(t & 1), Embed(t & 2));
    LiftIsLinear(l, 6, e1, Embed(t & 4));
    LiftIsLinear(l, 6, e2, Embed(t & 8));
    LiftIsLinear(l, 6, e3, Embed(t & 16));
  }

  /** Mixing multiplies the value at each root by that root. */
  lemma EvaluateMix(l: nat, w: bv30)
    requires l <= 2
    ensures Evaluate(l, Mix(w)) == Raise(l, Evaluate(l, w))
  {
    hide Horner, Lift, Raise, Embed, Taps, Xor, Add, Mix, Shifted, Top;
    MixIsShiftAndTaps(w);
    EvaluateIsLinear(l, Shifted(w), Taps(Top(w)));
    EvaluateShifted(l, w);
    TapsAt(l, Top(w));
    HornerLast(l, w, 5);
    DropsToTop(w);
    HornerTop(l, w, 5, Embed(Top(w)));
    RaiseIsLinear(l, Horner(l, w, 5, ZERO), Lift(l, 5, Embed(Top(w))));
    LiftSix(l, Embed(Top(w)));
  }

  lemma LiftSix(l: nat, v: Element)
    ensures Lift(l, 6, v) == Raise(l, Lift(l, 5, v))
  {
  }

  // ---- what a run makes of the differences ----

  function Deltas(v: seq<nat>, w: seq<nat>): seq<Element>
    requires AreSymbols(v) && AreSymbols(w) && |v| == |w|
  {
    seq(|v|, i requires 0 <= i < |v| => Embed(Xor(Word(v[i]), Word(w[i]))))
  }

  function Spread(l: nat, deltas: seq<Element>): Element {
    if deltas == [] then ZERO
    else Add(deltas[|deltas| - 1], Raise(l, Spread(l, deltas[..|deltas| - 1])))
  }

  lemma EvaluateSmall(l: nat, x: bv30)
    requires x < 32
    ensures Evaluate(l, x) == Embed(x)
  {
    hide Embed, Raise, Add, Lift;
    assert Lower(x) == 0;
    HornerOfZero(l, 5, ZERO);
    EvaluateZero(l);
    LiftSix(l, ZERO);
    LiftZero(l, 5);
    RaiseZero(l);
    AddZero(Embed(x));
  }

  lemma LiftZero(l: nat, n: nat)
    ensures Lift(l, n, ZERO) == ZERO
  {
    hide Add, Lift;
    LiftIsLinear(l, n, ZERO, ZERO);
    AddZero(ZERO);
    AddZero(Lift(l, n, ZERO));
  }

  lemma DifferenceIsSmall(v: nat, w: nat)
    requires v < 32 && w < 32
    ensures Xor(Word(v), Word(w)) < 32
  {
    WordIsSmall(v);
    WordIsSmall(w);
    XorSmall(Word(v), Word(w));
  }

  /** The difference of two checksums, evaluated at a root. */
  lemma {:induction false} RunSpreads(l: nat, c: bv30, v: seq<nat>, w: seq<nat>)
    requires l <= 2 && AreSymbols(v) && AreSymbols(w) && |v| == |w|
    ensures Evaluate(l, Xor(Run(c, v), Run(c, w))) == Spread(l, Deltas(v, w))
    decreases |v|
  {
    hide Xor, Word, Step, Mix, Evaluate, Embed, Raise, Add;
    if v == [] {
      XorSelf(c);
      EvaluateZero(l);
    } else {
      var n := |v| - 1;
      RunSpreads(l, c, v[..n], w[..n]);
      var a, b := Run(c, v[..n]), Run(c, w[..n]);
      StepDifference(a, b, v[n], w[n]);
      DifferenceIsSmall(v[n], w[n]);
      EvaluateSmall(l, Xor(Word(v[n]), Word(w[n])));
      EvaluateMix(l, Xor(a, b));
      EvaluateIsLinear(l, Xor(Word(v[n]), Word(w[n])), Mix(Xor(a, b)));
      assert Deltas(v, w)[..n] == Deltas(v[..n], w[..n]);
    }
  }

  predicate Silent(deltas: seq<Element>, from: nat, to: nat) {
    from <= to <= |deltas| && forall m | from <= m < to :: deltas[m] == ZERO
  }

  /** Without a difference from some place on, only the root's powers are added. */
  lemma {:induction false} Silence(l: nat, deltas: seq<Element>, k: nat)
    requires Silent(deltas, k, |deltas|)
    ensures Spread(l, deltas) == Lift(l, |deltas| - k, Spread(l, deltas[..k]))
    decreases |deltas|
  {
    hide Raise, Add;
    if k == |deltas| {
      assert deltas[..k] == deltas;
    } else {
      var n := |deltas| - 1;
      Silence(l, deltas[..n], k);
      assert deltas[..n][..k] == deltas[..k];
      AddZero(Raise(l, Spread(l, deltas[..n])));
    }
  }

  lemma SpreadNext(l: nat, deltas: seq<Element>, i: nat, k: nat)
    requires k < |deltas| && Silent(deltas, i, k)
    ensures Spread(l, deltas[..k + 1]) == Add(deltas[k], Lift(l, k - i + 1, Spread(l, deltas[..i])))
  {
    hide Raise, Add;
    assert deltas[..k + 1][..k] == deltas[..k] && deltas[..k][..i] == deltas[..i];
    Silence(l, deltas[..k], i);
  }

  lemma AfterFirst(l: nat, deltas: seq<Element>, i: nat)
    requires i < |deltas| && Silent(deltas, 0, i)
    ensures Spread(l, deltas[..i + 1]) == deltas[i]
  {
    assert Spread(l, deltas[..0]) == ZERO;
    hide Add, Lift, Spread;
    SpreadNext(l, deltas, 0, i);
    LiftZero(l, i + 1);
    AddZero(deltas[i]);
  }

  lemma AfterNext(l: nat, deltas: seq<Element>, i: nat, j: nat, before: Element)
    requires i < j < |deltas| && Spread(l, deltas[..i + 1]) == before && Silent(deltas, i + 1, j)
    ensures Spread(l, deltas[..j + 1]) == Add(deltas[j], Lift(l, j - i, before))
  {
    hide Add, Lift, Spread;
    SpreadNext(l, deltas, i + 1, j);
  }

  lemma AfterLast(l: nat, deltas: seq<Element>, k: nat, before: Element)
    requires k < |deltas| && Spread(l, deltas) == ZERO && Spread(l, deltas[..k + 1]) == before
    requires Silent(deltas, k + 1, |deltas|)
    ensures before == ZERO
  {
    hide Add, Lift, Spread;
    Silence(l, deltas, k + 1);
    LiftVanishes(l, |deltas| - (k + 1), before);
  }

  predicate OnlyAt(deltas: seq<Element>, i: nat, j: nat, k: nat) {
    && i < j < k < |deltas|
    && Silent(deltas, 0, i) && Silent(deltas, i + 1, j) && Silent(deltas, j + 1, k)
    && Silent(deltas, k + 1, |deltas|)
  }

  /** Three differences that vanish together satisfy one equation at each root. */
  lemma ThreeDeltas(l: nat, deltas: seq<Element>, i: nat, j: nat, k: nat)
    requires i < j < k < |deltas| && Spread(l, deltas) == ZERO
    requires OnlyAt(deltas, i, j, k)
    ensures Add(Add(Lift(l, k - i, deltas[i]), Lift(l, k - j, deltas[j])), deltas[k]) == ZERO
  {
    hide Add, Lift, Spread, Silent;
    AfterFirst(l, deltas, i);
    var second := Add(deltas[j], Lift(l, j - i, deltas[i]));
    AfterNext(l, deltas, i, j, deltas[i]);
    var third := Add(deltas[k], Lift(l, k - j, second));
    AfterNext(l, deltas, j, k, second);
    AfterLast(l, deltas, k, third);
    Unfolded(l, deltas[i], deltas[j], deltas[k], j - i, k - j);
  }

  lemma Unfolded(l: nat, a: Element, b: Element, c: Element, p: nat, q: nat)
    ensures Add(c, Lift(l, q, Add(b, Lift(l, p, a)))) == Add(Add(Lift(l, q + p, a), Lift(l, q, b)), c)
  {
    hide Add, Lift;
    LiftIsLinear(l, q, b, Lift(l, p, a));
    LiftLifts(l, q, p, a);
    Rotate(c, Lift(l, q, b), Lift(l, q + p, a));
  }

  lemma Rotate(a: Element, b: Element, c: Element)
    ensures Add(a, Add(b, c)) == Add(Add(c, b), a)
  {
  }

  // ---- elimination ----

  lemma CancelThird(a: Element, b: Element, c: Element, d: Element, e: Element)
    requires Add(Add(a, b), e) == ZERO && Add(Add(c, d), e) == ZERO
    ensures Add(a, c) == Add(b, d)
  {
    hide Add;
    AddVanishes(Add(a, b), e);
    AddVanishes(Add(c, d), e);
    AddVanishes(Add(a, b), Add(c, d));
    AddSwaps(a, b, c, d);
    AddVanishes(Add(a, c), Add(b, d));
  }

  /** Turning y forward by p and adding it: zero only for zero. */
  lemma Unmoved(p: nat, y: Element)
    requires 0 < p < 1023 && Add(Turn(p, y), y) == ZERO
    ensures y == ZERO
  {
    hide Add, Turn;
    AddVanishes(Turn(p, y), y);
    NoEarlyReturn(p, y);
  }

  /** The three equations have only the trivial solution. */
  lemma OnlyTrivial(p: nat, q: nat, y0: Element, y1: Element, y2: Element)
    requires 0 < q < p < 1023
    requires Add(Add(y0, y1), y2) == ZERO
    requires Add(Add(Turn(p, y0), Turn(q, y1)), y2) == ZERO
    requires Add(Add(Turn(2 * p, y0), Turn(2 * q, y1)), y2) == ZERO
    ensures y0 == ZERO && y1 == ZERO && y2 == ZERO
  {
    hide Add, Turn;
    CancelThird(Turn(p, y0), Turn(q, y1), y0, y1, y2);
    CancelThird(Turn(2 * p, y0), Turn(2 * q, y1), Turn(p, y0), Turn(q, y1), y2);
    var z := Add(Turn(p, y0), y0);
    assert z == Add(Turn(q, y1), y1);
    TurnIsLinear(p, Turn(p, y0), y0);
    TurnTurns(p, p, y0);
    TurnIsLinear(q, Turn(q, y1), y1);
    TurnTurns(q, q, y1);
    assert Turn(p, z) == Turn(q, z);
    TurnTurns(q, p - q, z);
    TurnInjective(q, Turn(p - q, z), z);
    NoEarlyReturn(p - q, z);
    Unmoved(p, y0);
    Unmoved(q, y1);
    AddZero(ZERO);
    AddZero(y2);
  }

  lemma SymbolsAgree(v: nat, w: nat)
    requires v < 32 && w < 32 && Embed(Xor(Word(v), Word(w))) == ZERO
    ensures v == w
  {
    hide Embed, Word, Xor;
    DifferenceIsSmall(v, w);
    EmbedVanishes(Xor(Word(v), Word(w)));
    XorCancels(Word(v), Word(w));
    WordIsInjective(v, w);
  }

  lemma DeltasVanish(deltas: seq<Element>, i: nat, j: nat, k: nat)
    requires i < j < k < |deltas| && k - i < 1023
    requires forall l: nat | l <= 2 :: Spread(l, deltas) == ZERO
    requires OnlyAt(deltas, i, j, k)
    ensures deltas[i] == ZERO && deltas[j] == ZERO && deltas[k] == ZERO
  {
    hide Add, Turn, Lift, Spread, OnlyAt;
    var p, q := k - i, k - j;
    forall l: nat | l <= 2
      ensures Add(Add(Turn(l * p, Lift(0, p, deltas[i])), Turn(l * q, Lift(0, q, deltas[j]))), deltas[k]) == ZERO
    {
      ThreeDeltas(l, deltas, i, j, k);
      LiftSplits(l, p, deltas[i]);
      LiftSplits(l, q, deltas[j]);
    }
    var y0, y1 := Lift(0, p, deltas[i]), Lift(0, q, deltas[j]);
    TurnNothing();
    assert Turn(0 * p, y0) == y0 && Turn(0 * q, y1) == y1;
    assert Turn(1 * p, y0) == Turn(p, y0) && Turn(1 * q, y1) == Turn(q, y1);
    OnlyTrivial(p, q, y0, y1, deltas[k]);
    LiftVanishes(0, p, deltas[i]);
    LiftVanishes(0, q, deltas[j]);
  }

  /**
   Up to three substituted symbols always change the checksum, anywhere within 1023
   neighbouring symbols.
   */
  lemma ThreeSubstitutionsChangeChecksum(c: bv30, v: seq<nat>, w: seq<nat>, i: nat, j: nat, k: nat)
    requires AreSymbols(v) && AreSymbols(w) && |v| == |w|
    requires i < j < k < |v| && k - i < 1023
    requires forall m | 0 <= m < |v| && m != i && m != j && m != k :: v[m] == w[m]
    requires Run(c, v) == Run(c, w)
    ensures v == w
  {
    hide Run, Spread, Embed, Word, Xor, Evaluate;
    var deltas := Deltas(v, w);
    forall l: nat | l <= 2
      ensures Spread(l, deltas) == ZERO
    {
      RunSpreads(l, c, v, w);
      XorSelf(Run(c, v));
      EvaluateZero(l);
    }
    forall m | 0 <= m < |v| && m != i && m != j && m != k
      ensures deltas[m] == ZERO
    {
      XorSelf(Word(v[m]));
      ZeroWord();
    }
    DeltasVanish(deltas, i, j, k);
    SymbolsAgree(v[i], w[i]);
    SymbolsAgree(v[j], w[j]);
    SymbolsAgree(v[k], w[k]);
  }
}
