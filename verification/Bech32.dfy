/**
 The checksum step of section "Checksum" of BIP-173 on 30-bit words: it is linear and
 injective, so it tells apart any two data parts that differ within six neighbours.
 */
module Bech32 {

  const GENERATORS: seq<bv30> := [0x3B6A57B2, 0x26508E6D, 0x1EA119FA, 0x3D4233DD, 0x2A1462B3]

  function Xor(a: bv30, b: bv30): bv30 {
    a ^ b
  }

  function Word(value: nat): bv30
    requires value < 32
  {
    (value as bv5) as bv30
  }

  predicate AreSymbols(values: seq<nat>) {
    forall i | 0 <= i < |values| :: values[i] < 32
  }

  /** What bit `index` of the five bits shifted out feeds back. */
  function Tap(top: bv30, index: nat): bv30
    requires index < 5
  {
    if index == 0 then if top & 1 != 0 then GENERATORS[0] else 0
    else if index == 1 then if top & 2 != 0 then GENERATORS[1] else 0
    else if index == 2 then if top & 4 != 0 then GENERATORS[2] else 0
    else if index == 3 then if top & 8 != 0 then GENERATORS[3] else 0
    else if top & 16 != 0 then GENERATORS[4] else 0
  }

  /** The first generators folded into a word, one after the other. */
  function Fold(word: bv30, top: bv30, count: nat): bv30
    requires count <= 5
  {
    if count == 0 then word else Xor(Fold(word, top, count - 1), Tap(top, count - 1))
  }

  function Shifted(checksum: bv30): bv30 {
    (checksum & 0x1FFFFFF) << 5
  }

  function Top(checksum: bv30): bv30 {
    checksum >> 25
  }

  function Step(checksum: bv30, value: nat): bv30
    requires value < 32
  {
    Fold(Xor(Shifted(checksum), Word(value)), Top(checksum), 5)
  }

  function Run(checksum: bv30, values: seq<nat>): bv30
    requires AreSymbols(values)
  {
    if values == [] then checksum
    else Step(Run(checksum, values[..|values| - 1]), values[|values| - 1])
  }

  lemma RunPrefix(checksum: bv30, values: seq<nat>, i: nat)
    requires AreSymbols(values) && i <= |values|
    ensures i == 0 ==> Run(checksum, values[..i]) == checksum
    ensures i < |values| ==> Run(checksum, values[..i + 1]) == Step(Run(checksum, values[..i]), values[i])
  {
    if i < |values| {
      assert values[..i + 1][..i] == values[..i];
    }
  }

  /** `_polymod`: one pass over the values, and for each one over the generators. */
  method Polymod(values: seq<nat>) returns (checksum: bv30)
    requires AreSymbols(values)
    ensures checksum == Run(1, values)
  {
    hide Run, Xor, Tap, Shifted, Top, Word;
    checksum := 1;
    RunPrefix(1, values, 0);
    for i := 0 to |values|
      invariant checksum == Run(1, values[..i])
    {
      var top := Top(checksum);
      ghost var word := Xor(Shifted(checksum), Word(values[i]));
      RunPrefix(1, values, i);
      checksum := Xor(Shifted(checksum), Word(values[i]));
      for index := 0 to 5
        invariant checksum == Fold(word, top, index)
      {
        checksum := Xor(checksum, Tap(top, index));
      }
    }
    assert values[..|values|] == values;
  }

  // ---- exclusive or ----

  lemma XorCommutes(a: bv30, b: bv30)
    ensures Xor(a, b) == Xor(b, a)
  {
  }

  lemma XorAssociates(a: bv30, b: bv30, c: bv30)
    ensures Xor(Xor(a, b), c) == Xor(a, Xor(b, c))
  {
  }

  lemma XorZero(a: bv30)
    ensures Xor(a, 0) == a == Xor(0, a)
  {
  }

  lemma XorSelf(a: bv30)
    ensures Xor(a, a) == 0
  {
  }

  lemma XorCancels(a: bv30, b: bv30)
    ensures Xor(a, b) == 0 <==> a == b
  {
    hide Xor;
    XorSelf(b);
    XorAssociates(a, b, b);
    XorZero(a);
    XorZero(b);
  }

  lemma XorSwaps(a: bv30, b: bv30, c: bv30, d: bv30)
    ensures Xor(Xor(a, b), Xor(c, d)) == Xor(Xor(a, c), Xor(b, d))
  {
    hide Xor;
    XorAssociates(a, b, Xor(c, d));
    XorAssociates(b, c, d);
    XorCommutes(b, c);
    XorAssociates(c, b, d);
    XorAssociates(a, c, Xor(b, d));
  }

  // ---- the step is linear ----

  /** A step without its value. */
  function Mix(c: bv30): bv30 {
    Fold(Shifted(c), Top(c), 5)
  }

  lemma BitOfXor(s: bv30, t: bv30, mask: bv30)
    requires mask == 1 || mask == 2 || mask == 4 || mask == 8 || mask == 16
    ensures (Xor(s, t) & mask != 0) <==> ((s & mask != 0) != (t & mask != 0))
  {
    OneBit(s, mask);
    OneBit(t, mask);
    MaskOfXor(s, t, mask);
    XorCancels(s & mask, t & mask);
  }

  lemma OneBit(x: bv30, mask: bv30)
    requires mask == 1 || mask == 2 || mask == 4 || mask == 8 || mask == 16
    ensures x & mask == 0 || x & mask == mask
  {
  }

  lemma MaskOfXor(s: bv30, t: bv30, mask: bv30)
    ensures Xor(s, t) & mask == Xor(s & mask, t & mask)
  {
  }

  lemma TapIsLinear(s: bv30, t: bv30, index: nat)
    requires index < 5
    ensures Tap(Xor(s, t), index) == Xor(Tap(s, index), Tap(t, index))
  {
    hide Xor, Tap;
    var mask: bv30 :=
      if index == 0 then 1 else if index == 1 then 2 else if index == 2 then 4 else if index == 3 then 8 else 16;
    BitOfXor(s, t, mask);
    TapCases(s, index, mask);
    TapCases(t, index, mask);
    TapCases(Xor(s, t), index, mask);
    OnlyEqual(Tap(Xor(s, t), index), Tap(s, index), Tap(t, index), GENERATORS[index]);
  }

  lemma TapCases(top: bv30, index: nat, mask: bv30)
    requires index < 5
    requires mask == if index == 0 then 1 else if index == 1 then 2 else if index == 2 then 4 else if index == 3 then 8
                     else 16
    ensures Tap(top, index) == if top & mask != 0 then GENERATORS[index] else 0
    ensures GENERATORS[index] != 0
  {
  }

  lemma OnlyEqual(r: bv30, a: bv30, b: bv30, g: bv30)
    requires (a == 0 || a == g) && (b == 0 || b == g) && r == (if a == b then 0 else g)
    ensures r == Xor(a, b)
  {
    hide Xor;
    XorCancels(a, b);
    XorZero(g);
  }

  lemma {:induction false} FoldIsLinear(v: bv30, w: bv30, s: bv30, t: bv30, count: nat)
    requires count <= 5
    ensures Fold(Xor(v, w), Xor(s, t), count) == Xor(Fold(v, s, count), Fold(w, t, count))
  {
    hide Xor, Tap;
    if count > 0 {
      FoldIsLinear(v, w, s, t, count - 1);
      TapIsLinear(s, t, count - 1);
      XorSwaps(Fold(v, s, count - 1), Fold(w, t, count - 1), Tap(s, count - 1), Tap(t, count - 1));
    }
  }

  lemma ShiftIsLinear(a: bv30, b: bv30)
    ensures Shifted(Xor(a, b)) == Xor(Shifted(a), Shifted(b))
    ensures Top(Xor(a, b)) == Xor(Top(a), Top(b))
  {
  }

  /** Mixing is linear over exclusive or. */
  lemma MixIsLinear(a: bv30, b: bv30)
    ensures Mix(Xor(a, b)) == Xor(Mix(a), Mix(b))
  {
    hide Xor, Shifted, Top, Fold;
    ShiftIsLinear(a, b);
    FoldIsLinear(Shifted(a), Shifted(b), Top(a), Top(b), 5);
  }

  lemma {:induction false} FoldApart(v: bv30, w: bv30, top: bv30, count: nat)
    requires count <= 5
    ensures Fold(Xor(v, w), top, count) == Xor(w, Fold(v, top, count))
  {
    hide Xor, Tap;
    if count == 0 {
      XorCommutes(v, w);
    } else {
      FoldApart(v, w, top, count - 1);
      XorAssociates(w, Fold(v, top, count - 1), Tap(top, count - 1));
    }
  }

  /** A step is the mixed checksum with the value added. */
  lemma StepIsMix(c: bv30, value: nat)
    requires value < 32
    ensures Step(c, value) == Xor(Word(value), Mix(c))
  {
    hide Xor, Shifted, Top, Fold, Word;
    FoldApart(Shifted(c), Word(value), Top(c), 5);
  }

  // ---- and injective ----

  /** The feedback alone. */
  function Taps(top: bv30): bv30 {
    Xor(Xor(Xor(Xor(Tap(top, 0), Tap(top, 1)), Tap(top, 2)), Tap(top, 3)), Tap(top, 4))
  }

  lemma MixIsShiftAndTaps(c: bv30)
    ensures Mix(c) == Xor(Shifted(c), Taps(Top(c)))
  {
    hide Shifted, Top, Tap, Xor;
    var t := Top(c);
    XorZero(Tap(t, 0));
    assert Fold(0, t, 1) == Xor(Fold(0, t, 0), Tap(t, 0));
    assert Fold(0, t, 2) == Xor(Fold(0, t, 1), Tap(t, 1));
    assert Fold(0, t, 3) == Xor(Fold(0, t, 2), Tap(t, 2));
    assert Fold(0, t, 4) == Xor(Fold(0, t, 3), Tap(t, 3));
    assert Fold(0, t, 5) == Xor(Fold(0, t, 4), Tap(t, 4));
    assert Fold(0, t, 5) == Taps(t);
    FoldApart(0, Shifted(c), t, 5);
    XorZero(Shifted(c));
  }

  /** The low five bits of the generators are independent. */
  lemma TapsVanish(top: bv30)
    requires top < 32 && Taps(top) & 31 == 0
    ensures top == 0
  {
  }

  lemma LowBits(c: bv30, x: bv30)
    ensures Top(c) < 32
    ensures Xor(Shifted(c), x) & 31 == x & 31
    ensures Top(c) == 0 && Shifted(c) == 0 ==> c == 0
  {
  }

  lemma NoTaps()
    ensures Taps(0) == 0
  {
  }

  lemma MixVanishes(c: bv30)
    requires Mix(c) == 0
    ensures c == 0
  {
    hide Taps, Shifted, Top, Xor, Mix;
    MixIsShiftAndTaps(c);
    LowBits(c, Taps(Top(c)));
    TapsVanish(Top(c));
    NoTaps();
    XorZero(Shifted(c));
  }

  /** Mixing is injective on 30-bit words. */
  lemma MixIsInjective(a: bv30, b: bv30)
    requires Mix(a) == Mix(b)
    ensures a == b
  {
    hide Mix, Xor;
    MixIsLinear(a, b);
    XorCancels(Mix(a), Mix(b));
    MixVanishes(Xor(a, b));
    XorCancels(a, b);
  }

  lemma WordIsSmall(v: nat)
    requires v < 32
    ensures Small(Word(v), 1)
  {
  }

  lemma WordBack(v: nat)
    requires v < 32
    ensures (Word(v) as bv5) as int == v
  {
  }

  lemma WordIsInjective(v: nat, w: nat)
    requires v < 32 && w < 32 && Word(v) == Word(w)
    ensures v == w
  {
    hide Word;
    WordBack(v);
    WordBack(w);
  }

  lemma XorInjective(a: bv30, b: bv30, x: bv30)
    requires Xor(x, a) == Xor(x, b)
    ensures a == b
  {
  }

  lemma {:induction false} RunIsInjective(a: bv30, b: bv30, values: seq<nat>)
    requires AreSymbols(values) && Run(a, values) == Run(b, values)
    ensures a == b
  {
    hide Step, Xor, Mix;
    if values != [] {
      var n := |values| - 1;
      var a', b' := Run(a, values[..n]), Run(b, values[..n]);
      StepIsMix(a', values[n]);
      StepIsMix(b', values[n]);
      XorInjective(Mix(a'), Mix(b'), Word(values[n]));
      MixIsInjective(a', b');
      RunIsInjective(a, b, values[..n]);
    }
  }

  lemma {:induction false} RunConcat(c: bv30, v: seq<nat>, w: seq<nat>)
    requires AreSymbols(v) && AreSymbols(w)
    ensures AreSymbols(v + w) && Run(c, v + w) == Run(Run(c, v), w)
  {
    hide Step;
    if w == [] {
      assert v + w == v;
    } else {
      var n := |w| - 1;
      assert (v + w)[..|v + w| - 1] == v + w[..n];
      RunConcat(c, v, w[..n]);
    }
  }

  // ---- bursts ----

  /** Bounds on the difference of two checksums, symbol by symbol. */
  const BOUNDS: seq<bv30> := [1, 32, 1024, 32768, 1048576, 33554432]

  /** A difference that the last `k` symbols can have made. */
  predicate Small(d: bv30, k: nat)
    requires k <= 5
  {
    d < BOUNDS[k]
  }

  /** Small differences are only shifted. */
  lemma SmallDifference(d: bv30, k: nat)
    requires k <= 5 && Small(d, k)
    ensures Top(d) == 0
  {
  }

  lemma NoFeedback(word: bv30, count: nat)
    requires count <= 5
    ensures Fold(word, 0, count) == word
  {
    if count > 0 {
      NoFeedback(word, count - 1);
      XorZero(word);
      assert Tap(0, count - 1) == 0;
    }
  }

  lemma AddValue(d: bv30, x: bv30, k: nat)
    requires k <= 5 && Small(d, k) && Small(x, 1)
    ensures k < 5 ==> Small(Xor(x, Shifted(d)), k + 1)
    ensures Xor(x, Shifted(d)) == 0 ==> x == 0 && d == 0
  {
  }

  lemma XorSmall(x: bv30, y: bv30)
    requires Small(x, 1) && Small(y, 1)
    ensures Small(Xor(x, y), 1)
  {
  }

  lemma SmallMix(d: bv30, k: nat)
    requires k <= 5 && Small(d, k)
    ensures Mix(d) == Shifted(d)
  {
    hide Shifted, Top, Xor, Fold, Small;
    SmallDifference(d, k);
    NoFeedback(Shifted(d), 5);
  }

  lemma StepDifference(a: bv30, b: bv30, v: nat, w: nat)
    requires v < 32 && w < 32
    ensures Xor(Step(a, v), Step(b, w)) == Xor(Xor(Word(v), Word(w)), Mix(Xor(a, b)))
  {
    hide Xor, Mix, Step, Word;
    StepIsMix(a, v);
    StepIsMix(b, w);
    XorSwaps(Word(v), Mix(a), Word(w), Mix(b));
    MixIsLinear(a, b);
  }

  /** A small difference stays small and keeps both the old difference and the new one apart. */
  lemma DifferenceGrows(a: bv30, b: bv30, v: nat, w: nat, k: nat)
    requires v < 32 && w < 32 && k <= 5 && Small(Xor(a, b), k)
    ensures k < 5 ==> Small(Xor(Step(a, v), Step(b, w)), k + 1)
    ensures Step(a, v) == Step(b, w) ==> v == w && a == b
  {
    hide Xor, Mix, Step, Word, Shifted, Small;
    StepDifference(a, b, v, w);
    WordIsSmall(v);
    WordIsSmall(w);
    XorSmall(Word(v), Word(w));
    SmallMix(Xor(a, b), k);
    AddValue(Xor(a, b), Xor(Word(v), Word(w)), k);
    XorCancels(Step(a, v), Step(b, w));
    XorCancels(a, b);
    XorCancels(Word(v), Word(w));
    if Word(v) == Word(w) {
      WordIsInjective(v, w);
    }
  }

  lemma NoDifference(c: bv30)
    ensures Small(Xor(c, c), 0)
  {
  }

  /** From one checksum, the difference after up to six symbols spells out where they differ. */
  lemma {:induction false} Difference(c: bv30, v: seq<nat>, w: seq<nat>)
    requires AreSymbols(v) && AreSymbols(w) && |v| == |w| <= 6
    ensures |v| <= 5 ==> Small(Xor(Run(c, v), Run(c, w)), |v|)
    ensures Run(c, v) == Run(c, w) ==> v == w
  {
    hide Xor, Step, Small;
    if v == [] {
      NoDifference(c);
    } else {
      var n := |v| - 1;
      Difference(c, v[..n], w[..n]);
      DifferenceGrows(Run(c, v[..n]), Run(c, w[..n]), v[n], w[n], n);
      assert v == v[..n] + [v[n]] && w == w[..n] + [w[n]];
    }
  }

  lemma Pieces(v: seq<nat>, k: nat, m: nat)
    requires k <= m <= |v|
    ensures v == v[..k] + (v[k..m] + v[m..])
  {
  }

  lemma RunPieces(c: bv30, v: seq<nat>, k: nat, m: nat)
    requires AreSymbols(v) && k <= m <= |v|
    ensures Run(c, v) == Run(Run(Run(c, v[..k]), v[k..m]), v[m..])
  {
    hide Run;
    Pieces(v, k, m);
    RunConcat(c, v[..k], v[k..m] + v[m..]);
    RunConcat(Run(c, v[..k]), v[k..m], v[m..]);
  }

  /** No burst within six neighbouring symbols goes unnoticed. */
  lemma BurstChangesChecksum(c: bv30, v: seq<nat>, w: seq<nat>, k: nat)
    requires AreSymbols(v) && AreSymbols(w) && |v| == |w|
    requires forall i | 0 <= i < |v| && (i < k || k + 6 <= i) :: v[i] == w[i]
    requires Run(c, v) == Run(c, w)
    ensures v == w
  {
    hide Run;
    if k < |v| {
      var m := if k + 6 <= |v| then k + 6 else |v|;
      assert v[..k] == w[..k];
      assert v[m..] == w[m..];
      RunPieces(c, v, k, m);
      RunPieces(c, w, k, m);
      var head := Run(c, v[..k]);
      RunIsInjective(Run(head, v[k..m]), Run(head, w[k..m]), v[m..]);
      Difference(head, v[k..m], w[k..m]);
      Pieces(v, k, m);
      Pieces(w, k, m);
    }
  }
}
