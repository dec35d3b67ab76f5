/** Decimal sums that never round: precision doubles until the sum is exact. */
module Decimals {
  import opened Wrappers

  /** A finite decimal, coefficient times ten to the exponent. */
  datatype Decimal = Decimal(coefficient: int, exponent: int)

  const ZERO := Decimal(0, 0)

  function PowerOfTen(e: int): real
    decreases if e < 0 then -e else e
  {
    if e == 0 then 1.0
    else if e > 0 then 10.0 * PowerOfTen(e - 1)
    else PowerOfTen(e + 1) / 10.0
  }

  function Value(d: Decimal): real {
    d.coefficient as real * PowerOfTen(d.exponent)
  }

  function Shift(coefficient: int, places: nat): int {
    if places == 0 then coefficient else 10 * Shift(coefficient, places - 1)
  }

  function Digits(n: int): nat
    decreases if n < 0 then 1 - n else n
  {
    if n < 0 then Digits(-n) else if n < 10 then 1 else 1 + Digits(n / 10)
  }

  /** Decimal addition before any rounding: align at the smaller exponent. */
  function Add(a: Decimal, b: Decimal): Decimal {
    if a.exponent <= b.exponent then
      Decimal(a.coefficient + Shift(b.coefficient, b.exponent - a.exponent), a.exponent)
    else
      Decimal(Shift(a.coefficient, a.exponent - b.exponent) + b.coefficient, b.exponent)
  }

  function SumFrom(start: Decimal, values: seq<Decimal>): Decimal
    decreases |values|
  {
    if values == [] then start else SumFrom(Add(start, values[0]), values[1..])
  }

  /** `sum(values, start)` with rounding trapped: none as soon as a partial sum needs more digits. */
  function TrySumFrom(start: Decimal, values: seq<Decimal>, precision: nat): Option<Decimal>
    decreases |values|
  {
    if values == [] then Some(start)
    else
      var next := Add(start, values[0]);
      if Digits(next.coefficient) > precision then None else TrySumFrom(next, values[1..], precision)
  }

  /** The digits the widest partial sum needs. */
  function WidthFrom(start: Decimal, values: seq<Decimal>): nat
    decreases |values|
  {
    if values == [] then 0
    else
      var next := Add(start, values[0]);
      var rest := WidthFrom(next, values[1..]);
      if Digits(next.coefficient) > rest then Digits(next.coefficient) else rest
  }

  function RealSum(values: seq<Decimal>): real {
    if values == [] then 0.0 else Value(values[0]) + RealSum(values[1..])
  }

  lemma {:induction false} TrySumSucceeds(start: Decimal, values: seq<Decimal>, precision: nat)
    ensures TrySumFrom(start, values, precision)
         == (if WidthFrom(start, values) <= precision then Some(SumFrom(start, values)) else None)
    decreases |values|
  {
    if values != [] {
      TrySumSucceeds(Add(start, values[0]), values[1..], precision);
    }
  }

  lemma {:induction false} ShiftKeepsValue(coefficient: int, places: nat, exponent: int)
    ensures Value(Decimal(Shift(coefficient, places), exponent - places))
         == Value(Decimal(coefficient, exponent))
    decreases places
  {
    if places > 0 {
      ShiftKeepsValue(coefficient, places - 1, exponent);
      var c, e := Shift(coefficient, places - 1), exponent - places;
      assert Shift(coefficient, places) == 10 * c;
      assert (10 * c) as real == 10.0 * c as real;
      assert PowerOfTen(e + 1) == 10.0 * PowerOfTen(e);
      TenTimes(c as real, PowerOfTen(e));
      assert exponent - (places - 1) == e + 1;
    }
  }

  lemma TenTimes(c: real, p: real)
    ensures (10.0 * c) * p == c * (10.0 * p)
  {
  }

  lemma AddIsExact(a: Decimal, b: Decimal)
    ensures Value(Add(a, b)) == Value(a) + Value(b)
  {
    if a.exponent <= b.exponent {
      ShiftKeepsValue(b.coefficient, b.exponent - a.exponent, b.exponent);
      Distribute(a.coefficient, Shift(b.coefficient, b.exponent - a.exponent), PowerOfTen(a.exponent));
    } else {
      ShiftKeepsValue(a.coefficient, a.exponent - b.exponent, a.exponent);
      Distribute(Shift(a.coefficient, a.exponent - b.exponent), b.coefficient, PowerOfTen(b.exponent));
    }
  }

  lemma Distribute(x: int, y: int, p: real)
    ensures (x + y) as real * p == x as real * p + y as real * p
  {
  }

  lemma {:induction false} SumFromIsExact(start: Decimal, values: seq<Decimal>)
    ensures Value(SumFrom(start, values)) == Value(start) + RealSum(values)
    decreases |values|
  {
    if values != [] {
      AddIsExact(start, values[0]);
      SumFromIsExact(Add(start, values[0]), values[1..]);
    }
  }

  /** The precision-doubling loop ends, and ends with the exact sum. */
  method ExactSum(values: seq<Decimal>) returns (total: Decimal)
    ensures total == SumFrom(ZERO, values)
    ensures Value(total) == RealSum(values)
  {
    SumFromIsExact(ZERO, values);
    var precision := 28;
    while true
      invariant precision >= 28
      decreases WidthFrom(ZERO, values) - precision
    {
      TrySumSucceeds(ZERO, values, precision);
      var attempt := TrySumFrom(ZERO, values, precision);
      if attempt.Some? {
        return attempt.value;
      }
      precision := precision * 2;
    }
  }
}
