/** The canonical owner check: a 20-byte `akash` account in Bech32. */
module ChainIdentity {
  import opened Wrappers
  import opened Bech32
  import Syndromes

  // ---- from five-bit symbols to bytes ----

  /** The number a sequence of digits spells, most significant first. */
  function NumberOf(base: nat, digits: seq<nat>): nat {
    if digits == [] then 0
    else base * NumberOf(base, digits[..|digits| - 1]) + digits[|digits| - 1]
  }

  predicate Below(base: nat, digits: seq<nat>) {
    forall i | 0 <= i < |digits| :: digits[i] < base
  }

  function Power(bits: nat): nat
    ensures Power(bits) > 0
  {
    if bits == 0 then 1 else 2 * Power(bits - 1)
  }

  lemma Powers()
    ensures Power(0) == 1 && Power(1) == 2 && Power(2) == 4 && Power(3) == 8 && Power(4) == 16
    ensures Power(5) == 32 && Power(6) == 64 && Power(7) == 128 && Power(8) == 256
  {
    assert Power(2) == 2 * Power(1);
    assert Power(4) == 2 * Power(3) == 4 * Power(2);
    assert Power(6) == 2 * Power(5) == 4 * Power(4);
    assert Power(8) == 2 * Power(7) == 4 * Power(6);
  }

  /** The bytes hold all the bits of the symbols except at most four padding bits, which are zero. */
  predicate ConvertsTo(values: seq<nat>, bytes: seq<nat>) {
    && Below(32, values) && Below(256, bytes)
    && 5 * |values| == 8 * |bytes| + 5 * |values| % 8 && 5 * |values| % 8 < 5
    && NumberOf(32, values) == Power(5 * |values| % 8) * NumberOf(256, bytes)
  }

  lemma DivisionIsUnique(x: nat, m: nat, k: nat, r: nat)
    requires m > 0 && r < m && x == m * k + r
    ensures x / m == k && x % m == r
  {
    var q, s := x / m, x % m;
    assert x == m * q + s;
    if q > k {
      MultiplesApart(m, k, q);
    } else if q < k {
      MultiplesApart(m, q, k);
    }
  }

  lemma {:induction false} MultiplesApart(m: nat, a: nat, b: nat)
    requires a < b
    ensures m * a + m <= m * b
  {
    if a + 1 < b {
      MultiplesApart(m, a, b - 1);
    }
    assert m * b == m * (b - 1) + m;
  }

  /** Five more bits: the part above them is unchanged. */
  lemma ShiftIn(accumulator: nat, bits: nat, value: nat)
    requires value < 32
    ensures (32 * accumulator + value) / Power(bits + 5) == accumulator / Power(bits)
  {
    hide Power;
    PowerSum(bits, 5);
    Powers();
    var m := Power(bits);
    var k, r := accumulator / m, accumulator % m;
    assert accumulator == m * k + r;
    assert 32 * accumulator + value == (32 * m) * k + (32 * r + value);
    DivisionIsUnique(32 * accumulator + value, 32 * m, k, 32 * r + value);
  }

  lemma {:induction false} PowerSum(a: nat, b: nat)
    ensures Power(a + b) == Power(a) * Power(b)
  {
    if b > 0 {
      PowerSum(a, b - 1);
      assert Power(a + b) == 2 * Power(a + (b - 1));
      Regroup(Power(a), Power(b - 1));
    }
  }

  lemma Regroup(x: nat, y: nat)
    ensures 2 * (x * y) == x * (2 * y)
  {
  }

  /** One byte out: it is what remains of the upper part. */
  lemma ShiftOut(accumulator: nat, bits: nat)
    ensures accumulator / Power(bits) == 256 * (accumulator / Power(bits + 8)) + (accumulator / Power(bits)) % 256
  {
    hide Power;
    PowerSum(bits, 8);
    Powers();
    var m := Power(bits);
    var q, r := accumulator / m, accumulator % m;
    var k, s := q / 256, q % 256;
    assert accumulator == m * q + r && q == 256 * k + s;
    Distribute(m, k, s);
    Scale(m, s, r);
    assert accumulator == (m * 256) * k + (m * s + r);
    DivisionIsUnique(accumulator, m * 256, k, m * s + r);
  }

  lemma Distribute(m: nat, k: nat, s: nat)
    ensures m * (256 * k + s) == (m * 256) * k + m * s
  {
  }

  lemma Scale(m: nat, s: nat, r: nat)
    requires s <= 255 && r < m
    ensures m * s + r < m * 256
  {
    assert m * s <= m * 255;
  }

  lemma NumberAppend(base: nat, digits: seq<nat>, d: nat)
    ensures NumberOf(base, digits + [d]) == base * NumberOf(base, digits) + d
  {
    assert (digits + [d])[..|digits|] == digits;
  }

  lemma PadBy(accumulator: nat, p: nat, q: nat)
    requires p > 0 && q > 0 && q * p == 256
    ensures (accumulator * p) % 256 == 0 <==> accumulator % q == 0
  {
    var k, r := accumulator / q, accumulator % q;
    assert accumulator == q * k + r;
    assert accumulator * p == (q * k + r) * p == 256 * k + r * p by {
      Spread(q, k, r, p);
    }
    MultiplesApart(p, r, q);
    Flip(p, r, q);
    DivisionIsUnique(accumulator * p, 256, k, r * p);
  }

  lemma Spread(q: nat, k: nat, r: nat, p: nat)
    ensures (q * k + r) * p == (q * p) * k + r * p
  {
  }

  lemma Flip(p: nat, r: nat, q: nat)
    ensures p * r == r * p && p * q == q * p
  {
  }

  lemma PaddingIsZero(accumulator: nat, bits: nat)
    requires bits < 5
    ensures (accumulator * Power(8 - bits)) % 256 == 0 <==> accumulator % Power(bits) == 0
  {
    PowerSum(bits, 8 - bits);
    Powers();
    PadBy(accumulator, Power(8 - bits), Power(bits));
  }

  /** What the loop has moved from the symbols to the bytes. */
  ghost predicate Moved(count: nat, accumulator: nat, bits: nat, output: seq<nat>) {
    && 8 * |output| + bits == 5 * count
    && Below(256, output) && NumberOf(256, output) == accumulator / Power(bits)
  }

  lemma SymbolMoves(count: nat, accumulator: nat, bits: nat, output: seq<nat>, value: nat)
    requires Moved(count, accumulator, bits, output) && value < 32
    ensures Moved(count + 1, 32 * accumulator + value, bits + 5, output)
  {
    ShiftIn(accumulator, bits, value);
  }

  lemma ByteMoves(count: nat, accumulator: nat, bits: nat, output: seq<nat>)
    requires Moved(count, accumulator, bits + 8, output)
    ensures Moved(count, accumulator, bits, output + [(accumulator / Power(bits)) % 256])
  {
    ShiftOut(accumulator, bits);
    NumberAppend(256, output, (accumulator / Power(bits)) % 256);
  }

  lemma RestOfBits(values: seq<nat>, accumulator: nat, bits: nat, output: seq<nat>)
    requires Moved(|values|, accumulator, bits, output) && bits < 8
    ensures bits == 5 * |values| % 8 && 8 * |output| + bits == 5 * |values|
  {
    DivisionIsUnique(5 * |values|, 8, |output|, bits);
  }

  lemma MovedConverts(values: seq<nat>, bits: nat, output: seq<nat>)
    requires Below(32, values) && Moved(|values|, NumberOf(32, values), bits, output) && bits < 5
    requires NumberOf(32, values) % Power(bits) == 0
    ensures ConvertsTo(values, output)
  {
    RestOfBits(values, NumberOf(32, values), bits, output);
    Exactly(NumberOf(32, values), Power(bits));
  }

  lemma Exactly(n: nat, m: nat)
    requires m > 0 && n % m == 0
    ensures n == m * (n / m)
  {
  }

  /** At most four padding bits, all zero. */
  predicate Convertible(values: seq<nat>) {
    Below(32, values) && 5 * |values| % 8 < 5 && NumberOf(32, values) % Power(5 * |values| % 8) == 0
  }

  lemma ConvertsHasZeroPadding(values: seq<nat>, bytes: seq<nat>)
    requires ConvertsTo(values, bytes)
    ensures Convertible(values)
  {
    DivisionIsUnique(NumberOf(32, values), Power(5 * |values| % 8), NumberOf(256, bytes), 0);
  }

  /** `_convert_five_to_eight`: an accumulator that is never masked. */
  method ConvertFiveToEight(values: seq<nat>) returns (r: Option<seq<nat>>)
    ensures r.Some? <==> Convertible(values)
    ensures r.Some? ==> ConvertsTo(values, r.value)
    ensures r.None? ==> forall bytes :: !ConvertsTo(values, bytes)
  {
    forall bytes | ConvertsTo(values, bytes)
      ensures Convertible(values)
    {
      ConvertsHasZeroPadding(values, bytes);
    }
    var accumulator: nat, bits: nat := 0, 0;
    var output: seq<nat> := [];
    assert Moved(0, 0, 0, []);
    for i := 0 to |values|
      invariant Below(32, values[..i]) && bits < 8
      invariant accumulator == NumberOf(32, values[..i])
      invariant Moved(i, accumulator, bits, output)
    {
      if values[i] > 31 {
        return None;
      }
      NumberAppend(32, values[..i], values[i]);
      assert values[..i] + [values[i]] == values[..i + 1];
      SymbolMoves(i, accumulator, bits, output, values[i]);
      accumulator := 32 * accumulator + values[i];
      bits := bits + 5;
      while bits >= 8
        invariant Moved(i + 1, accumulator, bits, output)
      {
        ByteMoves(i + 1, accumulator, bits - 8, output);
        bits := bits - 8;
        output := output + [(accumulator / Power(bits)) % 256];
      }
    }
    assert values[..|values|] == values;
    RestOfBits(values, accumulator, bits, output);
    if bits >= 5 {
      return None;
    }
    PaddingIsZero(accumulator, bits);
    if (accumulator * Power(8 - bits)) % 256 != 0 {
      return None;
    }
    MovedConverts(values, bits, output);
    return Some(output);
  }

  lemma {:induction false} NumberIsInjective(base: nat, a: seq<nat>, b: seq<nat>)
    requires base > 0 && Below(base, a) && Below(base, b) && |a| == |b|
    requires NumberOf(base, a) == NumberOf(base, b)
    ensures a == b
  {
    if a != [] {
      var n := |a| - 1;
      DivisionIsUnique(NumberOf(base, a), base, NumberOf(base, a[..n]), a[n]);
      DivisionIsUnique(NumberOf(base, b), base, NumberOf(base, b[..n]), b[n]);
      NumberIsInjective(base, a[..n], b[..n]);
      assert a == a[..n] + [a[n]] && b == b[..n] + [b[n]];
    }
  }

  /** Bytes come from one sequence of symbols only, and become one sequence of bytes only. */
  lemma ConversionIsOneToOne(a: seq<nat>, b: seq<nat>, bytes: seq<nat>, bytes': seq<nat>)
    requires ConvertsTo(a, bytes) && ConvertsTo(b, bytes')
    ensures a == b <==> bytes == bytes'
  {
    if bytes == bytes' {
      assert |a| == |b|;
      NumberIsInjective(32, a, b);
    }
    if a == b {
      Cancel(Power(5 * |a| % 8), NumberOf(256, bytes), NumberOf(256, bytes'));
      NumberIsInjective(256, bytes, bytes');
    }
  }

  lemma Cancel(m: nat, x: nat, y: nat)
    requires m > 0 && m * x == m * y
    ensures x == y
  {
    DivisionIsUnique(m * x, m, x, 0);
    DivisionIsUnique(m * y, m, y, 0);
  }

  /** Twenty bytes come from exactly 32 symbols. */
  lemma TwentyBytesAre32Symbols(values: seq<nat>)
    ensures forall bytes | ConvertsTo(values, bytes) :: |bytes| == 20 <==> |values| == 32
  {
  }

  /** Any 32 symbols are twenty bytes: nothing is left to pad. */
  lemma AnyThirtyTwoConvert(values: seq<nat>)
    requires |values| == 32 && Below(32, values)
    ensures Convertible(values)
  {
    assert Power(0) == 1;
  }

  // ---- the owner ----

  const ALPHABET := ("qpzry9x8" + "gf2tvdw0") + ("s3jn54kh" + "ce6mua7l")
  const HRP := "akash"

  function IndexIn(c: char, alphabet: string): (r: Option<nat>)
    ensures r.Some? ==> r.value < |alphabet| && alphabet[r.value] == c
    ensures r.None? ==> c !in alphabet
  {
    if alphabet == [] then None
    else if alphabet[0] == c then Some(0)
    else
      match IndexIn(c, alphabet[1..])
      case None => None
      case Some(i) => Some(i + 1)
  }

  function Symbol(c: char): (r: Option<nat>)
    ensures r.Some? ==> r.value < 32
  {
    IndexIn(c, ALPHABET)
  }

  predicate AllSymbols(text: string) {
    forall i | 0 <= i < |text| :: Symbol(text[i]).Some?
  }

  function Data(text: string): (d: seq<nat>)
    requires AllSymbols(text)
    ensures |d| == |text| && AreSymbols(d)
  {
    seq(|text|, i requires 0 <= i < |text| => Symbol(text[i]).value)
  }

  /** `_hrp_expand` of a printable prefix: the high bits, a zero, the low bits. */
  function ExpandHrp(hrp: string): (d: seq<nat>)
    requires forall c | c in hrp :: c < 128 as char
    ensures AreSymbols(d)
  {
    assert forall i | 0 <= i < |hrp| :: hrp[i] in hrp;
    var high := seq(|hrp|, i requires 0 <= i < |hrp| => hrp[i] as nat / 32);
    var low := seq(|hrp|, i requires 0 <= i < |hrp| => hrp[i] as nat % 32);
    assert AreSymbols(high) && AreSymbols(low);
    high + [0] + low
  }

  function Expanded(): (d: seq<nat>)
    ensures AreSymbols(d)
  {
    assert forall c | c in HRP :: c < 128 as char;
    ExpandHrp(HRP)
  }

  /** An accepted owner: 32 symbols of payload and six of checksum after the prefix. */
  predicate IsOwner(value: string) {
    && |value| == 44 && value[..5] == HRP && value[5] == '1'
    && AllSymbols(value[6..])
    && Run(1, Expanded() + Data(value[6..])) == 1
  }

  function LastIndex(text: string, c: char): (r: int)
    ensures -1 <= r < |text|
    ensures r >= 0 ==> text[r] == c
    ensures forall i | r < i < |text| :: text[i] != c
  {
    if text == [] then -1
    else if text[|text| - 1] == c then |text| - 1
    else LastIndex(text[..|text| - 1], c)
  }

  predicate HasUpper(text: string) {
    exists i | 0 <= i < |text| :: 'A' <= text[i] <= 'Z'
  }

  predicate Lower(text: string) {
    text == [] || (text[0] != '1' && !('A' <= text[0] <= 'Z') && Lower(text[1..]))
  }

  lemma {:induction false} LowerHasNoOther(text: string, c: char)
    requires Lower(text) && c in text
    ensures c != '1' && !('A' <= c <= 'Z')
  {
    if c != text[0] {
      LowerHasNoOther(text[1..], c);
    }
  }

  lemma {:induction false} LowerConcat(a: string, b: string)
    requires Lower(a) && Lower(b)
    ensures Lower(a + b)
  {
    if a == [] {
      assert a + b == b;
    } else {
      LowerConcat(a[1..], b);
      assert (a + b)[1..] == a[1..] + b;
    }
  }

  lemma FirstHalfIsLower()
    ensures Lower("qpzry9x8") && Lower("gf2tvdw0")
  {
  }

  lemma SecondHalfIsLower()
    ensures Lower("s3jn54kh") && Lower("ce6mua7l")
  {
  }

  lemma AlphabetIsLower()
    ensures Lower(ALPHABET)
  {
    hide Lower;
    FirstHalfIsLower();
    SecondHalfIsLower();
    LowerConcat("qpzry9x8", "gf2tvdw0");
    LowerConcat("s3jn54kh", "ce6mua7l");
    LowerConcat("qpzry9x8" + "gf2tvdw0", "s3jn54kh" + "ce6mua7l");
  }

  lemma PrefixIsLower()
    ensures Lower(HRP)
  {
  }

  lemma SymbolsAreLower(c: char)
    requires Symbol(c).Some?
    ensures c != '1' && !('A' <= c <= 'Z')
  {
    AlphabetIsLower();
    LowerHasNoOther(ALPHABET, c);
  }

  /** The guards before the checksum. */
  predicate Framed(value: string, separator: int) {
    && !HasUpper(value) && |value| <= 90
    && separator == LastIndex(value, '1') && 0 < separator && separator + 7 <= |value|
    && value[..separator] == HRP
    && AllSymbols(value[separator + 1..])
  }

  /** An accepted owner has lower case throughout and its only separator after the prefix. */
  lemma OwnerIsFramed(value: string)
    requires |value| == 44 && value[..5] == HRP && value[5] == '1' && AllSymbols(value[6..])
    ensures Framed(value, 5)
  {
    hide Symbol, Lower;
    forall i | 6 <= i < |value|
      ensures value[i] != '1' && !('A' <= value[i] <= 'Z')
    {
      assert value[6..][i - 6] == value[i];
      SymbolsAreLower(value[i]);
    }
    forall i | 0 <= i < 5
      ensures !('A' <= value[i] <= 'Z')
    {
      assert value[..5][i] == value[i] && value[i] in HRP;
      PrefixIsLower();
      LowerHasNoOther(HRP, value[i]);
    }
  }

  lemma PayloadLength(text: string)
    requires |text| >= 6 && AllSymbols(text)
    ensures AreSymbols(Data(text)[..|text| - 6]) && Below(32, Data(text)[..|text| - 6])
  {
    hide Symbol;
  }

  /** `is_canonical_akash_owner`, guard by guard. */
  method IsCanonicalOwner(value: string) returns (accepted: bool)
    ensures accepted == IsOwner(value)
  {
    hide Symbol, Run, ConvertsTo, Convertible, Below;
    if IsOwner(value) {
      OwnerIsFramed(value);
    }
    if HasUpper(value) || |value| > 90 {
      return false;
    }
    var separator := LastIndex(value, '1');
    if separator <= 0 || separator + 7 > |value| {
      return false;
    }
    if value[..separator] != HRP {
      return false;
    }
    assert separator == 5;
    var text := value[separator + 1..];
    if !AllSymbols(text) {
      return false;
    }
    var data := Data(text);
    var checksum := Polymod(Expanded() + data);
    if checksum != 1 {
      return false;
    }
    PayloadLength(text);
    var payload := ConvertFiveToEight(data[..|data| - 6]);
    TwentyBytesAre32Symbols(data[..|data| - 6]);
    if |data| == 38 {
      AnyThirtyTwoConvert(data[..32]);
    }
    return payload.Some? && |payload.value| == 20;
  }

  // ---- what the checksum guarantees ----

  lemma SymbolsDetermineText(a: string, b: string)
    requires AllSymbols(a) && AllSymbols(b) && Data(a) == Data(b)
    ensures a == b
  {
    forall i | 0 <= i < |a|
      ensures a[i] == b[i]
    {
      assert Data(a)[i] == Data(b)[i];
      assert ALPHABET[Symbol(a[i]).value] == a[i] && ALPHABET[Symbol(b[i]).value] == b[i];
    }
  }

  lemma SameChecksum(a: string, b: string)
    requires IsOwner(a) && IsOwner(b)
    ensures Run(Run(1, Expanded()), Data(a[6..])) == Run(Run(1, Expanded()), Data(b[6..]))
  {
    hide Run;
    RunConcat(1, Expanded(), Data(a[6..]));
    RunConcat(1, Expanded(), Data(b[6..]));
  }

  /**
   Two accepted owners that agree outside six neighbouring characters are the same: no
   substitution of one character, no swap of neighbours and no burst of six goes unnoticed.
   */
  lemma OwnersDifferWidely(a: string, b: string, k: nat)
    requires IsOwner(a) && IsOwner(b)
    requires forall i | 0 <= i < 44 && (i < k || k + 6 <= i) :: a[i] == b[i]
    ensures a == b
  {
    hide Run, Symbol;
    SameChecksum(a, b);
    var v, w := Data(a[6..]), Data(b[6..]);
    var from := if k <= 6 then 0 else k - 6;
    forall i | 0 <= i < 38 && (i < from || from + 6 <= i)
      ensures v[i] == w[i]
    {
      assert a[6..][i] == a[i + 6] && b[6..][i] == b[i + 6];
    }
    BurstChangesChecksum(Run(1, Expanded()), v, w, from);
    SymbolsDetermineText(a[6..], b[6..]);
    SameFrame(a, b);
  }

  // ---- distance ----

  function Differing(a: string, b: string): set<nat>
    requires |a| == |b|
  {
    set i: nat | i < |a| && a[i] != b[i]
  }

  /** At most three places, as three places in order. */
  lemma {:induction false} Cover(places: set<nat>, from: nat, to: nat) returns (i: nat, j: nat, k: nat)
    requires |places| <= 3 && from + 3 <= to && forall x | x in places :: from <= x < to
    ensures from <= i < j < k < to && places <= {i, j, k}
    decreases 3 - |places|
  {
    if |places| < 3 {
      var other := if from !in places then from else if from + 1 !in places then from + 1 else from + 2;
      NotAllThree(places, from);
      i, j, k := Cover(places + {other}, from, to);
    } else {
      var x :| x in places;
      assert |places - {x}| == 2;
      var y :| y in places - {x};
      assert places - {x, y} == (places - {x}) - {y} && |places - {x, y}| == 1;
      var z :| z in places - {x, y};
      Three(places, x, y, z);
      i := if x < y && x < z then x else if y < z then y else z;
      k := if x > y && x > z then x else if y > z then y else z;
      j := if i < x < k then x else if i < y < k then y else z;
    }
  }

  lemma NotAllThree(places: set<nat>, from: nat)
    requires |places| < 3
    ensures from !in places || from + 1 !in places || from + 2 !in places
  {
    var three := {from, from + 1, from + 2};
    if three <= places {
      assert |three| == 3;
      Larger(three, places);
    }
  }

  lemma Larger(a: set<nat>, b: set<nat>)
    requires a <= b
    ensures |a| <= |b|
  {
    assert b == a + (b - a);
  }

  lemma Three(places: set<nat>, x: nat, y: nat, z: nat)
    requires |places| == 3 && x in places && y in places - {x} && z in places - {x, y}
    ensures places == {x, y, z}
  {
    assert |places - {x, y, z}| == 0;
  }

  /** Two different accepted owners differ in at least four characters, wherever these are. */
  lemma OwnersDifferInFourPlaces(a: string, b: string)
    requires IsOwner(a) && IsOwner(b) && a != b
    ensures |Differing(a, b)| >= 4
  {
    hide Run, Symbol, IsOwner;
    OwnerShape(a, b);
    if |Differing(a, b)| <= 3 {
      var i, j, k := Cover(Differing(a, b), 6, 44);
      SameChecksum(a, b);
      var v, w := Data(a[6..]), Data(b[6..]);
      forall m | 0 <= m < 38 && m != i - 6 && m != j - 6 && m != k - 6
        ensures v[m] == w[m]
      {
        assert m + 6 !in Differing(a, b);
        assert a[6..][m] == a[m + 6] && b[6..][m] == b[m + 6];
      }
      Syndromes.ThreeSubstitutionsChangeChecksum(Run(1, Expanded()), v, w, i - 6, j - 6, k - 6);
      SymbolsDetermineText(a[6..], b[6..]);
      SameFrame(a, b);
    }
  }

  lemma OwnerShape(a: string, b: string)
    requires IsOwner(a) && IsOwner(b)
    ensures |a| == |b| == 44 && AllSymbols(a[6..]) && AllSymbols(b[6..])
    ensures forall i | i in Differing(a, b) :: 6 <= i < 44
  {
    hide Run, Symbol;
    forall i | 0 <= i < 5
      ensures a[i] == b[i]
    {
      assert a[..5][i] == b[..5][i];
    }
  }

  lemma SameFrame(a: string, b: string)
    requires IsOwner(a) && IsOwner(b) && a[6..] == b[6..]
    ensures a == b
  {
    assert a == a[..5] + [a[5]] + a[6..] && b == b[..5] + [b[5]] + b[6..];
  }

  /** The account bytes of an accepted owner. */
  predicate Carries(value: string, payload: seq<nat>)
    requires IsOwner(value)
  {
    ConvertsTo(Data(value[6..38]), payload)
  }

  /** Equal accounts, equal owners: the payload determines the checksum. */
  lemma PayloadDeterminesOwner(a: string, b: string, payload: seq<nat>)
    requires IsOwner(a) && IsOwner(b) && Carries(a, payload) && Carries(b, payload)
    ensures a == b
  {
    hide Run, Symbol, ConvertsTo;
    ConversionIsOneToOne(Data(a[6..38]), Data(b[6..38]), payload, payload);
    SymbolsDetermineText(a[6..38], b[6..38]);
    forall i | 0 <= i < 38
      ensures a[i] == b[i]
    {
      if i < 5 {
        assert a[..5][i] == b[..5][i];
      } else if i >= 6 {
        assert a[6..38][i - 6] == b[6..38][i - 6];
      }
    }
    OwnersDifferWidely(a, b, 38);
  }
}
