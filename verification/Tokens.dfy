/** Hyphen-separated tokens and canonical decimal numbers. */
module Tokens {

  // ---- tokens ----

  predicate Plain(s: string) {
    '-' !in s
  }

  function Split(s: string): (t: seq<string>)
    ensures t != []
  {
    if s == [] then [""]
    else
      var rest := Split(s[1..]);
      if s[0] == '-' then [""] + rest else [[s[0]] + rest[0]] + rest[1..]
  }

  function Join(tokens: seq<string>): string {
    if tokens == [] then "" else if |tokens| == 1 then tokens[0] else tokens[0] + "-" + Join(tokens[1..])
  }

  lemma {:induction false} SplitPlain(s: string)
    requires Plain(s)
    ensures Split(s) == [s]
  {
    if s != [] {
      SplitPlain(s[1..]);
      assert s == [s[0]] + s[1..];
    }
  }

  lemma {:induction false} SplitConcat(a: string, b: string)
    ensures Split(a + "-" + b) == Split(a) + Split(b)
  {
    var whole := a + "-" + b;
    if a == [] {
      assert whole[1..] == b && whole[0] == '-';
    } else {
      assert whole[1..] == a[1..] + "-" + b && whole[0] == a[0];
      SplitConcat(a[1..], b);
    }
  }

  /** A hyphen-free text goes into the last token. */
  function Extend(tokens: seq<string>, w: string): seq<string>
    requires tokens != []
  {
    tokens[..|tokens| - 1] + [tokens[|tokens| - 1] + w]
  }

  lemma {:induction false} SplitExtend(a: string, w: string)
    requires Plain(w)
    ensures Split(a + w) == Extend(Split(a), w)
  {
    if a == [] {
      SplitPlain(w);
      assert a + w == w;
    } else {
      assert (a + w)[1..] == a[1..] + w && (a + w)[0] == a[0];
      SplitExtend(a[1..], w);
      ExtendCons(a[0], Split(a[1..]), w);
    }
  }

  lemma ExtendCons(c: char, rest: seq<string>, w: string)
    requires rest != []
    ensures [""] + Extend(rest, w) == Extend([""] + rest, w)
    ensures [[c] + Extend(rest, w)[0]] + Extend(rest, w)[1..] == Extend([[c] + rest[0]] + rest[1..], w)
  {
    if |rest| == 1 {
      assert [c] + (rest[0] + w) == ([c] + rest[0]) + w;
    }
  }

  lemma {:induction false} JoinSplit(s: string)
    ensures Join(Split(s)) == s
  {
    if s != [] {
      JoinSplit(s[1..]);
      var rest := Split(s[1..]);
      assert Split(s)[1..] == if s[0] == '-' then rest else rest[1..];
    }
  }

  // ---- numbers ----

  predicate IsDigit(c: char) {
    '0' <= c <= '9'
  }

  function Digit(d: nat): char
    requires d < 10
  {
    '0' + (d as char)
  }

  function Digits(n: nat): string {
    if n < 10 then [Digit(n)] else Digits(n / 10) + [Digit(n % 10)]
  }

  /** A positive number without leading zeros, of at most 32 digits. */
  predicate IsNumber(s: string) {
    1 <= |s| <= 32 && s[0] != '0' && forall i | 0 <= i < |s| :: IsDigit(s[i])
  }

  function Value(s: string): nat {
    if s == [] then 0
    else
      var c := s[|s| - 1];
      10 * Value(s[..|s| - 1]) + (if IsDigit(c) then (c - '0') as nat else 0)
  }

  predicate Canonical(n: int) {
    n >= 0 && IsNumber(Digits(n))
  }

  lemma {:induction false} DigitsValue(n: nat)
    ensures Value(Digits(n)) == n
    ensures forall i | 0 <= i < |Digits(n)| :: IsDigit(Digits(n)[i])
  {
    if n < 10 {
      assert Digits(n)[..0] == [];
    } else {
      DigitsValue(n / 10);
      assert Digits(n)[..|Digits(n)| - 1] == Digits(n / 10);
    }
  }

  lemma DigitsPlain(n: nat)
    ensures Plain(Digits(n))
  {
    DigitsValue(n);
  }
}
