/** Printing is injective; parsing undoes it unless another registered namespace shadows the name. */
module IdentityNames {
  import opened Wrappers
  import opened Tokens
  import opened WorkloadIdentity

  // ---- the tokens of a printed tail ----

  function HeadTokens(id: Identity): seq<string>
    requires id.group >= 0
  {
    [id.workloadClass.Kind(), id.workloadClass.Role(), "g" + Digits(id.group)]
  }

  function TailTokens(id: Identity): seq<string>
    requires FormatTail(id).Some?
  {
    if id.workloadClass.IsCi() then
      HeadTokens(id) + ["attempt", Digits(id.attempt.value)] + ["run", Digits(id.run.value)] + ["end"]
    else if id.expires.None? then HeadTokens(id) + ["release", id.release.value]
    else HeadTokens(id) + ["release", id.release.value] + ["expires", Digits(id.expires.value)]
  }

  lemma SplitLast(a: string, w: string)
    requires Plain(w)
    ensures Split(a + "-" + w) == Split(a) + [w]
  {
    SplitConcat(a, w);
    SplitPlain(w);
  }

  lemma SplitHead(c: WorkloadClass, group: string)
    requires Plain(group)
    ensures Split(c.Name() + "-" + group) == [c.Kind(), c.Role(), group]
  {
    SplitPlain(c.Kind());
    SplitLast(c.Kind(), c.Role());
    SplitLast(c.Name(), group);
  }

  /** One labelled field after what is printed so far. */
  lemma SplitField(a: string, key: string, value: string)
    requires Plain(key) && Plain(value)
    ensures Split(a + Field(key, value)) == Split(a) + [key, value]
  {
    assert a + Field(key, value) == (a + "-" + key) + "-" + value;
    SplitLast(a, key);
    SplitLast(a + "-" + key, value);
  }

  lemma TailSplits(id: Identity)
    requires FormatTail(id).Some?
    ensures Split(FormatTail(id).value) == TailTokens(id)
  {
    DigitsPlain(id.group);
    var name := id.workloadClass.Name() + "-" + ("g" + Digits(id.group));
    SplitHead(id.workloadClass, "g" + Digits(id.group));
    if id.workloadClass.IsCi() {
      var attempted := name + Field("attempt", Digits(id.attempt.value));
      DigitsPlain(id.attempt.value);
      DigitsPlain(id.run.value);
      SplitField(name, "attempt", Digits(id.attempt.value));
      SplitField(attempted, "run", Digits(id.run.value));
      SplitLast(attempted + Field("run", Digits(id.run.value)), "end");
    } else {
      assert Plain(id.release.value);
      SplitField(name, "release", id.release.value);
      if id.expires.Some? {
        DigitsPlain(id.expires.value);
        SplitField(name + Field("release", id.release.value), "expires", Digits(id.expires.value));
      }
    }
  }

  function FieldsOf(id: Identity): Fields {
    Fields(id.workloadClass, if id.group >= 0 then id.group else 0, id.run, id.attempt, id.release, id.expires)
  }

  lemma GroupParses(n: int)
    requires Canonical(n)
    ensures IsGroup("g" + Digits(n)) && Value(("g" + Digits(n))[1..]) == n
  {
    assert ("g" + Digits(n))[1..] == Digits(n);
    DigitsValue(n);
  }

  /** The regular expression reads back every field of a printed tail. */
  lemma TailParses(id: Identity)
    requires FormatTail(id).Some?
    ensures ParseTail(FormatTail(id).value) == Some(FieldsOf(id))
  {
    TailSplits(id);
    GroupParses(id.group);
    if id.workloadClass.IsCi() {
      DigitsValue(id.attempt.value);
      DigitsValue(id.run.value);
      assert IsCiTail(TailTokens(id));
    } else {
      if id.expires.Some? {
        DigitsValue(id.expires.value);
      }
      assert IsPayloadTail(TailTokens(id));
    }
  }

  /** Printing a tail is injective: its fields are read back, so equal tails have equal fields. */
  lemma TailsDiffer(a: Identity, b: Identity)
    requires FormatTail(a).Some? && FormatTail(a) == FormatTail(b)
    ensures FieldsOf(a) == FieldsOf(b) && a.group == b.group
  {
    TailParses(a);
    TailParses(b);
  }

  // ---- where the mark can stand ----

  /** Digits are never a word. */
  lemma DigitsAreNoWord(n: nat, word: string)
    requires word != [] && !IsDigit(word[0])
    ensures Digits(n) != word
  {
    DigitsValue(n);
    assert |Digits(n)| > 0 && IsDigit(Digits(n)[0]);
  }

  /** Only a release token can be "class", and what stands before it is "release". */
  lemma ClassToken(id: Identity, j: nat)
    requires FormatTail(id).Some? && j < |TailTokens(id)| && TailTokens(id)[j] == "class"
    ensures j == 4 && TailTokens(id)[3] == "release"
  {
    assert TailTokens(id)[2][0] == 'g' && "class"[0] == 'c';
    if id.workloadClass.IsCi() {
      DigitsAreNoWord(id.attempt.value, "class");
      DigitsAreNoWord(id.run.value, "class");
    } else if id.expires.Some? {
      DigitsAreNoWord(id.expires.value, "class");
    }
  }

  lemma SplitMark(x: string, m: string, c: string, y: string)
    requires Plain(m) && Plain(c)
    ensures Split(x + (m + "-" + c + "-") + y) == Extend(Split(x), m) + ([c] + Split(y))
  {
    SplitExtend(x, m);
    SplitPlain(c);
    SplitConcat(c, y);
    SplitConcat(x + m, c + "-" + y);
    MarkAssociates(x, m, c, y);
  }

  lemma MarkAssociates(x: string, m: string, c: string, y: string)
    ensures x + (m + "-" + c + "-") + y == (x + m) + "-" + (c + "-" + y)
  {
  }

  /** The mark occurs only at the start of what follows a stem, whatever the release token is. */
  lemma MarkStandsFirst(x: string, y: string, id: Identity)
    requires FormatTail(id).Some? && x + MARK + y == MARK + FormatTail(id).value
    ensures x == ""
  {
    var tail := FormatTail(id).value;
    TailSplits(id);
    SplitMark(x, "idv1", "class", y);
    SplitMark("", "idv1", "class", tail);
    assert "" + MARK + tail == MARK + tail;
    JoinSplit(x);
    MarkToken(Split(x), Split(y), id);
  }

  lemma MarkToken(before: seq<string>, after: seq<string>, id: Identity)
    requires FormatTail(id).Some? && before != []
    requires Extend(before, "idv1") + (["class"] + after) == Extend([""], "idv1") + (["class"] + TailTokens(id))
    ensures before == [""]
  {
    var k := |before|;
    var t := ["idv1", "class"] + TailTokens(id);
    assert "" + "idv1" == "idv1";
    assert Extend([""], "idv1") + (["class"] + TailTokens(id)) == t;
    assert t[k] == "class" && t[k - 1] == before[k - 1] + "idv1";
    NoSecondMark(id, k, before[k - 1]);
  }

  lemma NoSecondMark(id: Identity, k: nat, before: string)
    requires FormatTail(id).Some?
    requires var t := ["idv1", "class"] + TailTokens(id);
             0 < k < |t| && t[k] == "class" && t[k - 1] == before + "idv1"
    ensures k == 1 && before == ""
  {
    var t := ["idv1", "class"] + TailTokens(id);
    assert t[k - 1][|t[k - 1]| - 1] == '1';
    if k >= 2 {
      ClassToken(id, k - 2);
    }
  }

  // ---- names ----

  lemma Overhang(s: string, own: string, mark: string, tail: string) returns (x: string, y: string)
    requires s + mark <= own + mark + tail && |s| > |own|
    ensures x != "" && x + mark + y == mark + tail
  {
    var name := own + mark + tail;
    x, y := s[|own|..], name[|s + mark|..];
    assert name == s + mark + y;
    assert name[|own|..] == mark + tail;
    assert (s + mark + y)[|own|..] == x + mark + y;
  }

  lemma Within(s: string, own: string, mark: string, tail: string)
    requires s + mark <= own + mark + tail && |s| <= |own|
    ensures s + mark <= own + mark
  {
    assert (own + mark + tail)[..|own + mark|] == own + mark;
  }

  lemma Rest(stem: string, mark: string, tail: string)
    ensures (stem + mark + tail)[|stem + mark|..] == tail
  {
  }

  /** A namespace that starts a printed name already starts its stem and mark. */
  lemma NamespaceStartsStem(p: string, id: Identity)
    requires FormatTail(id).Some? && Starts(p, Stem(id.prefix) + MARK + FormatTail(id).value)
    ensures Stem(p) + MARK <= Stem(id.prefix) + MARK
  {
    if |Stem(p)| > |Stem(id.prefix)| {
      var x, y := Overhang(Stem(p), Stem(id.prefix), MARK, FormatTail(id).value);
      MarkStandsFirst(x, y, id);
    } else {
      Within(Stem(p), Stem(id.prefix), MARK, FormatTail(id).value);
    }
  }

  lemma SameStem(s: string, t: string, mark: string)
    requires s + mark <= t + mark && t + mark <= s + mark
    ensures s == t
  {
    assert s == (s + mark)[..|s|] && t == (t + mark)[..|t|];
  }

  lemma StemsApart(register: Register, p: string, q: string)
    requires IsRegister(register) && p in register && q in register && Stem(p) == Stem(q)
    ensures p == q
  {
    assert p != q ==> Apart(register, p, q);
  }

  /** Printing is injective over all identities of a register. */
  lemma FormatInjective(a: Identity, b: Identity, register: Register)
    requires Format(a, register).Some? && Format(a, register) == Format(b, register)
    ensures a == b
  {
    assert Starts(a.prefix, Format(a, register).value) && Starts(b.prefix, Format(b, register).value);
    NamespaceStartsStem(a.prefix, b);
    NamespaceStartsStem(b.prefix, a);
    SameStem(Stem(a.prefix), Stem(b.prefix), MARK);
    StemsApart(register, a.prefix, b.prefix);
    Rest(Stem(a.prefix), MARK, FormatTail(a).value);
    Rest(Stem(b.prefix), MARK, FormatTail(b).value);
    TailsDiffer(a, b);
  }

  /** Another registered namespace begins the same way. */
  ghost predicate Shadowed(prefix: string, register: Register) {
    exists p | p in register :: p != prefix && Stem(p) + MARK <= Stem(prefix) + MARK
  }

  lemma MatchesOfName(id: Identity, register: Register)
    requires Format(id, register).Some?
    ensures var matches := Matches(Format(id, register).value, register);
            && id.prefix in matches
            && (|matches| == 1 <==> !Shadowed(id.prefix, register))
  {
    var name := Format(id, register).value;
    var matches := Matches(name, register);
    assert Starts(id.prefix, name);
    if Shadowed(id.prefix, register) {
      var p :| p in register && p != id.prefix && Stem(p) + MARK <= Stem(id.prefix) + MARK;
      assert Starts(p, name);
      if |matches| == 1 {
        SingletonIsUnique(matches, p, id.prefix);
      }
    } else {
      forall p | p in matches
        ensures p == id.prefix
      {
        NamespaceStartsStem(p, id);
      }
      assert matches == {id.prefix};
    }
  }

  /** Parsing undoes printing exactly when no other registered namespace shadows the name. */
  lemma ParseUndoesFormat(id: Identity, register: Register)
    requires Format(id, register).Some?
    ensures Parse(Format(id, register).value, register)
         == if Shadowed(id.prefix, register) then Unknown else Known(id)
  {
    var name := Format(id, register).value;
    MatchesOfName(id, register);
    if !Shadowed(id.prefix, register) {
      var prefix := TheOne(Matches(name, register));
      SingletonIsUnique(Matches(name, register), prefix, id.prefix);
      Rest(Stem(prefix), MARK, FormatTail(id).value);
      TailParses(id);
    }
  }

  /** What is parsed prints as exactly the name that was read. */
  lemma ParseIsSound(name: string, register: Register)
    requires Parse(name, register).Known?
    ensures Format(Parse(name, register).identity, register) == Some(name)
    ensures !Shadowed(Parse(name, register).identity.prefix, register)
  {
    MatchesOfName(Parse(name, register).identity, register);
  }

  // ---- a shadowed name ----

  /** The shortest names that nest: the second prefix goes on with the mark of the first. */
  const OUTER := "a"
  const INNER := "a-" + MARK + "b"

  lemma BothArePrefixes()
    ensures IsPrefix(OUTER) && IsPrefix(INNER)
  {
  }

  lemma NestedPrefixes()
    ensures IsPrefix(OUTER) && IsPrefix(INNER) && Stem(OUTER) + MARK <= Stem(INNER) + MARK
    ensures Stem(OUTER) != Stem(INNER)
  {
    BothArePrefixes();
    hide IsPrefix;
    assert Stem(INNER) + MARK == Stem(OUTER) + MARK + "b-" + MARK;
  }

  lemma RepositoriesOf(name: string)
    requires name == "a" || name == "b"
    ensures IsRepository("o/" + name)
  {
    var s := "o/" + name;
    assert s[1] == '/' && s[..1] == "o" && s[2..] == name;
    assert IsAlphanumeric(name[0]);
    assert IsRepositoryOwner(s[..1]) && IsRepositoryName(s[2..]);
  }

  lemma NestedRegister(register: Register)
    requires register == map[OUTER := "o/a", INNER := "o/b"]
    ensures IsRegister(register) && Shadowed(INNER, register)
  {
    hide IsPrefix, IsRepository, Stem;
    NestedPrefixes();
    RepositoriesOf("a");
    RepositoriesOf("b");
    assert "o/a" == "o/" + "a" && "o/b" == "o/" + "b";
    assert Fold("o/a")[2] != Fold("o/b")[2];
    assert OUTER in register;
  }

  /** A register and an identity whose printed name is not read back. */
  lemma ShadowedNameIsLost() returns (id: Identity, register: Register)
    ensures Format(id, register).Some? && Parse(Format(id, register).value, register) == Unknown
  {
    hide IsRegister, Stem, Shadowed;
    register := map[OUTER := "o/a", INNER := "o/b"];
    NestedRegister(register);
    id := Identity(INNER, "o/b", ProdPayload, 1, None, None, Some("r"), None, SCHEMA_VERSION);
    assert register[INNER] == "o/b";
    assert Digits(1) == "1" && Canonical(1) && IsRelease("r");
    assert FormatTail(id).Some?;
    ParseUndoesFormat(id, register);
  }
}
