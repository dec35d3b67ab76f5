/**
 Canonical `idv1` group names: a printer, a parser that needs the ownership register
 to find where the name begins, and the renaming of the placements of a document.
 */
module WorkloadIdentity {
  import opened Wrappers
  import opened Tokens

  const SCHEMA_VERSION := 1
  const MAX_UTC_UNIX_SECONDS := 253402300799
  const MARK := "idv1" + "-" + "class" + "-"

  /** The four known classes; their names are a kind and a role around a hyphen. */
  datatype WorkloadClass = CiRunner | CiPayload | StagingPayload | ProdPayload {
    function Kind(): string {
      match this
      case CiRunner => "ci"
      case CiPayload => "ci"
      case StagingPayload => "staging"
      case ProdPayload => "prod"
    }

    function Role(): string {
      if CiRunner? then "runner" else "payload"
    }

    function Name(): string {
      Kind() + "-" + Role()
    }

    predicate IsCi() {
      CiRunner? || CiPayload?
    }
  }

  datatype Identity = Identity(
    prefix: string, owner: string, workloadClass: WorkloadClass, group: int,
    run: Option<int>, attempt: Option<int>, release: Option<string>, expires: Option<int>, version: int)
  {
    /** The fields every group of one deployment agrees on. */
    function Lifecycle(): Identity {
      this.(group := 0)
    }
  }

  // ---- the ownership register ----

  predicate IsLower(c: char) {
    'a' <= c <= 'z' || IsDigit(c)
  }

  predicate IsAlphanumeric(c: char) {
    IsLower(c) || 'A' <= c <= 'Z'
  }

  /** Lowercase runs joined by single dots or hyphens, one more of which may end the prefix. */
  predicate IsPrefix(s: string) {
    && s != [] && IsLower(s[0])
    && (forall i | 0 <= i < |s| :: IsLower(s[i]) || s[i] == '-' || s[i] == '.')
    && forall i | 0 < i < |s| :: IsLower(s[i]) || IsLower(s[i - 1])
  }

  predicate IsRepositoryOwner(s: string) {
    && 1 <= |s| <= 39 && IsAlphanumeric(s[0]) && IsAlphanumeric(s[|s| - 1])
    && forall i | 0 <= i < |s| :: IsAlphanumeric(s[i]) || s[i] == '-'
  }

  predicate IsRepositoryName(s: string) {
    && 1 <= |s| <= 100
    && (forall i | 0 <= i < |s| :: IsAlphanumeric(s[i]) || s[i] == '_' || s[i] == '.' || s[i] == '-')
    && exists i | 0 <= i < |s| :: IsAlphanumeric(s[i])
  }

  /** An owner and a name around the only slash. */
  predicate IsRepository(s: string) {
    exists k | 0 <= k < |s| :: s[k] == '/' && IsRepositoryOwner(s[..k]) && IsRepositoryName(s[k + 1..])
  }

  function Fold(s: string): string {
    seq(|s|, i requires 0 <= i < |s| => if 'A' <= s[i] <= 'Z' then s[i] - 'A' + 'a' else s[i])
  }

  predicate Delimited(prefix: string) {
    prefix != [] && (prefix[|prefix| - 1] == '-' || prefix[|prefix| - 1] == '.')
  }

  function Stem(prefix: string): string {
    if Delimited(prefix) then prefix else prefix + "-"
  }

  type Register = map<string, string>

  predicate IsRegister(register: Register) {
    && register != map[]
    && (forall p | p in register :: IsEntry(register, p))
    && forall p, q | p in register && q in register && p != q :: Apart(register, p, q)
  }

  /** Neither the same repository nor the same namespace delimiter. */
  predicate Apart(register: Register, p: string, q: string)
    requires p in register && q in register
  {
    Fold(register[p]) != Fold(register[q]) && Stem(p) != Stem(q)
  }

  // What the loop over the register has established for the prefixes it is done with.

  ghost predicate FoldsDone(register: Register, done: set<string>, repositories: set<string>)
    requires done <= register.Keys
  {
    && (forall p | p in done :: Fold(register[p]) in repositories)
    && (forall r | r in repositories :: exists p | p in done :: Fold(register[p]) == r)
    && forall p, q | p in done && q in done && p != q :: Fold(register[p]) != Fold(register[q])
  }

  ghost predicate StemsDone(done: set<string>, stems: map<string, string>) {
    && (forall p | p in done :: Stem(p) in stems && stems[Stem(p)] == p)
    && forall s | s in stems :: stems[s] in done && Stem(stems[s]) == s
  }

  lemma FoldsGrow(register: Register, done: set<string>, repositories: set<string>, prefix: string)
    requires done <= register.Keys && prefix in register && prefix !in done
    requires FoldsDone(register, done, repositories)
    requires Fold(register[prefix]) !in repositories
    ensures FoldsDone(register, done + {prefix}, repositories + {Fold(register[prefix])})
  {
    forall r | r in repositories + {Fold(register[prefix])}
      ensures exists p | p in done + {prefix} :: Fold(register[p]) == r
    {
      if r in repositories {
        var p :| p in done && Fold(register[p]) == r;
        assert p in done + {prefix};
      } else {
        assert prefix in done + {prefix};
      }
    }
  }

  lemma StemsGrow(done: set<string>, stems: map<string, string>, prefix: string)
    requires StemsDone(done, stems) && Stem(prefix) !in stems
    ensures StemsDone(done + {prefix}, stems[Stem(prefix) := prefix])
  {
  }

  lemma RefusedEntry(
    register: Register, done: set<string>, repositories: set<string>, stems: map<string, string>, prefix: string)
    requires done <= register.Keys && prefix in register && prefix !in done
    requires FoldsDone(register, done, repositories) && StemsDone(done, stems)
    requires Fold(register[prefix]) in repositories || Stem(prefix) in stems
    ensures !IsRegister(register)
  {
    if Stem(prefix) in stems {
      assert !Apart(register, prefix, stems[Stem(prefix)]);
    } else {
      var p :| p in done && Fold(register[p]) == Fold(register[prefix]);
      assert !Apart(register, prefix, p);
    }
  }

  predicate IsEntry(register: Register, prefix: string)
    requires prefix in register
  {
    IsPrefix(prefix) && IsRepository(register[prefix])
  }

  lemma DoneIsRegister(register: Register, repositories: set<string>, stems: map<string, string>)
    requires register != map[] && forall p | p in register :: IsEntry(register, p)
    requires FoldsDone(register, register.Keys, repositories) && StemsDone(register.Keys, stems)
    ensures IsRegister(register)
  {
  }

  /** `_register`: fills the stems and the set of repositories entry by entry. */
  method CheckRegister(register: Register) returns (stems: Option<map<string, string>>)
    ensures stems.Some? <==> IsRegister(register)
    ensures stems.Some? ==> StemsDone(register.Keys, stems.value)
  {
    if register == map[] {
      return None;
    }
    var filled: map<string, string> := map[];
    var repositories: set<string> := {};
    var pending := register.Keys;
    ghost var done: set<string> := {};
    while pending != {}
      invariant pending + done == register.Keys && pending !! done
      invariant forall p | p in done :: IsEntry(register, p)
      invariant FoldsDone(register, done, repositories) && StemsDone(done, filled)
      decreases pending
    {
      var prefix :| prefix in pending;
      if !IsEntry(register, prefix) {
        return None;
      }
      if Fold(register[prefix]) in repositories || Stem(prefix) in filled {
        RefusedEntry(register, done, repositories, filled, prefix);
        return None;
      }
      FoldsGrow(register, done, repositories, prefix);
      StemsGrow(done, filled, prefix);
      repositories := repositories + {Fold(register[prefix])};
      filled := filled[Stem(prefix) := prefix];
      pending := pending - {prefix};
      done := done + {prefix};
    }
    assert done == register.Keys;
    DoneIsRegister(register, repositories, filled);
    return Some(filled);
  }

  // ---- printing ----

  predicate IsRelease(s: string) {
    1 <= |s| <= 64 && IsLower(s[0]) && forall i | 0 <= i < |s| :: IsLower(s[i]) || s[i] == '.' || s[i] == '_'
  }

  predicate IsExpiry(n: int) {
    Canonical(n) && n <= MAX_UTC_UNIX_SECONDS
  }

  /** One labelled field of a name. */
  function Field(key: string, value: string): string {
    "-" + key + "-" + value
  }

  /** The part of the name after the stem and the mark. */
  function FormatTail(id: Identity): Option<string> {
    if !Canonical(id.group) then None
    else
      var name := id.workloadClass.Name() + "-" + ("g" + Digits(id.group));
      if id.workloadClass.IsCi() then
        if id.release.Some? || id.expires.Some? then None
        else if id.attempt.None? || id.run.None? || !Canonical(id.attempt.value) || !Canonical(id.run.value) then None
        else
          Some(name + Field("attempt", Digits(id.attempt.value)) + Field("run", Digits(id.run.value)) + "-" + "end")
      else if id.run.Some? || id.attempt.Some? then None
      else if id.release.None? || !IsRelease(id.release.value) then None
      else
        var released := name + Field("release", id.release.value);
        if id.expires.None? then Some(released)
        else if !id.workloadClass.StagingPayload? || !IsExpiry(id.expires.value) then None
        else Some(released + Field("expires", Digits(id.expires.value)))
  }

  /** `format_identity`; None where it raises. */
  function Format(id: Identity, register: Register): Option<string> {
    if !IsRegister(register) || id.version != SCHEMA_VERSION then None
    else if id.prefix !in register || register[id.prefix] != id.owner then None
    else
      match FormatTail(id)
      case None => None
      case Some(tail) => Some(Stem(id.prefix) + MARK + tail)
  }

  // ---- parsing ----

  datatype Fields = Fields(
    workloadClass: WorkloadClass, group: int, run: Option<int>, attempt: Option<int>, release: Option<string>,
    expires: Option<int>)

  predicate IsGroup(s: string) {
    s != [] && s[0] == 'g' && IsNumber(s[1..])
  }

  predicate IsCiTail(t: seq<string>) {
    && |t| == 8 && t[0] == "ci" && (t[1] == "runner" || t[1] == "payload") && IsGroup(t[2])
    && t[3] == "attempt" && IsNumber(t[4]) && t[5] == "run" && IsNumber(t[6]) && t[7] == "end"
  }

  predicate IsPayloadTail(t: seq<string>) {
    && (|t| == 5 || |t| == 7) && (t[0] == "staging" || t[0] == "prod") && t[1] == "payload" && IsGroup(t[2])
    && t[3] == "release" && IsRelease(t[4])
    && (|t| == 7 ==> t[5] == "expires" && IsNumber(t[6]))
  }

  /** The regular expression of a tail: no field holds a hyphen, so it is read token by token. */
  function ParseTail(tail: string): Option<Fields> {
    var t := Split(tail);
    if IsCiTail(t) then
      Some(Fields(if t[1] == "runner" then CiRunner else CiPayload, Value(t[2][1..]),
                  Some(Value(t[6])), Some(Value(t[4])), None, None))
    else if IsPayloadTail(t) then
      Some(Fields(if t[0] == "staging" then StagingPayload else ProdPayload, Value(t[2][1..]),
                  None, None, Some(t[4]), if |t| == 7 then Some(Value(t[6])) else None))
    else None
  }

  datatype Parsed = BadRegister | Unknown | Known(identity: Identity)

  predicate Starts(prefix: string, name: string) {
    Stem(prefix) + MARK <= name
  }

  function Matches(name: string, register: Register): set<string> {
    set p | p in register && Starts(p, name)
  }

  lemma SingletonIsUnique(s: set<string>, a: string, b: string)
    requires |s| == 1 && a in s && b in s
    ensures a == b
  {
    assert |s - {a}| == 0;
    assert b !in s - {a};
  }

  function TheOne(s: set<string>): (x: string)
    requires |s| == 1
    ensures x in s
  {
    assert forall a, b | a in s && b in s :: a == b by {
      forall a, b | a in s && b in s
        ensures a == b
      {
        SingletonIsUnique(s, a, b);
      }
    }
    assert s != {};
    var x :| x in s;
    x
  }

  /** `parse_identity`: exactly one registered namespace, a tail of the right shape, and the same name printed back. */
  function Parse(name: string, register: Register): Parsed {
    if !IsRegister(register) then BadRegister
    else if |Matches(name, register)| != 1 then Unknown
    else
      var prefix := TheOne(Matches(name, register));
      match ParseTail(name[|Stem(prefix) + MARK|..])
      case None => Unknown
      case Some(f) =>
        var id := Identity(prefix, register[prefix], f.workloadClass, f.group, f.run, f.attempt, f.release,
                           f.expires, SCHEMA_VERSION);
        if Format(id, register) == Some(name) then Known(id) else Unknown
  }
}
