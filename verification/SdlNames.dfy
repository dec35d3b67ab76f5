/** Classifying a group population, and renaming the placements of a document one-to-one. */
module SdlNames {
  import opened Wrappers
  import opened Tokens
  import opened WorkloadIdentity
  import opened IdentityNames

  // ---- classifying a population ----

  /** A value that is no integer, or a name that is no string, is None. */
  datatype Observation = Observation(group: Option<int>, name: Option<string>)

  datatype Population = Population(identities: seq<Identity>, held: bool)

  function ParsedNames(groups: seq<Observation>, register: Register): seq<Parsed> {
    seq(|groups|, i requires 0 <= i < |groups| =>
      if groups[i].name.None? then Unknown else Parse(groups[i].name.value, register))
  }

  predicate AllKnown(parsed: seq<Parsed>) {
    forall i | 0 <= i < |parsed| :: parsed[i].Known?
  }

  function Identities(parsed: seq<Parsed>): seq<Identity> {
    if parsed == [] then []
    else
      var n := |parsed| - 1;
      Identities(parsed[..n]) + (if parsed[n].Known? then [parsed[n].identity] else [])
  }

  lemma {:induction false} IdentitiesOfKnown(parsed: seq<Parsed>)
    requires AllKnown(parsed)
    ensures |Identities(parsed)| == |parsed|
    ensures forall i | 0 <= i < |parsed| :: Identities(parsed)[i] == parsed[i].identity
  {
    if parsed != [] {
      IdentitiesOfKnown(parsed[..|parsed| - 1]);
    }
  }

  function Range(n: nat): set<int> {
    if n == 0 then {} else Range(n - 1) + {n}
  }

  function Members(ids: seq<int>): set<int> {
    set i | 0 <= i < |ids| :: ids[i]
  }

  predicate Distinct(ids: seq<int>) {
    forall i, j | 0 <= i < j < |ids| :: ids[i] != ids[j]
  }

  predicate IsObservedGroup(group: Option<int>) {
    group.Some? && Canonical(group.value)
  }

  predicate AllObserved(groups: seq<Observation>) {
    forall i | 0 <= i < |groups| :: IsObservedGroup(groups[i].group)
  }

  function Groups(identities: seq<Identity>): seq<int> {
    seq(|identities|, i requires 0 <= i < |identities| => identities[i].group)
  }

  predicate OneLifecycle(identities: seq<Identity>) {
    forall i | 0 <= i < |identities| :: identities[i].Lifecycle() == identities[0].Lifecycle()
  }

  /** Every name parses, encodes the group it was observed under, and shares one lifecycle; the groups are 1 to N. */
  predicate Classified(groups: seq<Observation>, register: Register) {
    var parsed := ParsedNames(groups, register);
    && groups != [] && AllKnown(parsed) && AllObserved(groups)
    && (forall i | 0 <= i < |groups| :: groups[i].group == Some(parsed[i].identity.group))
    && Distinct(Groups(Identities(parsed))) && Members(Groups(Identities(parsed))) == Range(|groups|)
    && OneLifecycle(Identities(parsed))
  }

  /** The observed ids, unless one of them is no positive canonical integer. */
  method ObservedIds(groups: seq<Observation>) returns (ids: Option<seq<int>>)
    ensures ids.Some? <==> AllObserved(groups)
    ensures ids.Some? ==> |ids.value| == |groups|
                          && forall i | 0 <= i < |groups| :: groups[i].group == Some(ids.value[i])
  {
    var observed: seq<int> := [];
    for i := 0 to |groups|
      invariant |observed| == i
      invariant forall k | 0 <= k < i :: IsObservedGroup(groups[k].group) && groups[k].group == Some(observed[k])
    {
      if !IsObservedGroup(groups[i].group) {
        return None;
      }
      observed := observed + [groups[i].group.value];
    }
    return Some(observed);
  }

  lemma EncodedAgree(groups: seq<Observation>, parsed: seq<Parsed>, ids: seq<int>)
    requires AllKnown(parsed) && |ids| == |groups| == |parsed|
    requires forall i | 0 <= i < |groups| :: groups[i].group == Some(ids[i])
    ensures Groups(Identities(parsed)) == ids
       <==> forall i | 0 <= i < |groups| :: groups[i].group == Some(parsed[i].identity.group)
  {
    IdentitiesOfKnown(parsed);
    var encoded := Groups(Identities(parsed));
    assert forall i | 0 <= i < |groups| :: encoded[i] == parsed[i].identity.group;
  }

  /** `classify_groups`: None where it raises; each guard in the source's order. */
  method ClassifyGroups(groups: seq<Observation>, register: Register, complete: bool)
    returns (population: Option<Population>)
    ensures population.Some? <==> IsRegister(register)
    ensures population.Some? ==>
              && population.value.identities == Identities(ParsedNames(groups, register))
              && (!population.value.held <==> complete && Classified(groups, register))
  {
    if !IsRegister(register) {
      return None;
    }
    var parsed := ParsedNames(groups, register);
    var identities := Identities(parsed);
    var held := Some(Population(identities, true));
    if groups == [] || !complete || !AllKnown(parsed) {
      return held;
    }
    IdentitiesOfKnown(parsed);
    var ids := ObservedIds(groups);
    if ids.None? {
      return held;
    }
    var encoded := Groups(identities);
    EncodedAgree(groups, parsed, ids.value);
    if !Distinct(ids.value) || Members(ids.value) != Range(|groups|) {
      return held;
    }
    if !Distinct(encoded) || encoded != ids.value {
      return held;
    }
    if !OneLifecycle(identities) {
      return held;
    }
    return Some(Population(identities, false));
  }

  // ---- renaming a document ----

  /** The placements in their order, and for every service its reference to each placement it uses. */
  datatype Document<P, S> = Document(
    order: seq<string>, placements: map<string, P>, services: map<string, map<string, S>>)
  {
    ghost predicate Valid() {
      && (forall i, j | 0 <= i < j < |order| :: order[i] != order[j])
      && forall k :: k in order <==> k in placements
    }
  }

  ghost predicate OneToOne(names: map<string, string>) {
    forall k, l | k in names && l in names && k != l :: names[k] != names[l]
  }

  /** The same values under new keys, and nothing else. */
  ghost predicate RenamedKeys<V>(m: map<string, V>, names: map<string, string>, r: map<string, V>)
    requires m.Keys <= names.Keys
  {
    && (forall k | k in m :: names[k] in r && r[names[k]] == m[k])
    && forall n | n in r :: exists k | k in m :: names[k] == n
  }

  /** The dictionary comprehension that renames keys: a later entry would overwrite an earlier one. */
  method RenameKeys<V>(m: map<string, V>, names: map<string, string>) returns (r: map<string, V>)
    requires m.Keys <= names.Keys && OneToOne(names)
    ensures RenamedKeys(m, names, r)
  {
    r := map[];
    var pending := m.Keys;
    while pending != {}
      invariant pending <= m.Keys
      invariant forall k | k in m && k !in pending :: names[k] in r && r[names[k]] == m[k]
      invariant forall n | n in r :: exists k | k in m && k !in pending :: names[k] == n
      decreases pending
    {
      var key :| key in pending;
      ghost var before := r;
      r := r[names[key] := m[key]];
      pending := pending - {key};
      forall n | n in r
        ensures exists k | k in m && k !in pending :: names[k] == n
      {
        if n in before {
          var k :| k in m && k !in pending + {key} && names[k] == n;
          assert k !in pending;
        } else {
          assert key !in pending && names[key] == n;
        }
      }
    }
  }

  ghost predicate AllFormat(identities: map<string, Identity>, register: Register) {
    forall k | k in identities :: Format(identities[k], register).Some?
  }

  function NamesOf(identities: map<string, Identity>, register: Register): map<string, string>
    requires AllFormat(identities, register)
  {
    map k | k in identities :: Format(identities[k], register).value
  }

  /** The group of every placement is its position in the document. */
  predicate InOrder(order: seq<string>, identities: map<string, Identity>)
    requires forall k | k in order :: k in identities
  {
    forall i | 0 <= i < |order| :: identities[order[i]].group == i + 1
  }

  /** Every service uses known placements, at least one, and no placement is unused. */
  ghost predicate AllReferenced<P(!new), S(!new)>(d: Document<P, S>) {
    && d.services.Keys != {}
    && (forall s | s in d.services :: UsesKnown(d, s))
    && forall k | k in d.placements :: Used(d, k)
  }

  predicate UsesKnown<P(!new), S(!new)>(d: Document<P, S>, s: string)
    requires s in d.services
  {
    d.services[s].Keys != {} && d.services[s].Keys <= d.placements.Keys
  }

  ghost predicate Used<P(!new), S(!new)>(d: Document<P, S>, k: string) {
    exists s :: s in d.services && k in d.services[s]
  }

  ghost predicate Unshadowed(identities: map<string, Identity>, register: Register) {
    forall k | k in identities :: !Shadowed(identities[k].prefix, register)
  }

  ghost predicate SameLifecycle(identities: map<string, Identity>) {
    forall k, l | k in identities && l in identities :: identities[k].Lifecycle() == identities[l].Lifecycle()
  }

  /** What the source demands of a document, its identities and the register. */
  ghost predicate CanRename<P(!new), S(!new)>(
    d: Document<P, S>, identities: map<string, Identity>, register: Register)
  {
    && IsRegister(register)
    && d.order != [] && d.placements.Keys == identities.Keys && (forall k | k in d.order :: k in identities)
    && InOrder(d.order, identities)
    && AllFormat(identities, register) && Unshadowed(identities, register) && SameLifecycle(identities)
    && AllReferenced(d)
  }

  ghost predicate IsRenaming<P(!new), S(!new)>(d: Document<P, S>, names: map<string, string>, r: Document<P, S>) {
    && names.Keys == d.placements.Keys && OneToOne(names)
    && |r.order| == |d.order|
    && (forall i | 0 <= i < |d.order| :: d.order[i] in names && r.order[i] == names[d.order[i]])
    && RenamedKeys(d.placements, names, r.placements)
    && r.services.Keys == d.services.Keys
    && forall s | s in d.services ::
         d.services[s].Keys <= names.Keys && RenamedKeys(d.services[s], names, r.services[s])
  }

  /** Names of different positions differ, because the printed group differs. */
  lemma NamesAreOneToOne(order: seq<string>, identities: map<string, Identity>, register: Register)
    requires forall k :: k in order <==> k in identities
    requires InOrder(order, identities) && AllFormat(identities, register)
    ensures OneToOne(NamesOf(identities, register))
  {
    forall k, l | k in identities && l in identities && k != l
      ensures Format(identities[k], register) != Format(identities[l], register)
    {
      var i :| 0 <= i < |order| && order[i] == k;
      var j :| 0 <= j < |order| && order[j] == l;
      assert identities[k].group != identities[l].group;
      if Format(identities[k], register) == Format(identities[l], register) {
        FormatInjective(identities[k], identities[l], register);
      }
    }
  }

  /** What the document's own printed names are observed as. */
  ghost predicate OwnNames(
    order: seq<string>, identities: map<string, Identity>, register: Register, groups: seq<Observation>)
    requires forall k | k in order :: k in identities
  {
    && |groups| == |order|
    && forall i | 0 <= i < |order| ::
         groups[i] == Observation(Some(i + 1), Format(identities[order[i]], register))
  }

  lemma OwnNameParses(id: Identity, register: Register)
    requires Format(id, register).Some?
    ensures Parse(Format(id, register).value, register).Known? <==> !Shadowed(id.prefix, register)
    ensures Parse(Format(id, register).value, register) in {Unknown, Known(id)}
    ensures Canonical(id.group)
  {
    ParseUndoesFormat(id, register);
  }

  lemma {:induction false} OneToNDistinct(ids: seq<int>)
    requires forall i | 0 <= i < |ids| :: ids[i] == i + 1
    ensures Distinct(ids) && Members(ids) == Range(|ids|)
  {
    if ids != [] {
      var n := |ids| - 1;
      OneToNDistinct(ids[..n]);
      assert Members(ids) == Members(ids[..n]) + {ids[n]} by {
        assert forall i | 0 <= i < n :: ids[..n][i] == ids[i];
      }
    }
  }

  /**
   The population check on the document's own names comes down to two conditions: no
   name is shadowed, and all identities share one lifecycle.
   */
  lemma OwnNamesClassify(
    order: seq<string>, identities: map<string, Identity>, register: Register, groups: seq<Observation>)
    requires order != [] && forall k :: k in order <==> k in identities
    requires InOrder(order, identities) && AllFormat(identities, register)
    requires OwnNames(order, identities, register, groups)
    ensures Classified(groups, register) <==> Unshadowed(identities, register) && SameLifecycle(identities)
  {
    hide Format, Parse, Shadowed, Distinct, Members, Range, OneLifecycle, SameLifecycle;
    var parsed := ParsedNames(groups, register);
    forall i | 0 <= i < |groups|
      ensures parsed[i].Known? <==> !Shadowed(identities[order[i]].prefix, register)
      ensures parsed[i] in {Unknown, Known(identities[order[i]])} && Canonical(i + 1)
    {
      OwnNameParses(identities[order[i]], register);
    }
    assert AllKnown(parsed) <==> Unshadowed(identities, register);
    if AllKnown(parsed) {
      IdentitiesOfKnown(parsed);
      assert forall i | 0 <= i < |groups| :: Identities(parsed)[i] == identities[order[i]];
      OneToNDistinct(Groups(Identities(parsed)));
      LifecyclesAgree(order, identities, Identities(parsed));
    }
  }

  lemma LifecyclesAgree(order: seq<string>, identities: map<string, Identity>, listed: seq<Identity>)
    requires order != [] && |listed| == |order| && forall k :: k in order <==> k in identities
    requires forall i | 0 <= i < |order| :: listed[i] == identities[order[i]]
    ensures OneLifecycle(listed) <==> SameLifecycle(identities)
  {
    if OneLifecycle(listed) {
      forall k | k in identities
        ensures identities[k].Lifecycle() == listed[0].Lifecycle()
      {
        var i :| 0 <= i < |order| && order[i] == k;
      }
    }
  }

  // ---- the transformation ----

  method FormatAll(order: seq<string>, identities: map<string, Identity>, register: Register)
    returns (names: Option<map<string, string>>)
    requires forall k :: k in order <==> k in identities
    ensures names.Some? <==> AllFormat(identities, register)
    ensures names.Some? ==> names.value == NamesOf(identities, register)
  {
    hide Format;
    var formatted: map<string, string> := map[];
    for i := 0 to |order|
      invariant formatted.Keys == set k | k in order[..i]
      invariant forall k | k in formatted ::
                  k in identities && Format(identities[k], register) == Some(formatted[k])
    {
      var name := Format(identities[order[i]], register);
      if name.None? {
        return None;
      }
      formatted := formatted[order[i] := name.value];
    }
    assert order[..|order|] == order;
    return Some(formatted);
  }

  /** The loop over the services; None where a reference is unknown or unreadable. */
  method Referenced<P(!new), S(!new)>(d: Document<P, S>) returns (referenced: Option<set<string>>)
    ensures referenced.Some? <==> forall s | s in d.services :: UsesKnown(d, s)
    ensures referenced.Some? ==> forall k :: k in referenced.value <==> Used(d, k)
  {
    var found: set<string> := {};
    var pending := d.services.Keys;
    while pending != {}
      invariant pending <= d.services.Keys
      invariant forall s | s in d.services && s !in pending :: UsesKnown(d, s)
      invariant forall k :: k in found <==> exists s :: s in d.services && s !in pending && k in d.services[s]
      decreases pending
    {
      var service :| service in pending;
      if !UsesKnown(d, service) {
        return None;
      }
      found := found + d.services[service].Keys;
      pending := pending - {service};
    }
    return Some(found);
  }

  /** References to known placements that leave none unused. */
  lemma CoversPlacements<P(!new), S(!new)>(d: Document<P, S>, referenced: set<string>)
    requires d.services.Keys != {} && forall s | s in d.services :: UsesKnown(d, s)
    requires forall k :: k in referenced <==> Used(d, k)
    ensures AllReferenced(d) <==> referenced == d.placements.Keys
  {
    forall k | k in referenced
      ensures k in d.placements
    {
      var s :| s in d.services && k in d.services[s];
      assert UsesKnown(d, s);
    }
  }

  method RenameServices<S>(services: map<string, map<string, S>>, names: map<string, string>)
    returns (r: map<string, map<string, S>>)
    requires OneToOne(names) && forall s | s in services :: services[s].Keys <= names.Keys
    ensures r.Keys == services.Keys
    ensures forall s | s in services :: RenamedKeys(services[s], names, r[s])
  {
    r := map[];
    var pending := services.Keys;
    while pending != {}
      invariant pending <= services.Keys && r.Keys == services.Keys - pending
      invariant forall s | s in r :: RenamedKeys(services[s], names, r[s])
      decreases pending
    {
      var service :| service in pending;
      var groups := RenameKeys(services[service], names);
      r := r[service := groups];
      pending := pending - {service};
    }
  }

  /** The checks up to the printed names of all placements. */
  method PlacementNames<P(!new), S(!new)>(d: Document<P, S>, identities: map<string, Identity>, register: Register)
    returns (names: Option<map<string, string>>)
    requires d.Valid()
    ensures names.Some? <==>
              && IsRegister(register) && d.order != [] && d.placements.Keys == identities.Keys && d.services.Keys != {}
              && InOrder(d.order, identities) && AllFormat(identities, register)
              && Unshadowed(identities, register) && SameLifecycle(identities)
    ensures names.Some? ==> names.value == NamesOf(identities, register)
  {
    hide Format, Parse, Classified, IsRegister, Unshadowed, SameLifecycle;
    if !IsRegister(register) || d.order == [] || d.placements.Keys != identities.Keys || d.services.Keys == {} {
      return None;
    }
    if !InOrder(d.order, identities) {
      return None;
    }
    names := FormatAll(d.order, identities, register);
    if names.None? {
      return None;
    }
    var groups := seq(|d.order|, i requires 0 <= i < |d.order| =>
      Observation(Some(i + 1), Some(names.value[d.order[i]])));
    OwnNamesClassify(d.order, identities, register, groups);
    var population := ClassifyGroups(groups, register, true);
    if population.value.held {
      return None;
    }
  }

  lemma KnownKeys<P(!new), S(!new)>(d: Document<P, S>)
    requires forall s | s in d.services :: UsesKnown(d, s)
    ensures forall s | s in d.services :: d.services[s].Keys <= d.placements.Keys
  {
    forall s | s in d.services
      ensures d.services[s].Keys <= d.placements.Keys
    {
      assert UsesKnown(d, s);
    }
  }

  method Rename<P(!new), S(!new)>(d: Document<P, S>, names: map<string, string>) returns (r: Document<P, S>)
    requires d.Valid() && names.Keys == d.placements.Keys && OneToOne(names)
    requires forall s | s in d.services :: d.services[s].Keys <= names.Keys
    ensures IsRenaming(d, names, r)
  {
    hide OneToOne, RenamedKeys;
    var placements := RenameKeys(d.placements, names);
    var services := RenameServices(d.services, names);
    var order := seq(|d.order|, i requires 0 <= i < |d.order| => names[d.order[i]]);
    return Document(order, placements, services);
  }

  /** `transform_sdl`: None where it raises. */
  method TransformSdl<P(!new), S(!new)>(d: Document<P, S>, identities: map<string, Identity>, register: Register)
    returns (r: Option<Document<P, S>>)
    requires d.Valid()
    ensures r.Some? <==> CanRename(d, identities, register)
    ensures r.Some? ==> IsRenaming(d, NamesOf(identities, register), r.value)
  {
    hide Format, IsRegister, Unshadowed, SameLifecycle, InOrder, OneToOne, RenamedKeys, UsesKnown, Used;
    hide AllFormat;
    var printed := PlacementNames(d, identities, register);
    if printed.None? {
      return None;
    }
    var names := printed.value;
    var referenced := Referenced(d);
    if referenced.None? {
      return None;
    }
    CoversPlacements(d, referenced.value);
    if referenced.value != d.placements.Keys {
      return None;
    }
    KnownKeys(d);
    NamesAreOneToOne(d.order, identities, register);
    var renamed := Rename(d, names);
    return Some(renamed);
  }

  lemma RenamedOrder<P(!new), S(!new)>(d: Document<P, S>, names: map<string, string>, r: Document<P, S>)
    requires d.Valid() && IsRenaming(d, names, r)
    ensures r.Valid()
  {
    forall i, j | 0 <= i < j < |r.order|
      ensures r.order[i] != r.order[j]
    {
      assert d.order[i] != d.order[j];
    }
    forall n | n in r.placements
      ensures n in r.order
    {
      var k :| k in d.placements && names[k] == n;
      var i :| 0 <= i < |d.order| && d.order[i] == k;
      assert r.order[i] == n;
    }
    forall i | 0 <= i < |r.order|
      ensures r.order[i] in r.placements
    {
      assert d.order[i] in d.placements;
    }
  }

  lemma RenamedReference<P(!new), S(!new)>(
    d: Document<P, S>, names: map<string, string>, r: Document<P, S>, s: string, k: string)
    requires IsRenaming(d, names, r) && s in d.services && k in d.services[s] && k in d.placements
    ensures names[k] in r.services[s] && r.services[s][names[k]] == d.services[s][k]
    ensures names[k] in r.placements && r.placements[names[k]] == d.placements[k]
  {
    assert RenamedKeys(d.services[s], names, r.services[s]);
  }

  lemma RenamedService<P(!new), S(!new)>(d: Document<P, S>, names: map<string, string>, r: Document<P, S>, s: string)
    requires IsRenaming(d, names, r) && s in d.services && UsesKnown(d, s)
    ensures UsesKnown(r, s) && |r.services[s]| == |d.services[s]|
  {
    assert RenamedKeys(d.services[s], names, r.services[s]);
    SameSize(d.services[s], names, r.services[s]);
    forall n | n in r.services[s]
      ensures n in r.placements
    {
      var k :| k in d.services[s] && names[k] == n;
    }
  }

  lemma StillReferenced<P(!new), S(!new)>(d: Document<P, S>, names: map<string, string>, r: Document<P, S>)
    requires IsRenaming(d, names, r) && AllReferenced(d)
    ensures AllReferenced(r)
  {
    hide OneToOne, RenamedKeys, UsesKnown, Used;
    forall s | s in r.services
      ensures UsesKnown(r, s)
    {
      assert UsesKnown(d, s);
      RenamedService(d, names, r, s);
    }
    forall n | n in r.placements
      ensures Used(r, n)
    {
      var k := RenamedFrom(d.placements, names, r.placements, n);
      PlacementIsUsed(d, names, r, k);
    }
  }

  /** Every reference of a service resolves to the same placement body as before, in a well-formed document. */
  lemma ReferencesResolve<P(!new), S(!new)>(d: Document<P, S>, names: map<string, string>, r: Document<P, S>)
    requires d.Valid() && IsRenaming(d, names, r) && AllReferenced(d)
    ensures r.Valid() && AllReferenced(r)
    ensures forall s, k | s in d.services && k in d.services[s] ::
              && names[k] in r.services[s] && r.services[s][names[k]] == d.services[s][k]
              && names[k] in r.placements && r.placements[names[k]] == d.placements[k]
    ensures forall s | s in d.services :: |r.services[s]| == |d.services[s]|
  {
    hide OneToOne, RenamedKeys, UsesKnown, Used;
    RenamedOrder(d, names, r);
    StillReferenced(d, names, r);
    forall s, k | s in d.services && k in d.services[s]
      ensures names[k] in r.services[s] && r.services[s][names[k]] == d.services[s][k]
      ensures names[k] in r.placements && r.placements[names[k]] == d.placements[k]
    {
      KnownKeys(d);
      RenamedReference(d, names, r, s, k);
    }
    forall s | s in d.services
      ensures |r.services[s]| == |d.services[s]|
    {
      assert UsesKnown(d, s);
      RenamedService(d, names, r, s);
    }
  }

  lemma RenamedFrom<V>(m: map<string, V>, names: map<string, string>, r: map<string, V>, n: string)
    returns (k: string)
    requires m.Keys <= names.Keys && RenamedKeys(m, names, r) && n in r
    ensures k in m && names[k] == n
  {
    k :| k in m && names[k] == n;
  }

  lemma PlacementIsUsed<P(!new), S(!new)>(d: Document<P, S>, names: map<string, string>, r: Document<P, S>, k: string)
    requires IsRenaming(d, names, r) && k in d.placements && Used(d, k)
    ensures Used(r, names[k])
  {
    hide OneToOne, RenamedKeys;
    var s :| s in d.services && k in d.services[s];
    RenamedReference(d, names, r, s, k);
    assert s in r.services;
  }

  lemma {:induction false} ImageSize(keys: set<string>, names: map<string, string>, image: set<string>)
    requires keys <= names.Keys && OneToOne(names)
    requires forall n :: n in image <==> exists k | k in keys :: names[k] == n
    ensures |image| == |keys|
    decreases |keys|
  {
    if keys != {} {
      var k :| k in keys;
      assert names[k] in image;
      ImageSize(keys - {k}, names, image - {names[k]});
    } else {
      assert image == {};
    }
  }

  lemma SameSize<V>(m: map<string, V>, names: map<string, string>, r: map<string, V>)
    requires m.Keys <= names.Keys && OneToOne(names) && RenamedKeys(m, names, r)
    ensures |r| == |m|
  {
    ImageSize(m.Keys, names, r.Keys);
    assert |r| == |r.Keys| && |m| == |m.Keys|;
  }
}
