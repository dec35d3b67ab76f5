/** What every valid journal keeps, and what its last entry determines. */
module JournalRuns {
  import opened Wrappers
  import opened Evidence
  import opened AppendOnly
  import opened Journal

  // ---- what an accepted entry tells ----

  predicate IsFirst(entries: seq<Entry>, entry: Entry) {
    Own(entries, entry.operationId) == [] && entry.stage.Prepared?
  }

  /** One step of an operation that was prepared before. */
  predicate IsStep(entries: seq<Entry>, entry: Entry) {
    var own := Own(entries, entry.operationId);
    && own != [] && Next(own[|own| - 1].stage, entry.stage)
    && (own[|own| - 1].payload.SettlementPayload? && entry.payload.SettlementPayload? ==>
          Level(own[|own| - 1].payload.settlement.state) < Level(entry.payload.settlement.state))
  }

  lemma EnvelopeHolds(entries: seq<Entry>, entry: Entry)
    requires Validate(entries, entry).None?
    ensures entry.revision == |entries| + 1 && entry.previous == Head(entries)
    ensures Carries(entry.stage, entry.payload) && entry.payload.OperationId() == entry.operationId
    ensures entry.payload.ObservedAt() <= entry.recordedAt
    ensures entries != [] ==> entries[|entries| - 1].recordedAt <= entry.recordedAt
  {
  }

  lemma StepHolds(entries: seq<Entry>, entry: Entry)
    requires Validate(entries, entry).None?
    ensures IsFirst(entries, entry) || IsStep(entries, entry)
  {
  }

  lemma SubjectHolds(entries: seq<Entry>, entry: Entry)
    requires Validate(entries, entry).None? && entry.payload.Subject().Some?
    ensures BoundTo(entries, entry.operationId, entry.payload.Subject().value)
  {
  }

  /** A created entry binds a deployment that no operation is bound to yet. */
  lemma CreatedHolds(entries: seq<Entry>, entry: Entry)
    requires Validate(entries, entry).None? && entry.stage == Created
    ensures Deployment(entry.payload).Some?
    ensures forall i | 0 <= i < |entries| ::
              !BoundTo(entries, entries[i].operationId, Deployment(entry.payload).value.subject)
  {
    var own := Own(entries, entry.operationId);
    assert CheckLater(entries, own, entry).None?;
    assert CheckEvidence(entries, own, own[0].payload.prepared, entry).None?;
  }

  lemma PreparedIsFirst(entries: seq<Entry>, entry: Entry)
    requires Validate(entries, entry).None? && entry.stage.Prepared?
    ensures Own(entries, entry.operationId) == []
    ensures entry.payload.PreparedPayload? && CheckFirst(entries, entry.payload.prepared).None?
  {
  }

  predicate FreshDeployment(entries: seq<Entry>, entry: Entry) {
    && Deployment(entry.payload).Some?
    && forall i | 0 <= i < |entries| ::
         !BoundTo(entries, entries[i].operationId, Deployment(entry.payload).value.subject)
  }

  predicate FreshAllocation(entries: seq<Entry>, entry: Entry) {
    && Own(entries, entry.operationId) == []
    && entry.payload.PreparedPayload? && CheckFirst(entries, entry.payload.prepared).None?
  }

  /** What an accepted entry is known to be, whatever it was checked for. */
  predicate Fits(entries: seq<Entry>, entry: Entry) {
    && entry.revision == |entries| + 1 && entry.previous == Head(entries)
    && Carries(entry.stage, entry.payload) && entry.payload.OperationId() == entry.operationId
    && entry.payload.ObservedAt() <= entry.recordedAt
    && (entries != [] ==> entries[|entries| - 1].recordedAt <= entry.recordedAt)
    && (IsFirst(entries, entry) || IsStep(entries, entry))
    && (entry.payload.Subject().Some? ==> BoundTo(entries, entry.operationId, entry.payload.Subject().value))
    && (entry.stage == Created ==> FreshDeployment(entries, entry))
    && (entry.stage.Prepared? ==> FreshAllocation(entries, entry))
  }

  lemma AcceptedFits(entries: seq<Entry>, entry: Entry)
    requires Validate(entries, entry).None?
    ensures Fits(entries, entry)
  {
    EnvelopeHolds(entries, entry);
    StepHolds(entries, entry);
    if entry.payload.Subject().Some? {
      SubjectHolds(entries, entry);
    }
    if entry.stage == Created {
      CreatedHolds(entries, entry);
    }
    if entry.stage.Prepared? {
      PreparedIsFirst(entries, entry);
    }
  }

  lemma At(entries: seq<Entry>, i: nat)
    requires IsJournal(entries) && i < |entries|
    ensures IsJournal(entries[..i]) && Fits(entries[..i], entries[i])
  {
    PrefixIsLog(Validate, entries, i);
    assert AcceptedAt(Validate, entries, i);
    AcceptedFits(entries[..i], entries[i]);
  }

  // ---- the path of one operation ----

  /** How far an entry is along its operation; a settlement goes on from level to level. */
  function Rank(e: Entry): nat {
    match e.stage
    case Prepared => 0
    case Submitted => 1
    case RejectedBeforeSendStage => 1
    case OutcomeUnknown => 2
    case Created => 3
    case FallbackSafeStage => 3
    case HandoffFailed => 4
    case RollbackRequested => 5
    case ExecutionClosed => 6
    case Settlement => if e.payload.SettlementPayload? then 7 + Level(e.payload.settlement.state) else 7
  }

  predicate Along(e: Entry, f: Entry) {
    Next(e.stage, f.stage) && Rank(e) < Rank(f)
  }

  /** A path from the prepared state along the allowed transitions, always further on. */
  ghost predicate IsPath(own: seq<Entry>) {
    && (own != [] ==> own[0].stage.Prepared?)
    && (forall i | 0 <= i < |own| :: Carries(own[i].stage, own[i].payload))
    && (forall i | 0 <= i < |own| - 1 :: Along(own[i], own[i + 1]))
  }

  lemma PathGrows(own: seq<Entry>, e: Entry)
    requires IsPath(own) && Carries(e.stage, e.payload)
    requires if own == [] then e.stage.Prepared? else Along(own[|own| - 1], e)
    ensures IsPath(own + [e])
  {
    var grown := own + [e];
    forall i | 0 <= i < |grown| - 1
      ensures Along(grown[i], grown[i + 1])
    {
      if i < |own| - 1 {
        assert Along(own[i], own[i + 1]);
      }
    }
  }

  lemma StepIsAlong(entries: seq<Entry>, entry: Entry)
    requires IsStep(entries, entry) && Carries(entry.stage, entry.payload)
    requires IsPath(Own(entries, entry.operationId))
    ensures var own := Own(entries, entry.operationId); Along(own[|own| - 1], entry)
  {
    var own := Own(entries, entry.operationId);
    assert Carries(own[|own| - 1].stage, own[|own| - 1].payload);
  }

  /** In every journal the entries of one operation form a path from the prepared state. */
  lemma {:induction false} OperationIsPath(entries: seq<Entry>, operationId: string)
    requires IsJournal(entries)
    ensures IsPath(Own(entries, operationId))
  {
    if entries != [] {
      var n := |entries| - 1;
      At(entries, n);
      OperationIsPath(entries[..n], operationId);
      if entries[n].operationId == operationId {
        if IsStep(entries[..n], entries[n]) {
          StepIsAlong(entries[..n], entries[n]);
        }
        PathGrows(Own(entries[..n], operationId), entries[n]);
      }
    }
  }

  lemma {:induction false} RanksIncrease(own: seq<Entry>, i: nat, j: nat)
    requires IsPath(own) && i < j < |own|
    ensures Rank(own[i]) + (j - i) <= Rank(own[j])
  {
    assert Along(own[j - 1], own[j]);
    if i < j - 1 {
      RanksIncrease(own, i, j - 1);
    }
  }

  /** The two ways an uncertain creation ends. */
  predicate Ends(e: Entry) {
    e.stage.Created? || e.stage.FallbackSafeStage?
  }

  /** A path has at most ten entries, creates at most once, and never both creates and falls back. */
  lemma PathIsShort(own: seq<Entry>)
    requires IsPath(own)
    ensures |own| <= 10
    ensures forall i, j | 0 <= i < j < |own| ::
              Ends(own[i]) ==> !Ends(own[j])
  {
    if |own| > 1 {
      RanksIncrease(own, 0, |own| - 1);
    }
    forall i, j | 0 <= i < j < |own| && Ends(own[i])
      ensures !Ends(own[j])
    {
      RanksIncrease(own, i, j);
    }
  }

  /** So does every operation of every journal. */
  lemma AtMostTenEntries(entries: seq<Entry>, operationId: string)
    requires IsJournal(entries)
    ensures |Own(entries, operationId)| <= 10
    ensures forall i, j | 0 <= i < j < |Own(entries, operationId)| ::
              Ends(Own(entries, operationId)[i]) ==> !Ends(Own(entries, operationId)[j])
  {
    OperationIsPath(entries, operationId);
    PathIsShort(Own(entries, operationId));
  }

  // ---- the bound deployment ----

  lemma {:induction false} BoundIsStable(entries: seq<Entry>, n: nat, operationId: string)
    requires n <= |entries| && Bound(entries[..n], operationId).Some?
    ensures Bound(entries, operationId) == Bound(entries[..n], operationId)
  {
    if n == |entries| {
      assert entries[..n] == entries;
    } else {
      var m := |entries| - 1;
      assert entries[..m][..n] == entries[..n];
      BoundIsStable(entries[..m], n, operationId);
    }
  }

  lemma {:induction false} BoundMeansCreated(entries: seq<Entry>, operationId: string)
    requires IsJournal(entries)
    ensures Bound(entries, operationId).Some? ==>
              exists e :: e in Own(entries, operationId) && e.stage == Created
                          && Deployment(e.payload) == Bound(entries, operationId)
    ensures Bound(entries, operationId).None? ==>
              forall e | e in Own(entries, operationId) :: e.stage != Created
  {
    if entries != [] {
      var n := |entries| - 1;
      At(entries, n);
      BoundMeansCreated(entries[..n], operationId);
      if entries[n].operationId == operationId && entries[n].stage == Created {
        assert entries[n] in Own(entries, operationId);
      }
    }
  }

  lemma {:induction false} OwnerIsPresent(entries: seq<Entry>, operationId: string)
    requires Bound(entries, operationId).Some?
    ensures exists i :: 0 <= i < |entries| && entries[i].operationId == operationId
  {
    var n := |entries| - 1;
    if Bound(entries[..n], operationId).Some? {
      OwnerIsPresent(entries[..n], operationId);
    }
  }

  /** No deployment is bound to two operations. */
  lemma {:induction false} OneOperationPerDeployment(
    entries: seq<Entry>, a: string, b: string, subject: DeploymentKey)
    requires IsJournal(entries) && BoundTo(entries, a, subject) && BoundTo(entries, b, subject)
    ensures a == b
  {
    var n := |entries| - 1;
    At(entries, n);
    if BoundTo(entries[..n], a, subject) && BoundTo(entries[..n], b, subject) {
      OneOperationPerDeployment(entries[..n], a, b, subject);
    } else if BoundTo(entries[..n], a, subject) {
      NewlyBound(entries, b, a, subject);
    } else if BoundTo(entries[..n], b, subject) {
      NewlyBound(entries, a, b, subject);
    }
  }

  /** The entry that binds a deployment finds it bound to no operation before. */
  lemma NewlyBound(entries: seq<Entry>, operationId: string, other: string, subject: DeploymentKey)
    requires IsJournal(entries) && BoundTo(entries, operationId, subject)
    requires !BoundTo(entries[..|entries| - 1], operationId, subject)
    ensures !BoundTo(entries[..|entries| - 1], other, subject)
  {
    var n := |entries| - 1;
    At(entries, n);
    if Bound(entries[..n], operationId).None? && Bound(entries[..n], other).Some? {
      OwnerIsPresent(entries[..n], other);
    }
  }

  /** What every entry of an operation says about its deployment. */
  ghost predicate NamesBound(entries: seq<Entry>, e: Entry) {
    && (e.payload.Subject().Some? ==> BoundTo(entries, e.operationId, e.payload.Subject().value))
    && (e.stage == Created ==> Bound(entries, e.operationId) == Deployment(e.payload)
                               && Deployment(e.payload).Some?)
  }

  lemma NamesStill(entries: seq<Entry>, n: nat, e: Entry)
    requires n <= |entries| && NamesBound(entries[..n], e)
    ensures NamesBound(entries, e)
  {
    if Bound(entries[..n], e.operationId).Some? {
      BoundIsStable(entries, n, e.operationId);
    }
  }

  /** Every payload that names a deployment names the one its operation is bound to. */
  lemma LaterPayloadsNameBound(entries: seq<Entry>, i: nat)
    requires IsJournal(entries) && i < |entries|
    ensures NamesBound(entries, entries[i])
  {
    var e := entries[i];
    At(entries, i);
    assert entries[..i + 1][..i] == entries[..i];
    if e.payload.Subject().Some? {
      BoundIsStable(entries[..i + 1], i, e.operationId);
    }
    if e.stage == Created {
      CreatedIsFirst(entries, i);
    }
    NamesStill(entries, i + 1, e);
  }

  lemma CreatedIsFirst(entries: seq<Entry>, i: nat)
    requires IsJournal(entries) && i < |entries| && entries[i].stage == Created
    ensures Bound(entries[..i], entries[i].operationId).None?
  {
    var e := entries[i];
    PrefixIsLog(Validate, entries, i + 1);
    PrefixIsLog(Validate, entries, i);
    assert entries[..i + 1][..i] == entries[..i];
    OperationIsPath(entries[..i + 1], e.operationId);
    PathIsShort(Own(entries[..i + 1], e.operationId));
    var own := Own(entries[..i], e.operationId);
    assert Own(entries[..i + 1], e.operationId) == own + [e];
    BoundMeansCreated(entries[..i], e.operationId);
    forall f | f in own
      ensures f.stage != Created
    {
      var k :| 0 <= k < |own| && own[k] == f;
      assert (own + [e])[k] == f && (own + [e])[|own|] == e;
    }
  }

  /** After the creation of a deployment its operation speaks of nothing else. */
  lemma AfterCreation(entries: seq<Entry>, operationId: string, i: nat, j: nat)
    requires IsJournal(entries)
    requires i < j < |Own(entries, operationId)| && Own(entries, operationId)[i].stage == Created
    ensures var own := Own(entries, operationId);
            own[j].payload.Subject().Some? && BoundTo(entries, operationId, own[j].payload.Subject().value)
            && Bound(entries, operationId) == Deployment(own[i].payload)
  {
    var own := Own(entries, operationId);
    OperationIsPath(entries, operationId);
    RanksIncrease(own, i, j);
    assert own[i] in own && own[j] in own;
    var k :| 0 <= k < |entries| && entries[k] == own[i];
    var m :| 0 <= m < |entries| && entries[m] == own[j];
    LaterPayloadsNameBound(entries, k);
    LaterPayloadsNameBound(entries, m);
  }

  // ---- the allocation ----

  lemma {:induction false} FirstIsFresh(entries: seq<Entry>, prepared: PreparedCreate, i: nat)
    requires CheckFirst(entries, prepared).None? && i < |entries|
    requires entries[i].stage.Prepared? && entries[i].payload.PreparedPayload?
    ensures Allocation(entries[i].payload.prepared) != Allocation(prepared)
    ensures entries[i].payload.prepared.operationId != prepared.operationId
  {
    if i > 0 {
      FirstIsFresh(entries[1..], prepared, i - 1);
    }
  }

  /** No two operations are prepared under one lifecycle identity and ordinal. */
  lemma OneOperationPerAllocation(entries: seq<Entry>, i: nat, j: nat)
    requires IsJournal(entries) && i < j < |entries|
    requires entries[i].stage.Prepared? && entries[j].stage.Prepared?
    ensures entries[i].payload.PreparedPayload? && entries[j].payload.PreparedPayload?
    ensures Allocation(entries[i].payload.prepared) != Allocation(entries[j].payload.prepared)
    ensures entries[i].operationId != entries[j].operationId
  {
    At(entries, i);
    At(entries, j);
    assert entries[..j][i] == entries[i];
    FirstIsFresh(entries[..j], entries[j].payload.prepared, i);
  }

  // ---- checks that never fire ----

  lemma {:induction false} TimesIncrease(entries: seq<Entry>, i: nat)
    requires IsJournal(entries) && i < |entries|
    ensures entries[i].recordedAt <= entries[|entries| - 1].recordedAt
  {
    var n := |entries| - 1;
    if i < n {
      At(entries, n);
      TimesIncrease(entries[..n], i);
    }
  }

  lemma {:induction false} FirstNeverDuplicates(entries: seq<Entry>, prepared: PreparedCreate)
    requires forall i | 0 <= i < |entries| ::
               entries[i].payload.PreparedPayload? ==> entries[i].payload.prepared.operationId != prepared.operationId
    ensures CheckFirst(entries, prepared) in {None, Some(DuplicateOrdinal)}
  {
    if entries != [] {
      FirstNeverDuplicates(entries[1..], prepared);
    }
  }

  lemma {:induction false} OwnIsComplete(entries: seq<Entry>, i: nat)
    requires i < |entries|
    ensures entries[i] in Own(entries, entries[i].operationId)
  {
    var n := |entries| - 1;
    if i < n {
      OwnIsComplete(entries[..n], i);
    }
  }

  /**
   Two checks can never be the one that refuses an entry: an operation's own times follow
   from the journal's, and the scan for a repeated operation finds nothing, because the
   repetition would already have had entries.
   */
  lemma RedundantChecks(entries: seq<Entry>, entry: Entry)
    requires IsJournal(entries)
    ensures Validate(entries, entry) != Some(TransitionTimeBackwards)
    ensures Validate(entries, entry) == Some(DuplicateOperation) ==> Own(entries, entry.operationId) != []
  {
    var own := Own(entries, entry.operationId);
    if CheckEnvelope(entries, entry).None? {
      if own == [] {
        if entry.stage.Prepared? {
          OthersAreNamed(entries, entry);
          FirstNeverDuplicates(entries, entry.payload.prepared);
        }
      } else {
        OwnTimes(entries, entry.operationId, 0);
        OwnTimes(entries, entry.operationId, |own| - 1);
        NoTimeFault(entries, own, entry);
      }
    }
  }

  lemma OthersAreNamed(entries: seq<Entry>, entry: Entry)
    requires IsJournal(entries) && Own(entries, entry.operationId) == []
    ensures forall i | 0 <= i < |entries| ::
              entries[i].payload.PreparedPayload? ==> entries[i].payload.prepared.operationId != entry.operationId
  {
    forall i | 0 <= i < |entries| && entries[i].payload.PreparedPayload?
      ensures entries[i].payload.prepared.operationId != entry.operationId
    {
      At(entries, i);
      OwnIsComplete(entries, i);
    }
  }

  lemma OwnTimes(entries: seq<Entry>, operationId: string, k: nat)
    requires IsJournal(entries) && k < |Own(entries, operationId)|
    ensures entries != []
    ensures var e := Own(entries, operationId)[k];
            e.payload.ObservedAt() <= e.recordedAt <= entries[|entries| - 1].recordedAt
  {
    var own := Own(entries, operationId);
    assert own[k] in own;
    var i :| 0 <= i < |entries| && entries[i] == own[k];
    At(entries, i);
    TimesIncrease(entries, i);
  }

  lemma NoTimeFault(entries: seq<Entry>, own: seq<Entry>, entry: Entry)
    requires own != [] && own[|own| - 1].recordedAt <= entry.recordedAt
    requires own[0].payload.ObservedAt() <= entry.recordedAt
    ensures CheckLater(entries, own, entry) != Some(TransitionTimeBackwards)
  {
  }

  // ---- the head determines the journal ----

  lemma Chained(entries: seq<Entry>, i: nat)
    requires IsJournal(entries) && i < |entries|
    ensures entries[i].revision == i + 1
    ensures entries[i].previous == if i == 0 then None else Some(entries[i - 1])
  {
    At(entries, i);
  }

  lemma {:induction false} EntryDeterminesPrefix(a: seq<Entry>, b: seq<Entry>, n: nat, m: nat)
    requires IsJournal(a) && IsJournal(b) && n < |a| && m < |b| && a[n] == b[m]
    ensures n == m && a[..n + 1] == b[..m + 1]
  {
    Chained(a, n);
    Chained(b, m);
    if n > 0 {
      EntryDeterminesPrefix(a, b, n - 1, m - 1);
    }
    SnocEqual(a, b, n);
  }

  /** Two valid journals with the same head digest are identical. */
  lemma HeadDeterminesJournal(a: seq<Entry>, b: seq<Entry>)
    requires IsJournal(a) && IsJournal(b) && Head(a) == Head(b)
    ensures a == b
  {
    if a != [] {
      EntryDeterminesPrefix(a, b, |a| - 1, |b| - 1);
      assert a[..|a|] == a && b[..|b|] == b;
    }
  }
}
