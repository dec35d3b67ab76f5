/** Append-only logs: each entry is checked against exactly the entries before it. */
module AppendOnly {
  import opened Wrappers

  ghost predicate AcceptedAt<E(!new), F(!new)>(check: (seq<E>, E) -> Option<F>, entries: seq<E>, i: nat) {
    i < |entries| && check(entries[..i], entries[i]).None?
  }

  /** Every entry is accepted after the ones before it. */
  ghost predicate IsLog<E(!new), F(!new)>(check: (seq<E>, E) -> Option<F>, entries: seq<E>) {
    forall i: nat | i < |entries| :: AcceptedAt(check, entries, i)
  }

  lemma Extends<E(!new), F(!new)>(check: (seq<E>, E) -> Option<F>, entries: seq<E>, entry: E)
    requires IsLog(check, entries)
    ensures IsLog(check, entries + [entry]) <==> check(entries, entry).None?
  {
    var grown := entries + [entry];
    var n := |entries|;
    assert grown[..n] == entries && grown[n] == entry;
    assert AcceptedAt(check, grown, n) <==> check(entries, entry).None?;
    forall i: nat | i < n
      ensures AcceptedAt(check, grown, i)
    {
      assert AcceptedAt(check, entries, i) && grown[..i] == entries[..i];
    }
  }

  lemma PrefixIsLog<E(!new), F(!new)>(check: (seq<E>, E) -> Option<F>, entries: seq<E>, n: nat)
    requires IsLog(check, entries) && n <= |entries|
    ensures IsLog(check, entries[..n])
  {
    forall i: nat | i < n
      ensures AcceptedAt(check, entries[..n], i)
    {
      assert AcceptedAt(check, entries, i) && entries[..n][..i] == entries[..i];
    }
  }

  /** The first entry that is refused, and why. */
  ghost predicate FirstFault<E(!new), F(!new)>(
    check: (seq<E>, E) -> Option<F>, entries: seq<E>, i: nat, fault: F)
  {
    i < |entries| && IsLog(check, entries[..i]) && check(entries[..i], entries[i]) == Some(fault)
  }

  /** Replays the entries into a growing prefix. */
  method Replay<E(!new), F(!new)>(check: (seq<E>, E) -> Option<F>, entries: seq<E>)
    returns (fault: Option<F>)
    ensures fault.None? <==> IsLog(check, entries)
    ensures fault.Some? ==> exists i: nat :: FirstFault(check, entries, i, fault.value)
  {
    var checked: seq<E> := [];
    for i := 0 to |entries|
      invariant checked == entries[..i] && IsLog(check, checked)
    {
      fault := check(checked, entries[i]);
      if fault.Some? {
        assert FirstFault(check, entries, i, fault.value) && !AcceptedAt(check, entries, i);
        return;
      }
      Extends(check, checked, entries[i]);
      checked := checked + [entries[i]];
      assert checked == entries[..i + 1];
    }
    assert entries[..|entries|] == entries;
    fault := None;
  }

  /** Replaying a log with one more entry can only refuse that entry. */
  method ReplayWith<E(!new), F(!new)>(check: (seq<E>, E) -> Option<F>, entries: seq<E>, entry: E)
    returns (fault: Option<F>)
    requires IsLog(check, entries)
    ensures fault == check(entries, entry)
    ensures fault.None? <==> IsLog(check, entries + [entry])
  {
    Extends(check, entries, entry);
    fault := Replay(check, entries + [entry]);
    if fault.Some? {
      forall k: nat | k < |entries|
        ensures check((entries + [entry])[..k], (entries + [entry])[k]).None?
      {
        assert AcceptedAt(check, entries, k) && (entries + [entry])[..k] == entries[..k];
      }
      assert (entries + [entry])[..|entries|] == entries;
      ghost var i: nat :| FirstFault(check, entries + [entry], i, fault.value);
    }
  }

  lemma SnocEqual<E>(a: seq<E>, b: seq<E>, n: nat)
    requires n < |a| && n < |b| && a[..n] == b[..n] && a[n] == b[n]
    ensures a[..n + 1] == b[..n + 1]
  {
    assert a[..n + 1] == a[..n] + [a[n]] && b[..n + 1] == b[..n] + [b[n]];
  }
}
