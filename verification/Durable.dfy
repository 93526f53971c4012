/** The meaning of a durable log: the fold of State.Apply over its envelopes. */
module Durable {
  import opened Domain
  import opened State

  ghost function Fold(base: Snapshot, log: seq<Envelope>): (r: Outcome<Snapshot>)
    ensures r.Ok? ==> r.value.sequence == base.sequence + |log|
  {
    if log == [] then Ok(base)
    else match Fold(base, log[..|log| - 1])
      case Err(category) => Err(category)
      case Ok(s) => Apply(s, log[|log| - 1])
  }

  /** A log that folds is numbered without a gap, and so does each of its prefixes. */
  lemma {:induction false} FoldPrefix(base: Snapshot, log: seq<Envelope>, k: nat)
    requires Fold(base, log).Ok? && k <= |log|
    ensures Fold(base, log[..k]).Ok?
    ensures forall i :: 0 <= i < |log| ==> log[i].Seq() == base.sequence + 1 + i && log[i].Valid()
  {
    hide Apply;
    if log != [] {
      var n := |log| - 1;
      FoldPrefix(base, log[..n], if k <= n then k else n);
      if k <= n { assert log[..n][..k] == log[..k]; } else { assert log[..k] == log; }
      assert forall i :: 0 <= i < n ==> log[i] == log[..n][i];
    } else {
      assert log[..k] == log;
    }
  }

  /** The log position of an envelope is its number. */
  lemma NumberedPosition(base: Snapshot, log: seq<Envelope>, e: Envelope)
    requires Fold(base, log).Ok?
    ensures e in log <==> base.sequence < e.Seq() <= base.sequence + |log| && log[e.Seq() - base.sequence - 1] == e
    ensures e in log ==> e.Valid()
  {
    hide Fold;
    FoldPrefix(base, log, 0);
  }

  /** Any saved state of the log, plus the envelopes after it, is the whole log. */
  lemma {:induction false} FoldFromAny(base: Snapshot, log: seq<Envelope>, k: nat)
    requires Fold(base, log).Ok? && k <= |log|
    ensures Fold(base, log[..k]).Ok?
    ensures Fold(Fold(base, log[..k]).value, log[k..]) == Fold(base, log)
    decreases |log|
  {
    var n := |log| - 1;
    if k == |log| {
      assert log[..k] == log && log[k..] == [];
    } else {
      FoldFromAny(base, log[..n], k);
      var tail := log[k..];
      assert log[..n][..k] == log[..k] && log[..n][k..] == tail[..|tail| - 1] && log[n] == tail[|tail| - 1];
    }
  }

  /** The snapshot is a state the log went through. */
  ghost predicate IsStateOf(base: Snapshot, log: seq<Envelope>, s: Snapshot) {
    && base.sequence <= s.sequence <= base.sequence + |log|
    && Fold(base, log[..s.sequence - base.sequence]) == Ok(s)
  }

  /** A state of a prefix stays a state of the longer log. */
  lemma StateOfLonger(base: Snapshot, a: seq<Envelope>, b: seq<Envelope>, s: Snapshot)
    requires IsStateOf(base, a, s)
    ensures IsStateOf(base, a + b, s)
  {
    assert (a + b)[..s.sequence - base.sequence] == a[..s.sequence - base.sequence];
  }

  /** Two states of one log at the same sequence are equal. */
  lemma SameSequenceSameState(base: Snapshot, log: seq<Envelope>, s: Snapshot, t: Snapshot)
    requires IsStateOf(base, log, s) && IsStateOf(base, log, t) && s.sequence == t.sequence
    ensures s == t
  {
  }

  /** What recovery computes from a snapshot and the envelopes replayed after it. */
  ghost function Recovered(snapshot: Option<Snapshot>, tail: Outcome<seq<Envelope>>): (r: Outcome<Snapshot>)
  {
    var start := if snapshot.Some? then Restore(snapshot.value) else Ok(EMPTY);
    if start.Err? then Err(start.category)
    else if tail.Err? then Err(tail.category)
    else Fold(start.value, tail.value)
  }

  /** The replay loop: each envelope is applied in turn, the first failure ends it. */
  method ReplayInto(start: Snapshot, tail: seq<Envelope>) returns (r: Outcome<Snapshot>)
    ensures r.Ok? <==> Fold(start, tail).Ok?
    ensures r.Ok? ==> r == Fold(start, tail)
  {
    var state := start;
    for i := 0 to |tail|
      invariant Fold(start, tail[..i]) == Ok(state)
    {
      assert tail[..i + 1][..i] == tail[..i];
      var next := Apply(state, tail[i]);
      if next.Err? {
        if Fold(start, tail).Ok? { FoldPrefix(start, tail, i + 1); }
        return Err(next.category);
      }
      state := next.value;
    }
    assert tail[..|tail|] == tail;
    r := Ok(state);
  }

  // ---- states of a log can be restored ----

  lemma {:induction false} MarkAllKeepsFormat(s: Snapshot, subject: string, versions: seq<Int64>, permanent: bool)
    requires MarkAll(s, subject, versions, permanent).Some?
    ensures MarkAll(s, subject, versions, permanent).value.formatVersion == s.formatVersion
    decreases |versions|
  {
    if versions != [] {
      MarkAllKeepsFormat(MarkDeleted(s, subject, versions[0], permanent).value, subject, versions[1..], permanent);
    }
  }

  lemma ApplyKeepsFormat(s: Snapshot, e: Envelope)
    requires Apply(s, e).Ok?
    ensures Apply(s, e).value.formatVersion == s.formatVersion && Validate(Apply(s, e).value)
  {
    hide Validate;
    match e.body.payload {
      case SubjectDeleted(subject, versions, permanent) => MarkAllKeepsFormat(s, subject, versions, permanent);
      case _ =>
    }
  }

  lemma {:induction false} FoldIsRestorable(base: Snapshot, log: seq<Envelope>)
    requires Restore(base).Ok? && Fold(base, log).Ok?
    ensures Restore(Fold(base, log).value).Ok?
    decreases |log|
  {
    hide Apply, Validate;
    if log != [] {
      var n := |log| - 1;
      FoldIsRestorable(base, log[..n]);
      ApplyKeepsFormat(Fold(base, log[..n]).value, log[n]);
    }
  }
}
