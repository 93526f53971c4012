/** The shared state topic as a sequence of records, and what makes it a sound log: its distinct
    envelopes, taken in order of first appearance, were each planned by a registry command on the
    state all the earlier ones lead to. */
module ReplicatedLog {
  import opened Domain
  import opened State
  import opened Commands
  import opened RegistryInvariant
  import opened Durable
  import opened Kafka

  /** The compatibility callback, the meaning of identities, and the state the topic starts from:
      the empty registry, or a restored snapshot with its checkpoint. */
  datatype Setup = Setup(check: Checker, refsOf: string -> seq<Reference>, base: Snapshot)

  ghost predicate SetupOk(u: Setup) {
    Inv(u.base, u.refsOf) && (u.base.sequence == 0 ==> u.base == EMPTY)
  }

  ghost function Genesis(u: Setup): seq<Record> {
    if u.base.sequence == 0 then []
    else [Record(SnapshotKey, Some(SnapshotValue(u.base))),
          Record(RestoreKey, Some(CheckpointValue(Checkpoint(FORMAT, u.base.sequence, Sha256Of(Some(u.base))))))]
  }

  function TransitionRecord(e: Envelope): Record {
    Record(TransitionKey(e.Seq()), Some(EnvelopeValue(e)))
  }

  /** The record numbers its envelope next after `n` envelopes. */
  ghost predicate Extending(u: Setup, n: nat, r: Record) {
    r.value.Some? && r.value.value.EnvelopeValue? && r.value.value.envelope.Seq() == u.base.sequence + n + 1
  }

  /** The distinct envelopes of the log, in the order of their sequences. */
  ghost function Envs(u: Setup, log: seq<Record>): (envs: seq<Envelope>)
    ensures |envs| <= |log|
  {
    if log == [] then []
    else
      var n := |log| - 1;
      var before := Envs(u, log[..n]);
      if Extending(u, |before|, log[n]) then before + [log[n].value.value.envelope] else before
  }

  ghost predicate Filed(u: Setup, envs: seq<Envelope>, e: Envelope) {
    u.base.sequence < e.Seq() <= u.base.sequence + |envs| && envs[e.Seq() - u.base.sequence - 1] == e
  }

  /** A registry command planned this envelope on this state. */
  ghost predicate Planned(u: Setup, s: Snapshot, e: Envelope) {
    Apply(s, e).Ok? &&
    exists c: Command :: WellIdentified(c, u.refsOf) && PlanCommand(s, u.check, c).Proposed?
      && PlanCommand(s, u.check, c).envelope == e
  }

  ghost predicate Ledger(u: Setup, envs: seq<Envelope>) {
    envs != [] ==>
      var n := |envs| - 1;
      Ledger(u, envs[..n]) && Fold(u.base, envs[..n]).Ok? && Planned(u, Fold(u.base, envs[..n]).value, envs[n])
  }

  ghost predicate RecordGood(u: Setup, before: seq<Record>, r: Record) {
    match r.key
    case TransitionKey(sequence) =>
      && r.value.Some? && r.value.value.EnvelopeValue? && r.value.value.envelope.Seq() == sequence
      && var e, envs := r.value.value.envelope, Envs(u, before);
         || Filed(u, envs, e)
         || (Fold(u.base, envs).Ok? && Planned(u, Fold(u.base, envs).value, e))
    case SnapshotKey =>
      r.value.Some? && r.value.value.SnapshotValue? && IsStateOf(u.base, Envs(u, before), r.value.value.snapshot)
    case PrimaryKey => r.value.Some? && r.value.value.PrimaryValue?
    case RestoreKey => false
    case OtherKey(_) => false
  }

  ghost predicate LogGood(u: Setup, log: seq<Record>) {
    && |Genesis(u)| <= |log| && log[..|Genesis(u)|] == Genesis(u)
    && forall i :: |Genesis(u)| <= i < |log| ==> RecordGood(u, log[..i], log[i])
  }

  // ---- prefixes and appends ----

  lemma LogGoodPrefix(u: Setup, log: seq<Record>, p: nat)
    requires LogGood(u, log) && |Genesis(u)| <= p <= |log|
    ensures LogGood(u, log[..p])
  {
    assert log[..p][..|Genesis(u)|] == log[..|Genesis(u)|];
    forall i | |Genesis(u)| <= i < p ensures RecordGood(u, log[..p][..i], log[..p][i]) {
      assert log[..p][..i] == log[..i];
    }
  }

  lemma LogGoodAppend(u: Setup, log: seq<Record>, r: Record)
    requires LogGood(u, log)
    ensures LogGood(u, log + [r]) <==> RecordGood(u, log, r)
  {
    var longer := log + [r];
    assert longer[..|Genesis(u)|] == log[..|Genesis(u)|];
    assert longer[..|log|] == log && longer[|log|] == r;
    forall i | |Genesis(u)| <= i < |log| ensures longer[..i] == log[..i] && longer[i] == log[i] { }
  }

  lemma EnvsAppend(u: Setup, log: seq<Record>, r: Record)
    ensures Envs(u, log + [r]) ==
      if Extending(u, |Envs(u, log)|, r) then Envs(u, log) + [r.value.value.envelope] else Envs(u, log)
  {
    assert (log + [r])[..|log|] == log;
  }

  lemma {:induction false} EnvsPrefix(u: Setup, log: seq<Record>, p: nat)
    requires p <= |log|
    ensures |Envs(u, log[..p])| <= |Envs(u, log)|
    ensures Envs(u, log)[..|Envs(u, log[..p])|] == Envs(u, log[..p])
    decreases |log|
  {
    if p == |log| {
      assert log[..p] == log;
    } else {
      var n := |log| - 1;
      EnvsPrefix(u, log[..n], p);
      assert log[..n][..p] == log[..p];
    }
  }

  lemma FiledLater(u: Setup, log: seq<Record>, p: nat, e: Envelope)
    requires p <= |log| && Filed(u, Envs(u, log[..p]), e)
    ensures Filed(u, Envs(u, log), e)
  {
    EnvsPrefix(u, log, p);
    var k := e.Seq() - u.base.sequence - 1;
    assert Envs(u, log[..p])[k] == Envs(u, log)[..|Envs(u, log[..p])|][k];
  }

  lemma StateOfPrefix(u: Setup, log: seq<Record>, p: nat, s: Snapshot)
    requires p <= |log| && IsStateOf(u.base, Envs(u, log[..p]), s)
    ensures IsStateOf(u.base, Envs(u, log), s)
  {
    EnvsPrefix(u, log, p);
    var a, b := Envs(u, log[..p]), Envs(u, log);
    assert a[..s.sequence - u.base.sequence] == b[..s.sequence - u.base.sequence];
  }

  lemma GenesisEnvs(u: Setup)
    ensures Envs(u, Genesis(u)) == []
  {
    var g := Genesis(u);
    if g != [] {
      assert g[..1] == [g[0]] && [g[0]][..0] == [];
      assert Envs(u, g[..1]) == [];
    }
  }

  /** A sound record either extends the ledger by a planned envelope or leaves it as it is. */
  lemma RecordCases(u: Setup, before: seq<Record>, r: Record)
    requires RecordGood(u, before, r)
    ensures var envs := Envs(u, before);
      if Extending(u, |envs|, r) then
        && r.key.TransitionKey? && Fold(u.base, envs).Ok?
        && Planned(u, Fold(u.base, envs).value, r.value.value.envelope)
      else
        r.key.TransitionKey? ==> Filed(u, envs, r.value.value.envelope)
  {
  }

  lemma LedgerExtend(u: Setup, envs: seq<Envelope>, e: Envelope)
    requires Ledger(u, envs) && Fold(u.base, envs).Ok? && Planned(u, Fold(u.base, envs).value, e)
    ensures Ledger(u, envs + [e])
  {
    hide Planned, Fold;
    assert (envs + [e])[..|envs|] == envs;
  }

  lemma {:induction false} LogIsLedger(u: Setup, log: seq<Record>)
    requires LogGood(u, log)
    ensures Ledger(u, Envs(u, log))
    decreases |log|
  {
    hide Planned, Fold, RecordGood, Ledger;
    var n := |log| - 1;
    if |log| == |Genesis(u)| {
      assert log == Genesis(u);
      GenesisEnvs(u);
      EmptyLedger(u);
    } else {
      LogGoodPrefix(u, log, n);
      LogIsLedger(u, log[..n]);
      var before := Envs(u, log[..n]);
      RecordCases(u, log[..n], log[n]);
      if Extending(u, |before|, log[n]) { LedgerExtend(u, before, log[n].value.value.envelope); }
    }
  }

  lemma EmptyLedger(u: Setup)
    ensures Ledger(u, [])
  {
  }

  // ---- what a ledger gives ----

  ghost function StateOf(u: Setup, envs: seq<Envelope>): Snapshot {
    if Fold(u.base, envs).Ok? then Fold(u.base, envs).value else u.base
  }

  /** Every ledger folds, and the registry invariant holds at its end. */
  lemma {:induction false} LedgerFolds(u: Setup, envs: seq<Envelope>)
    requires SetupOk(u) && Ledger(u, envs)
    ensures Fold(u.base, envs).Ok? && Inv(StateOf(u, envs), u.refsOf)
    ensures forall i :: 0 <= i < |envs| ==> envs[i].body.op != "" ==>
              envs[i].body.op in StateOf(u, envs).operations
              && StateOf(u, envs).operations[envs[i].body.op] == envs[i].body.result
  {
    hide Inv, Apply, Planned;
    if envs != [] {
      var n := |envs| - 1;
      LedgerFolds(u, envs[..n]);
      assert forall i :: 0 <= i < n ==> envs[i] == envs[..n][i];
      LedgerStep(u, envs);
    }
  }

  lemma LedgerStep(u: Setup, envs: seq<Envelope>)
    requires SetupOk(u) && Ledger(u, envs) && envs != []
    requires Inv(StateOf(u, envs[..|envs| - 1]), u.refsOf)
    ensures Fold(u.base, envs).Ok? && Inv(StateOf(u, envs), u.refsOf)
    ensures Extends(StateOf(u, envs[..|envs| - 1]), StateOf(u, envs))
    ensures var e := envs[|envs| - 1]; e.body.op != "" ==>
              && e.body.op !in StateOf(u, envs[..|envs| - 1]).operations
              && e.body.op in StateOf(u, envs).operations
              && StateOf(u, envs).operations[e.body.op] == e.body.result
  {
    var n := |envs| - 1;
    var s := StateOf(u, envs[..n]);
    var c: Command :| WellIdentified(c, u.refsOf) && PlanCommand(s, u.check, c).Proposed?
                      && PlanCommand(s, u.check, c).envelope == envs[n];
    StepKeepsInv(s, u.check, c, u.refsOf, StateOf(u, envs));
  }

  lemma {:induction false} LedgerPrefix(u: Setup, envs: seq<Envelope>, k: nat)
    requires SetupOk(u) && Ledger(u, envs) && k <= |envs|
    ensures Ledger(u, envs[..k]) && Extends(StateOf(u, envs[..k]), StateOf(u, envs))
    decreases |envs|
  {
    hide Planned, Inv, StateOf, Extends;
    if k == |envs| {
      assert envs[..k] == envs;
      ExtendsReflexive(StateOf(u, envs));
    } else {
      var n := |envs| - 1;
      LedgerPrefix(u, envs[..n], k);
      assert envs[..n][..k] == envs[..k];
      LedgerFolds(u, envs[..n]);
      LedgerStep(u, envs);
      ExtendsTransitive(StateOf(u, envs[..k]), StateOf(u, envs[..n]), StateOf(u, envs));
    }
  }

  lemma ExtendsReflexive(s: Snapshot)
    ensures Extends(s, s)
  {
  }

  /** A non-empty operation ID labels at most one envelope of a ledger. */
  lemma OperationsAreUnique(u: Setup, envs: seq<Envelope>, i: nat, j: nat)
    requires SetupOk(u) && Ledger(u, envs) && i < j < |envs|
    ensures envs[i].body.op == envs[j].body.op ==> envs[i].body.op == ""
  {
    var upto := envs[..j + 1];
    LedgerPrefix(u, envs, j + 1);
    assert upto[..j] == envs[..j] && upto[j] == envs[j];
    LedgerPrefix(u, envs, j);
    LedgerFolds(u, envs[..j]);
    assert envs[..j][i] == envs[i];
    LedgerStep(u, upto);
  }

  // ---- what a replica has read ----

  ghost predicate Matches(u: Setup, log: seq<Record>, v: View) {
    var envs := Envs(u, log);
    && v.base == u.base.sequence
    && (forall k: Uint64 :: k in v.items <==> u.base.sequence < k <= u.base.sequence + |envs|)
    && (forall k: Uint64 :: k in v.items ==> v.items[k] == envs[k - u.base.sequence - 1])
    && (v.snapshot.Some? ==> IsStateOf(u.base, envs, v.snapshot.value) && Inv(v.snapshot.value, u.refsOf))
    && (u.base.sequence != 0 ==> v.snapshot.Some?)
  }

  lemma MatchesGenesis(u: Setup, v: View)
    requires SetupOk(u) && Consume(Genesis(u)) == Some(v)
    ensures Matches(u, Genesis(u), v)
  {
    GenesisEnvs(u);
    var g := Genesis(u);
    if g != [] {
      assert g[..1] == [g[0]] && [g[0]][..0] == [];
      assert Consume([g[0]]) == Some(BLANK.(snapshot := Some(u.base)));
      assert IsStateOf(u.base, [], u.base);
    }
  }

  lemma MatchesTransition(u: Setup, before: seq<Record>, r: Record, v: View, w: View)
    requires RecordGood(u, before, r) && r.key.TransitionKey?
    requires Matches(u, before, v) && ApplyRecord(v, r) == Some(w)
    ensures Matches(u, before + [r], w)
  {
    hide Inv, Planned, Apply, IsStateOf, Fold;
    EnvsAppend(u, before, r);
    RecordCases(u, before, r);
    if v.snapshot.Some? {
      assert (before + [r])[..|before|] == before;
      StateOfPrefix(u, before + [r], |before|, v.snapshot.value);
    }
  }

  lemma MatchesStep(u: Setup, before: seq<Record>, r: Record, v: View, w: View)
    requires SetupOk(u) && LogGood(u, before) && RecordGood(u, before, r)
    requires Matches(u, before, v) && ApplyRecord(v, r) == Some(w)
    ensures Matches(u, before + [r], w)
  {
    hide Inv, Planned, Apply, LogGood, Ledger, Fold, Filed;
    if r.key.TransitionKey? {
      MatchesTransition(u, before, r, v, w);
    } else {
      EnvsAppend(u, before, r);
      RecordCases(u, before, r);
      if r.key.SnapshotKey? {
        LogIsLedger(u, before);
        StateIsSound(u, Envs(u, before), r.value.value.snapshot);
      }
    }
  }

  lemma StateIsSound(u: Setup, envs: seq<Envelope>, s: Snapshot)
    requires SetupOk(u) && Ledger(u, envs) && IsStateOf(u.base, envs, s)
    ensures Inv(s, u.refsOf)
  {
    var k := s.sequence - u.base.sequence;
    LedgerPrefix(u, envs, k);
    LedgerFolds(u, envs[..k]);
  }

  /** What a replica has stored after reading a sound log is exactly its envelopes. */
  lemma {:induction false} ConsumedMatches(u: Setup, log: seq<Record>, v: View)
    requires SetupOk(u) && LogGood(u, log) && Consume(log) == Some(v)
    ensures Matches(u, log, v)
    decreases |log|
  {
    hide Inv, Planned, Matches, ApplyRecord, RecordGood, Fold, Envs, IsStateOf, SetupOk;
    if |log| == |Genesis(u)| {
      assert log == Genesis(u);
      MatchesGenesis(u, v);
    } else {
      var n := |log| - 1;
      LogGoodPrefix(u, log, n);
      var w := Consume(log[..n]).value;
      ConsumedMatches(u, log[..n], w);
      assert log == log[..n] + [log[n]];
      MatchesStep(u, log[..n], log[n], w, v);
    }
  }

  lemma MatchesLast(u: Setup, log: seq<Record>, v: View)
    requires SetupOk(u) && LogGood(u, log) && Matches(u, log, v)
    ensures Last(v) == u.base.sequence + |Envs(u, log)|
  {
    LogIsLedger(u, log);
    LedgerFolds(u, Envs(u, log));
    var last: Uint64 := StateOf(u, Envs(u, log)).sequence;
    assert IsLast(v, last);
    LastIsUnique(v, last);
  }
}
