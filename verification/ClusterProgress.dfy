/** What the cluster's steps achieve: followers reach the end of what they have read, acknowledged
    commands are applied and stay recognised, saved snapshots are read back (internal/domain/machine.go,
    internal/app/app.go, internal/storage/kafka/store.go). */
module ClusterProgress {
  import opened Domain
  import opened State
  import opened Commands
  import opened RegistryInvariant
  import opened Durable
  import opened Kafka
  import opened KafkaReading
  import opened ReplicatedLog
  import opened Cluster
  import opened ClusterInvariant
  import opened ClusterSteps
  import opened ClusterRuns

  /** The envelopes a replica has read. */
  ghost function ReadEnvs(u: Setup, c: Cluster, r: Replica): seq<Envelope>
    requires r.position <= |c.log|
  {
    Envs(u, c.log[..r.position])
  }

  lemma FoldNext(base: Snapshot, log: seq<Envelope>, m: Snapshot)
    requires Fold(base, log).Ok? && IsStateOf(base, log, m) && m.sequence < base.sequence + |log|
    ensures Apply(m, log[m.sequence - base.sequence]).Ok?
    ensures IsStateOf(base, log, Apply(m, log[m.sequence - base.sequence]).value)
  {
    hide Apply;
    var k := m.sequence - base.sequence;
    FoldPrefix(base, log, k + 1);
    assert log[..k + 1][..k] == log[..k];
  }

  /** What a replica's machine and view have to do with the envelopes it has read. */
  lemma ReadFacts(u: Setup, c: Cluster, id: string)
    requires ClusterInv(u, c) && id in c.replicas && c.replicas[id].machine.Some?
    ensures var r := c.replicas[id];
      && r.position <= |c.log|
      && var envs := ReadEnvs(u, c, r);
         && Fold(u.base, envs).Ok? && IsStateOf(u.base, envs, r.machine.value)
         && Last(r.view) == u.base.sequence + |envs|
         && forall k: Uint64 :: u.base.sequence < k <= Last(r.view) ==>
              k in r.view.items && r.view.items[k] == envs[k - u.base.sequence - 1]
  {
    hide LogGood, Envs, Inv, Consume, ActivationInv, OwnPending, AckedKept, AnswersKept, WritersOk, Distinct, Last,
      Apply, Ledger, IsStateOf, Fold;
    var r := c.replicas[id];
    assert ReplicaInv(u, c, id, r);
    var log := c.log[..r.position];
    LogGoodPrefix(u, c.log, r.position);
    ConsumedMatches(u, log, r.view);
    MatchesLast(u, log, r.view);
    LogIsLedger(u, log);
    LedgerFolds(u, Envs(u, log));
  }

  /** Delivering the next envelope moves the machine to the next state of the log. */
  lemma DeliveryAdvances(u: Setup, c: Cluster, id: string) returns (next: Snapshot)
    requires ClusterInv(u, c) && id in c.replicas && c.replicas[id].machine.Some? && c.replicas[id].inflight.None?
    requires c.replicas[id].machine.value.sequence < Last(c.replicas[id].view)
    ensures next.sequence == c.replicas[id].machine.value.sequence + 1
    ensures Enabled(u, c, Deliver(id, next.sequence))
    ensures After(u, c, Deliver(id, next.sequence)) == Put(c, id, c.replicas[id].(machine := Some(next)))
    ensures c.replicas[id].position <= |c.log| && IsStateOf(u.base, ReadEnvs(u, c, c.replicas[id]), next)
  {
    hide ClusterInv, Envs, Last, Apply, Fold, IsStateOf;
    ReadFacts(u, c, id);
    var r := c.replicas[id];
    var m, envs := r.machine.value, ReadEnvs(u, c, r);
    assert u.base.sequence <= m.sequence by { StateIsAbove(u.base, envs, m); }
    FoldNext(u.base, envs, m);
    assert r.view.items[m.sequence + 1] == envs[m.sequence - u.base.sequence];
    next := Apply(m, envs[m.sequence - u.base.sequence]).value;
  }

  lemma StateIsAbove(base: Snapshot, log: seq<Envelope>, m: Snapshot)
    requires IsStateOf(base, log, m)
    ensures base.sequence <= m.sequence <= base.sequence + |log|
  {
  }

  /** Delivering any other envelope changes nothing. */
  lemma OnlyTheNextAdvances(u: Setup, c: Cluster, id: string, sequence: Uint64)
    requires ClusterInv(u, c) && Enabled(u, c, Deliver(id, sequence))
    requires sequence != c.replicas[id].machine.value.sequence + 1
    ensures After(u, c, Deliver(id, sequence)).replicas[id] == c.replicas[id]
  {
    hide LogGood, Envs, Inv, Consume, ActivationInv, OwnPending, AckedKept, AnswersKept, WritersOk, Distinct, Last,
      HasRead;
    var r := c.replicas[id];
    assert ReplicaInv(u, c, id, r);
    ItemsAreFiledUnderTheirSequence(c.log, r.position, r.view, sequence);
  }

  /** The deliveries of one pass over what has been read. */
  function Deliveries(id: string, from: Uint64, upTo: Uint64): seq<Step>
    decreases upTo - from
  {
    if from >= upTo then [] else [Deliver(id, from + 1)] + Deliveries(id, from + 1, upTo)
  }

  /** Following the log to the end of what was read leaves the machine at the fold of all of it. */
  lemma {:induction false} FollowerCatchesUp(u: Setup, c: Cluster, id: string)
    requires ClusterInv(u, c) && id in c.replicas && c.replicas[id].machine.Some? && c.replicas[id].inflight.None?
    ensures var r := c.replicas[id];
            var steps := Deliveries(id, r.machine.value.sequence, Last(r.view));
      && IsRun(u, c, steps) && IsCareful(u, c, steps) && r.position <= |c.log|
      && var q := Final(u, c, steps).replicas;
         && id in q && q[id].machine.Some? && q[id].machine.value.sequence == Last(r.view)
         && Fold(u.base, ReadEnvs(u, c, r)) == Ok(q[id].machine.value)
    decreases Last(c.replicas[id].view) - c.replicas[id].machine.value.sequence
  {
    hide ClusterInv, Envs, Last, Fold, EnabledAt, AfterAt;
    var r := c.replicas[id];
    ReadFacts(u, c, id);
    var m, envs := r.machine.value, ReadEnvs(u, c, r);
    StateIsAbove(u.base, envs, m);
    if m.sequence < Last(r.view) {
      var next := DeliveryAdvances(u, c, id);
      var step := Deliver(id, next.sequence);
      var d := After(u, c, step);
      StepKeepsClusterInv(u, c, step);
      FollowerCatchesUp(u, d, id);
      var rest := Deliveries(id, m.sequence + 1, Last(r.view));
      assert ([step] + rest)[0] == step && ([step] + rest)[1..] == rest;
    } else {
      assert envs[..|envs|] == envs;
    }
  }

  // ---- commits ----

  /** An acknowledged commit is applied: the machine is one envelope further and has the result on
      record, and the client is told that result. */
  lemma AcknowledgedIsApplied(u: Setup, c: Cluster, id: string)
    requires ClusterInv(u, c) && Enabled(u, c, Acknowledge(id))
    ensures var e, d := c.replicas[id].inflight.value, After(u, c, Acknowledge(id));
      && e in d.acked && d.replicas[id].inflight.None? && d.replicas[id].machine.Some?
      && d.replicas[id].machine.value.sequence == e.Seq()
      && (e.body.op != "" ==>
            && (e.body.op, e.body.result) in d.answers
            && e.body.op in d.replicas[id].machine.value.operations
            && d.replicas[id].machine.value.operations[e.body.op] == e.body.result)
  {
    hide LogGood, Envs, Inv, Consume, ActivationInv, OwnPending, AckedKept, AnswersKept, WritersOk, Distinct, Last,
      HasRead, Validate, ApplyPayload;
    assert ReplicaInv(u, c, id, c.replicas[id]);
  }

  /** An acknowledged envelope that is committed again, after any careful run, at a primary that has read
      everything is recognised as a retry; nothing else gets its number. */
  lemma AcknowledgedIsRetry(u: Setup, c: Cluster, steps: seq<Step>, e: Envelope, id: string, other: Envelope)
    requires ClusterInv(u, c) && IsRun(u, c, steps) && IsCareful(u, c, steps) && e in c.acked
    requires id in Final(u, c, steps).replicas
    requires Final(u, c, steps).replicas[id].position == |Final(u, c, steps).log|
    ensures var v := Final(u, c, steps).replicas[id].view;
      && CheckSequence(v, e).Retry?
      && (other != e && other.Seq() == e.Seq() ==> CheckSequence(v, other).Rejected?)
  {
    hide IsRun, IsCareful, Final, LogGood, Envs, AnswersKept, Inv, Distinct, WritersOk, Consume, CheckSequence,
      ActivationInv, OwnPending, HasRead, Apply;
    var f := Final(u, c, steps);
    AcknowledgedSurvivesFailover(u, c, steps, e, id);
    RunKeepsClusterInv(u, c, steps);
    var r := f.replicas[id];
    assert ReplicaInv(u, f, id, r);
    assert f.log[..|f.log|] == f.log;
    SequenceCheckIff(u, f.log, r.view, e);
    SequenceCheckIff(u, f.log, r.view, other);
    assert e in Envs(u, f.log);
  }

  /** Who proposes is the primary announced last among what it has read. */
  lemma ProposerIsAnnounced(u: Setup, c: Cluster, id: string, command: Command, written: bool)
    requires ClusterInv(u, c) && Enabled(u, c, Propose(id, command, written))
    ensures var r := c.replicas[id];
      && r.position <= |c.log| && r.lease.Some?
      && NewestPrimary(c.log[..r.position]).holder == r.lease.value.holder != ""
      && NewestPrimary(c.log[..r.position]).epoch == r.lease.value.epoch != 0
  {
    hide LogGood, Envs, Inv, Consume, ActivationInv, OwnPending, AckedKept, AnswersKept, WritersOk, Distinct, Last,
      HasRead, Apply, CheckSequence, Proposes;
    assert ReplicaInv(u, c, id, c.replicas[id]);
    ReadableIff(c.log[..c.replicas[id].position]);
  }

  /** A saved snapshot is what every replica holds once it has read that far. */
  lemma SavedSnapshotIsRead(u: Setup, c: Cluster, id: string, q: string)
    requires ClusterInv(u, c) && Enabled(u, c, SaveSnapshot(id))
    requires q in c.replicas && c.replicas[q].position == |c.log|
    ensures var d := After(u, c, SaveSnapshot(id));
      && Enabled(u, d, Read(q))
      && After(u, d, Read(q)).replicas[q].view.snapshot == c.replicas[id].captured
      && After(u, d, Read(q)).replicas[q].position == |d.log|
  {
    hide LogGood, Envs, Inv, Consume, Validate, ClusterInv, Last;
  }
}
