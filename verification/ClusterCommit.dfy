/** Appending: commits, announcements and snapshots. */
module ClusterCommit {
  import opened Domain
  import opened State
  import opened Commands
  import opened RegistryInvariant
  import opened Durable
  import opened Kafka
  import opened ReplicatedLog
  import opened Cluster
  import opened ClusterInvariant
  import opened ClusterSteps

  /** At most one replica can append. */
  lemma OnlyOneLive(u: Setup, c: Cluster, p: string, q: string)
    requires ClusterInv(u, c) && p in c.replicas && q in c.replicas && p != q && Live(c, c.replicas[p])
    ensures !Live(c, c.replicas[q])
  {
    hide SetupOk, LogGood, WritersOk, AckedKept, AnswersKept, ReplicaInv;
  }

  /** A leaseholder the broker accepts has read everything other producers wrote. */
  lemma LeaderHasReadOthers(u: Setup, c: Cluster, id: string, r: Replica)
    requires WritersOk(c) && ReplicaInv(u, c, id, r) && r.lease.Some? && Live(c, r)
    ensures forall i :: r.position <= i < |c.log| ==> c.writers[i] == c.producer
  {
    hide Consume, Apply, Last, HasRead, Genesis, ActivationInv;
    var a :| 0 <= a < r.position && a < |c.writers| && r.producer == Some(c.writers[a]);
    assert forall i :: r.position <= i < |c.log| ==> c.writers[a] <= c.writers[i];
  }

  /** If all that follows `p` is old or is `e`, the ledger after `p` grows by `e` at most. */
  lemma {:induction false} EnvsBeyond(u: Setup, log: seq<Record>, p: nat, e: Envelope)
    requires LogGood(u, log) && |Genesis(u)| <= p <= |log|
    requires e.Seq() == u.base.sequence + |Envs(u, log[..p])| + 1
    requires forall i :: p <= i < |log| && log[i].key.TransitionKey? ==>
               log[i].key.sequence < e.Seq() || log[i] == TransitionRecord(e)
    ensures Envs(u, log) == Envs(u, log[..p]) || Envs(u, log) == Envs(u, log[..p]) + [e]
    decreases |log|
  {
    hide Fold, Planned, Filed, IsStateOf, Genesis;
    if p == |log| {
      assert log[..p] == log;
    } else {
      var n := |log| - 1;
      LogGoodPrefix(u, log, n);
      assert log[..n][..p] == log[..p];
      EnvsBeyond(u, log[..n], p, e);
      assert RecordGood(u, log[..n], log[n]);
      if Extending(u, |Envs(u, log[..n])|, log[n]) {
        RecordCases(u, log[..n], log[n]);
        assert log[n].key.TransitionKey? && log[n].key.sequence == log[n].value.value.envelope.Seq();
      }
    }
  }

  /** A proposing machine that passes the sequence check holds the state after everything read. */
  lemma ProposerIsCurrent(u: Setup, c: Cluster, id: string, r: Replica, m: Snapshot, e: Envelope)
    requires SetupOk(u) && LogGood(u, c.log) && ReplicaInv(u, c, id, r)
    requires r.machine == Some(m) && Apply(m, e).Ok? && CheckSequence(r.view, e).Fresh?
    ensures |Genesis(u)| <= r.position
    ensures Last(r.view) == u.base.sequence + |Envs(u, c.log[..r.position])|
    ensures e.Seq() == Last(r.view) + 1
    ensures Fold(u.base, Envs(u, c.log[..r.position])) == Ok(m)
  {
    hide Inv, LogGood, Consume, Envs, Genesis, ActivationInv, OwnPending, Last;
    var log := c.log[..r.position];
    LogGoodPrefix(u, c.log, r.position);
    ConsumedMatches(u, log, r.view);
    MatchesLast(u, log, r.view);
    var envs := Envs(u, log);
    assert envs[..|envs|] == envs;
  }

  lemma ObservedCommitIsGood(u: Setup, c: Cluster, id: string, r: Replica, command: Command)
    requires ClusterInv(u, c) && ReplicaInv(u, c, id, r) && r.lease.Some? && Live(c, r)
    requires Proposes(u, r, command) && CheckSequence(r.view, Proposal(u, r, command)).Fresh?
    requires OwnWritesObserved(c, r, Proposal(u, r, command))
    ensures RecordGood(u, c.log, TransitionRecord(Proposal(u, r, command)))
  {
    hide LogGood, Consume, Envs, ActivationInv, HasRead, Inv, Ledger, PlanCommand, Apply, AckedKept, AnswersKept, Last;
    var e, p := Proposal(u, r, command), r.position;
    ProposerIsCurrent(u, c, id, r, r.machine.value, e);
    LeaderHasReadOthers(u, c, id, r);
    EnvsBeyond(u, c.log, p, e);
    var before, envs := Envs(u, c.log[..p]), Envs(u, c.log);
    if envs == before {
      assert Planned(u, Fold(u.base, envs).value, e);
    } else {
      assert envs[|before|] == e;
    }
  }

  lemma UnobservedCommitIsBad(u: Setup, c: Cluster, id: string, r: Replica, command: Command)
    requires ClusterInv(u, c) && ReplicaInv(u, c, id, r) && r.lease.Some? && Live(c, r)
    requires Proposes(u, r, command) && CheckSequence(r.view, Proposal(u, r, command)).Fresh?
    requires !OwnWritesObserved(c, r, Proposal(u, r, command))
    ensures !RecordGood(u, c.log, TransitionRecord(Proposal(u, r, command)))
    ensures exists i :: 0 <= i < |c.log| && c.log[i].key == TransitionRecord(Proposal(u, r, command)).key
              && c.log[i] != TransitionRecord(Proposal(u, r, command))
  {
    hide Consume, Envs, ActivationInv, HasRead, Inv, Ledger, PlanCommand, Last, AckedKept, AnswersKept, Fold, Apply;
    var e := Proposal(u, r, command);
    ProposerIsCurrent(u, c, id, r, r.machine.value, e);
    var i :| r.position <= i < |c.log| && i < |c.writers| && r.producer == Some(c.writers[i])
        && c.log[i].key.TransitionKey?
             && c.log[i].key.sequence > Last(r.view) && c.log[i] != TransitionRecord(e);
    assert RecordGood(u, c.log[..i], c.log[i]);
    RecordIsFiled(u, c.log, i);
    var other := c.log[i].value.value.envelope;
    assert other != e && other.Seq() == e.Seq();
  }

  /** A sound transition record is in the ledger. */
  lemma RecordIsFiled(u: Setup, log: seq<Record>, i: nat)
    requires LogGood(u, log) && |Genesis(u)| <= i < |log| && log[i].key.TransitionKey?
    ensures log[i].value.Some? && log[i].value.value.EnvelopeValue?
    ensures log[i] == TransitionRecord(log[i].value.value.envelope)
    ensures Filed(u, Envs(u, log), log[i].value.value.envelope)
  {
    hide Fold, Planned, Envs, Genesis;
    assert RecordGood(u, log[..i], log[i]);
    RecordCases(u, log[..i], log[i]);
    EnvsAppend(u, log[..i], log[i]);
    assert log[..i + 1] == log[..i] + [log[i]];
    var e, before := log[i].value.value.envelope, Envs(u, log[..i]);
    if !Extending(u, |before|, log[i]) { FiledLater(u, log, i, e); }
    else { FiledLater(u, log, i + 1, e); }
  }

  /** For a leaseholder the broker accepts, a commit that passes every check of the code keeps the
      log sound exactly when the replica has observed its own earlier writes. */
  lemma CommitIsSoundIffObserved(u: Setup, c: Cluster, id: string, command: Command)
    requires ClusterInv(u, c) && Enabled(u, c, Propose(id, command, true))
    ensures LogGood(u, After(u, c, Propose(id, command, true)).log)
      <==> OwnWritesObserved(c, c.replicas[id], Proposal(u, c.replicas[id], command))
  {
    hide SetupOk, LogGood, Envs, Ledger, PlanCommand, Apply, AckedKept, AnswersKept, Last, RecordGood, ReplicaInv,
      CheckSequence, OwnWritesObserved;
    var r := c.replicas[id];
    var e := Proposal(u, r, command);
    assert ReplicaInv(u, c, id, r);
    LogGoodAppend(u, c.log, TransitionRecord(e));
    if OwnWritesObserved(c, r, e) { ObservedCommitIsGood(u, c, id, r, command); }
    else { UnobservedCommitIsBad(u, c, id, r, command); }
  }

  lemma InflightReplica(u: Setup, c: Cluster, id: string, r: Replica, e: Envelope)
    requires ReplicaInv(u, c, id, r) && r.machine.Some? && Apply(r.machine.value, e).Ok?
    ensures ReplicaInv(u, c, id, r.(inflight := Some(e)))
  {
    hide Consume, Envs, IsStateOf, Apply, Last, Genesis, ActivationInv;
    SameActivation(c, id, r, r.(inflight := Some(e)));
    if r.lease.Some? {
      var i :| 0 <= i < r.position && i < |c.writers| && r.producer == Some(c.writers[i]);
    }
  }

  lemma AppendByLive(u: Setup, c: Cluster, id: string, record: Record)
    requires ClusterInv(u, c) && RecordGood(u, c.log, record) && id in c.replicas && Live(c, c.replicas[id])
    requires record.key.TransitionKey? ==> record.key.sequence <= Last(c.replicas[id].view) + 1
    requires record.key.PrimaryKey? ==> OwnAnnouncement(id, record)
    requires c.replicas[id].activation.Idle?
    ensures ClusterInv(u, Append(c, record))
  {
    hide SetupOk, LogGood, WritersOk, AckedKept, AnswersKept, ReplicaInv, RecordGood, Last, ClusterInv;
    forall x | x in c.replicas
      ensures var r := c.replicas[x];
        && (record.key.TransitionKey? && Live(c, r) ==> record.key.sequence <= Last(r.view) + 1)
        && (!r.activation.Idle? ==> !OwnAnnouncement(x, record))
        && (r.activation.Announced? ==> !Live(c, r))
    {
      if x != id { OnlyOneLive(u, c, id, x); }
    }
    AppendKeepsInv(u, c, record);
  }

  lemma ProposeKeepsInv(u: Setup, c: Cluster, id: string, command: Command, written: bool)
    requires ClusterInv(u, c) && Enabled(u, c, Propose(id, command, written))
    requires written ==> OwnWritesObserved(c, c.replicas[id], Proposal(u, c.replicas[id], command))
    ensures ClusterInv(u, After(u, c, Propose(id, command, written)))
  {
    hide SetupOk, LogGood, WritersOk, AckedKept, AnswersKept, ReplicaInv, RecordGood, Last, PlanCommand, Apply,
      Distinct, OwnWritesObserved;
    var r := c.replicas[id];
    var e := Proposal(u, r, command);
    var d := if written then Append(c, TransitionRecord(e)) else c;
    assert ReplicaInv(u, c, id, r);
    if written {
      ObservedCommitIsGood(u, c, id, r, command);
      AppendByLive(u, c, id, TransitionRecord(e));
    }
    assert ClusterInv(u, d) && d.replicas == c.replicas && ReplicaInv(u, d, id, r);
    InflightReplica(u, d, id, r, e);
    PutKeepsInv(u, d, id, r.(inflight := Some(e)));
  }

  lemma AnnounceKeepsInv(u: Setup, c: Cluster, id: string, reported: bool)
    requires ClusterInv(u, c) && Enabled(u, c, Announce(id, reported))
    ensures ClusterInv(u, After(u, c, Announce(id, reported)))
  {
    hide SetupOk, LogGood, WritersOk, AckedKept, AnswersKept, ReplicaInv, Last, Envs, Fold, IsStateOf, Distinct,
      ActivationInv;
    var r := c.replicas[id];
    var a, record := r.activation, PrimaryRecord(id, r.activation.epoch);
    assert ReplicaInv(u, c, id, r);
    IdleReplica(u, c, id, r);
    PutKeepsInv(u, c, id, r.(activation := Idle));
    var idle := Put(c, id, r.(activation := Idle));
    AppendByLive(u, idle, id, record);
    var d := Append(idle, record);
    if reported {
      var q := r.(activation := Announced(a.epoch, a.start, |c.log|));
      assert ReplicaInv(u, d, id, r.(activation := Idle));
      AnnouncedActivation(u, c, id, r, d, q);
      LocalActivation(u, d, id, r.(activation := Idle), q);
      PutKeepsInv(u, d, id, q);
      assert After(u, c, Announce(id, reported)) == Put(d, id, q);
    } else {
      assert After(u, c, Announce(id, reported)) == d;
    }
  }

  lemma IdleReplica(u: Setup, c: Cluster, id: string, r: Replica)
    requires ReplicaInv(u, c, id, r)
    ensures ReplicaInv(u, c, id, r.(activation := Idle))
  {
    hide ReplicaInv;
    LocalActivation(u, c, id, r, r.(activation := Idle));
  }

  lemma AnnouncedActivation(u: Setup, c: Cluster, id: string, r: Replica, d: Cluster, q: Replica)
    requires ReplicaInv(u, c, id, r) && WritersOk(c) && r.activation.Announcing? && Live(c, r)
    requires d.log == c.log + [PrimaryRecord(id, r.activation.epoch)] && d.writers == c.writers + [c.producer]
    requires q == r.(activation := Announced(r.activation.epoch, r.activation.start, |c.log|))
    ensures ActivationInv(d, id, q)
  {
    hide Consume, Apply, Last, HasRead, Genesis;
    PrefixOfAppend(c.log, PrimaryRecord(id, r.activation.epoch), r.activation.start);
  }

  lemma SaveSnapshotKeepsInv(u: Setup, c: Cluster, id: string)
    requires ClusterInv(u, c) && Enabled(u, c, SaveSnapshot(id))
    ensures ClusterInv(u, After(u, c, SaveSnapshot(id)))
  {
    hide SetupOk, LogGood, WritersOk, AckedKept, AnswersKept, Last, Envs, Distinct, IsStateOf, ActivationInv, Consume,
      Apply;
    var r := c.replicas[id];
    assert ReplicaInv(u, c, id, r);
    StateOfPrefix(u, c.log, r.position, r.captured.value);
    AppendByLive(u, c, id, Record(SnapshotKey, Some(SnapshotValue(r.captured.value))));
  }

  lemma AcknowledgeKeepsInv(u: Setup, c: Cluster, id: string)
    requires ClusterInv(u, c) && Enabled(u, c, Acknowledge(id))
    ensures ClusterInv(u, After(u, c, Acknowledge(id)))
  {
    hide SetupOk, LogGood, WritersOk, Last, Envs, Distinct, IsStateOf, Consume, ActivationInv, OwnPending, Genesis,
      Filed, StateOf, Ledger;
    var r := c.replicas[id];
    assert ReplicaInv(u, c, id, r);
    var m, e := r.machine.value, r.inflight.value;
    NextState(u, c, r, m, e);
    var q := r.(inflight := None, machine := Some(Apply(m, e).value));
    MachineKeepsReplica(u, c, id, r, q);
    PutKeepsInv(u, c, id, q);
    var d := Put(c, id, q);
    FiledLater(u, c.log, r.position, e);
    LogIsLedger(u, c.log);
    LedgerFolds(u, Envs(u, c.log));
    FiledIsRecorded(u, c.log, e);
    var f := After(u, c, Acknowledge(id));
    BookkeepingKeepsInv(u, d, f);
  }

  lemma FiledIsRecorded(u: Setup, log: seq<Record>, e: Envelope)
    requires SetupOk(u) && LogGood(u, log) && Filed(u, Envs(u, log), e)
    ensures e.body.op != "" ==> e.body.op in StateOf(u, Envs(u, log)).operations
    ensures e.body.op != "" ==> StateOf(u, Envs(u, log)).operations[e.body.op] == e.body.result
  {
    hide SetupOk, LogGood, Envs, StateOf, Ledger;
    LogIsLedger(u, log);
    LedgerFolds(u, Envs(u, log));
  }

  /** Recording what clients were told touches no replica and no record. */
  lemma BookkeepingKeepsInv(u: Setup, d: Cluster, f: Cluster)
    requires ClusterInv(u, d) && f == d.(acked := f.acked, answers := f.answers)
    requires AckedKept(u, f) && AnswersKept(u, f)
    ensures ClusterInv(u, f)
  {
    hide SetupOk, LogGood, ReplicaInv, AckedKept, AnswersKept;
    forall id | id in f.replicas ensures ReplicaInv(u, f, id, f.replicas[id]) {
      PutKeepsReplica(u, d, f, id, f.replicas[id]);
    }
  }

  /** An answer from the record of a machine agrees with the whole log. */
  lemma AskKeepsInv(u: Setup, c: Cluster, id: string, command: Command)
    requires ClusterInv(u, c) && Enabled(u, c, Ask(id, command))
    ensures ClusterInv(u, After(u, c, Ask(id, command)))
  {
    hide SetupOk, LogGood, WritersOk, Last, Envs, Distinct, Consume, ActivationInv, OwnPending, Genesis, StateOf,
      Ledger, Filed, Fold, PlanCommand, Apply;
    var r := c.replicas[id];
    assert ReplicaInv(u, c, id, r);
    MachineIsEarlier(u, c, r, r.machine.value);
    BookkeepingKeepsInv(u, c, After(u, c, Ask(id, command)));
  }

  /** Nothing a machine has recorded is missing from or different in the whole log's state. */
  lemma MachineIsEarlier(u: Setup, c: Cluster, r: Replica, m: Snapshot)
    requires SetupOk(u) && LogGood(u, c.log) && HasRead(u, c, r, m)
    ensures Inv(m, u.refsOf) && Extends(m, StateOf(u, Envs(u, c.log)))
  {
    hide Inv, LogGood, Envs, Ledger, Extends, Genesis, Fold;
    StateOfPrefix(u, c.log, r.position, m);
    var envs, k := Envs(u, c.log), m.sequence - u.base.sequence;
    LogIsLedger(u, c.log);
    LedgerPrefix(u, envs, k);
    LedgerFolds(u, envs[..k]);
  }
}
