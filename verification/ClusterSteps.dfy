/** Every step of a careful run keeps the cluster invariant. */
module ClusterSteps {
  import opened Domain
  import opened State
  import opened Commands
  import opened RegistryInvariant
  import opened Durable
  import opened Kafka
  import opened ReplicatedLog
  import opened KafkaRecovery
  import opened Cluster
  import opened ClusterInvariant

  // ---- opening and recovering ----

  lemma OpenedReplica(u: Setup, c: Cluster, id: string)
    requires ClusterInv(u, c) && id != ""
    ensures ReplicaInv(u, c, id, Opened(c))
  {
    hide SetupOk, ReplicaInv, WritersOk, AckedKept, AnswersKept;
    assert c.log[..0] == [];
    OpenedReplicaInv(u, c, id);
  }

  lemma OpenedReplicaInv(u: Setup, c: Cluster, id: string)
    requires |Genesis(u)| <= |c.log| && WritersOk(c) && id != "" && c.log[..0] == []
    ensures ReplicaInv(u, c, id, Opened(c))
  {
  }

  /** The replica's recovered machine holds the fold of everything the replica has read. */
  lemma RecoveredReplica(u: Setup, c: Cluster, id: string, r: Replica, q: Replica)
    requires ClusterInv(u, c) && ReplicaInv(u, c, id, r)
    requires r.machine.None? && r.position >= r.bootEnd && Recover(r.view).Ok?
    requires q == r.(machine := Some(Recover(r.view).value))
    ensures ReplicaInv(u, c, id, q)
  {
    hide Recover, Consume, Envs, Inv, Ledger, LogGood, Apply, Last, Genesis, Validate;
    var p := r.position;
    LogGoodPrefix(u, c.log, p);
    RecoveryIsFullReplay(u, c.log[..p], r.view);
    var envs := Envs(u, c.log[..p]);
    assert envs[..|envs|] == envs;
    SameActivation(c, id, r, q);
  }

  // ---- the machine ----

  /** Applying the next envelope a replica has read leads to the next state of the log. */
  lemma NextState(u: Setup, c: Cluster, r: Replica, m: Snapshot, e: Envelope)
    requires SetupOk(u) && LogGood(u, c.log) && HasRead(u, c, r, m)
    requires Consume(c.log[..r.position]) == Some(r.view)
    requires Apply(m, e).Ok? && e.Seq() in r.view.items && r.view.items[e.Seq()] == e
    ensures HasRead(u, c, r, Apply(m, e).value)
    ensures Filed(u, Envs(u, c.log[..r.position]), e)
  {
    hide Inv, LogGood, Envs, Genesis, Consume;
    var log := c.log[..r.position];
    LogGoodPrefix(u, c.log, r.position);
    ConsumedMatches(u, log, r.view);
    var envs := Envs(u, log);
    var k := m.sequence - u.base.sequence;
    assert envs[k] == e;
    assert envs[..k + 1][..k] == envs[..k];
  }

  lemma MachineKeepsReplica(u: Setup, c: Cluster, id: string, r: Replica, q: Replica)
    requires ReplicaInv(u, c, id, r) && q == r.(machine := q.machine, inflight := None)
    requires q.machine.Some? ==> HasRead(u, c, r, q.machine.value)
    ensures ReplicaInv(u, c, id, q)
  {
    hide Consume, Envs, IsStateOf, Apply, Last, Genesis, ActivationInv;
    SameActivation(c, id, r, q);
    if r.lease.Some? {
      var i :| 0 <= i < r.position && i < |c.writers| && r.producer == Some(c.writers[i]);
      assert i < q.position;
    }
  }

  lemma DeliveredReplica(u: Setup, c: Cluster, id: string, r: Replica, sequence: Uint64, q: Replica)
    requires ClusterInv(u, c) && ReplicaInv(u, c, id, r)
    requires r.machine.Some? && r.inflight.None? && sequence in r.view.items
    requires var next := ApplyCommitted(r.machine.value, r.view.items[sequence]);
             q == r.(machine := if next.Ok? then Some(next.value) else r.machine)
    ensures ReplicaInv(u, c, id, q)
  {
    hide Consume, Envs, IsStateOf, Apply, Last, Genesis, ActivationInv, SetupOk, LogGood, AckedKept, AnswersKept,
      Distinct, WritersOk;
    var m, e := r.machine.value, r.view.items[sequence];
    if e.Seq() > m.sequence && Apply(m, e).Ok? {
      ItemsAreFiledUnderTheirSequence(c.log, r.position, r.view, sequence);
      NextState(u, c, r, m, e);
    }
    MachineKeepsReplica(u, c, id, r, q);
  }

  lemma {:induction false} ItemsAreFiledUnderTheirSequence(log: seq<Record>, p: nat, v: View, sequence: Uint64)
    requires p <= |log| && Consume(log[..p]) == Some(v) && sequence in v.items
    ensures v.items[sequence].Seq() == sequence
    decreases p
  {
    hide Restore;
    assert p > 0;
    assert log[..p][..p - 1] == log[..p - 1];
    var w := Consume(log[..p - 1]).value;
    if sequence in w.items { ItemsAreFiledUnderTheirSequence(log, p - 1, w, sequence); }
  }

  // ---- becoming primary ----

  /** Between choosing its epoch and reading its own announcement back, no view of the replica
      shows that announcement. */
  lemma {:induction false} NotYetAnnounced(
    log: seq<Record>, id: string, epoch: Uint64, start: nat, offset: nat, p: nat, v: View)
    requires EpochChosen(log, start, epoch) && start <= p <= offset <= |log| && NoOwn(log, start, offset, id)
    requires id != ""
    requires Consume(log[..p]) == Some(v)
    ensures v.primary != AnnouncementOf(id, epoch)
    decreases p
  {
    hide Restore;
    if p > start {
      assert log[..p][..p - 1] == log[..p - 1] && log[..p][p - 1] == log[p - 1];
      assert !OwnAnnouncement(id, log[p - 1]);
      var w := Consume(log[..p - 1]).value;
      NotYetAnnounced(log, id, epoch, start, offset, p - 1, w);
    }
  }

  /** A position before `start` has not reached the epoch either: epochs never fall. */
  lemma {:induction false} EpochsGrow(log: seq<Record>, p: nat, q: nat, v: View, w: View)
    requires p <= q <= |log| && Consume(log[..p]) == Some(v) && Consume(log[..q]) == Some(w)
    requires forall i :: 0 <= i < q ==> log[i].key.PrimaryKey? ==> log[i].value.Some?
    ensures v.primary.epoch <= w.primary.epoch
    decreases q
  {
    hide Restore;
    if p < q {
      assert log[..q][..q - 1] == log[..q - 1] && log[..q][q - 1] == log[q - 1];
      EpochsGrow(log, p, q - 1, v, Consume(log[..q - 1]).value);
    } else {
      assert v == w;
    }
  }

  lemma PrimariesHaveValues(u: Setup, log: seq<Record>)
    requires LogGood(u, log)
    ensures forall i :: 0 <= i < |log| ==> log[i].key.PrimaryKey? ==> log[i].value.Some?
  {
    hide Envs, Fold, Planned, IsStateOf, Filed;
    forall i | 0 <= i < |log| ensures log[i].key.PrimaryKey? ==> log[i].value.Some? {
      if i >= |Genesis(u)| { assert RecordGood(u, log[..i], log[i]); }
      else { assert log[i] == Genesis(u)[i]; }
    }
  }

  /** When the replica sees its announcement, it has read past it. */
  lemma GrantReadsAnnouncement(u: Setup, c: Cluster, id: string, r: Replica)
    requires ClusterInv(u, c) && ReplicaInv(u, c, id, r)
    requires r.activation.Announced? && r.view.primary == AnnouncementOf(id, r.activation.epoch)
    ensures r.position > r.activation.offset
  {
    hide Inv, LogGood, Apply, HasRead, Last;
    var a := r.activation;
    if r.position <= a.offset {
      if r.position >= a.start {
        NotYetAnnounced(c.log, id, a.epoch, a.start, a.offset, r.position, r.view);
      } else {
        PrimariesHaveValues(u, c.log);
        EpochsGrow(c.log, r.position, a.start, r.view, Consume(c.log[..a.start]).value);
        ReadPrimaryIsValid(c.log, r.position, r.view);
      }
      assert false;
    }
  }

  lemma {:induction false} ReadPrimaryIsValid(log: seq<Record>, p: nat, v: View)
    requires p <= |log| && Consume(log[..p]) == Some(v)
    ensures v.primary == NOBODY || v.primary.Valid()
    decreases p
  {
    hide Restore;
    if p > 0 {
      assert log[..p][..p - 1] == log[..p - 1];
      ReadPrimaryIsValid(log, p - 1, Consume(log[..p - 1]).value);
    }
  }

  lemma GrantedReplica(u: Setup, c: Cluster, id: string, r: Replica, q: Replica)
    requires ClusterInv(u, c) && ReplicaInv(u, c, id, r)
    requires r.activation.Announced? && r.view.primary == AnnouncementOf(id, r.activation.epoch)
    requires q == r.(lease := Some(Lease(id, r.activation.epoch)), activation := Idle)
    ensures ReplicaInv(u, c, id, q)
  {
    hide Consume, LogGood, SetupOk, Apply, Last, Envs, IsStateOf, Genesis, AckedKept, AnswersKept, Distinct;
    GrantReadsAnnouncement(u, c, id, r);
    assert 0 <= r.activation.offset < q.position && q.producer == Some(c.writers[r.activation.offset]);
    assert ReadOwn(c, q);
  }

  lemma LocalActivation(u: Setup, c: Cluster, id: string, r: Replica, q: Replica)
    requires ReplicaInv(u, c, id, r) && q == r.(activation := q.activation, lease := q.lease)
    requires q.lease == r.lease || q.lease == None
    requires ActivationInv(c, id, q)
    ensures ReplicaInv(u, c, id, q)
  {
    hide Consume, Apply, Last, Envs, IsStateOf, Genesis, ActivationInv;
    if q.lease.Some? {
      var i :| 0 <= i < r.position && i < |c.writers| && r.producer == Some(c.writers[i]);
      assert i < q.position;
    }
  }

  lemma ChosenEpoch(u: Setup, c: Cluster, id: string, r: Replica, q: Replica)
    requires ReplicaInv(u, c, id, r) && r.activation.CatchingUp? && r.position >= r.activation.end
    requires q == r.(activation := Announcing(NextU64(r.view.primary.epoch), r.position))
    ensures ReplicaInv(u, c, id, q)
  {
    hide Apply, Last, HasRead, Genesis;
    assert ActivationInv(c, id, q);
    LocalActivation(u, c, id, r, q);
  }

  lemma InitProducerKeepsInv(u: Setup, c: Cluster, id: string, r: Replica, d: Cluster)
    requires ClusterInv(u, c) && id in c.replicas && r == c.replicas[id]
    requires r.lease.None? && !r.activation.Announced?
    requires d == Put(c, id, r.(producer := Some(c.producer + 1))).(producer := c.producer + 1)
    ensures ClusterInv(u, d)
  {
    hide LogGood, SetupOk, StateOf, Envs, Filed, ReplicaInv;
    var q := r.(producer := Some(c.producer + 1));
    FreshProducer(u, c, id, r, q, d);
    forall x | x in d.replicas ensures ReplicaInv(u, d, x, d.replicas[x]) {
      if x != id { PutKeepsReplica(u, c, d, x, d.replicas[x]); }
    }
    OthersBelow(u, c);
  }

  lemma OthersBelow(u: Setup, c: Cluster)
    requires ClusterInv(u, c)
    ensures forall x :: x in c.replicas && c.replicas[x].producer.Some? ==> c.replicas[x].producer.value <= c.producer
  {
    hide LogGood, SetupOk, AckedKept, AnswersKept, Distinct, WritersOk;
    forall x | x in c.replicas && c.replicas[x].producer.Some? ensures c.replicas[x].producer.value <= c.producer {
      assert ReplicaInv(u, c, x, c.replicas[x]);
    }
  }

  lemma FreshProducer(u: Setup, c: Cluster, id: string, r: Replica, q: Replica, d: Cluster)
    requires ReplicaInv(u, c, id, r) && WritersOk(c) && r.lease.None? && !r.activation.Announced?
    requires d.log == c.log && d.writers == c.writers && d.producer == c.producer + 1
    requires q == r.(producer := Some(c.producer + 1))
    ensures ReplicaInv(u, d, id, q)
  {
    hide Consume, Apply, Last, Envs, IsStateOf, Genesis;
    SameActivation(c, id, r, q);
  }
}
