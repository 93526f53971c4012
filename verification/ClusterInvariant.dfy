/** What every step of the cluster keeps. */
module ClusterInvariant {
  import opened Domain
  import opened State
  import opened Commands
  import opened RegistryInvariant
  import opened Durable
  import opened Kafka
  import opened ReplicatedLog
  import opened Cluster

  /** Producers append in the order they were initialised: the fence. */
  ghost predicate WritersOk(c: Cluster) {
    && |c.writers| == |c.log|
    && (forall i, j :: 0 <= i < j < |c.writers| ==> c.writers[i] <= c.writers[j])
    && (forall i :: 0 <= i < |c.writers| ==> c.writers[i] <= c.producer)
  }

  ghost predicate OwnAnnouncement(id: string, r: Record) {
    r.key.PrimaryKey? && r.value.Some? && r.value.value.PrimaryValue? && r.value.value.announcement.holder == id
  }

  ghost predicate NoOwn(log: seq<Record>, from: nat, upTo: nat, id: string) {
    forall i :: from <= i < upTo && i < |log| ==> !OwnAnnouncement(id, log[i])
  }

  /** The epoch is the one after the newest announcement in the first `start` records. */
  ghost predicate EpochChosen(log: seq<Record>, start: nat, epoch: Uint64) {
    start <= |log| && Consume(log[..start]).Some? && epoch == NextU64(Consume(log[..start]).value.primary.epoch)
  }

  ghost predicate ActivationInv(c: Cluster, id: string, r: Replica) {
    match r.activation
    case Idle => true
    case CatchingUp(end) => end <= |c.log| && NoOwn(c.log, end, |c.log|, id)
    case Announcing(epoch, start) => EpochChosen(c.log, start, epoch) && NoOwn(c.log, start, |c.log|, id)
    case Announced(epoch, start, offset) =>
      && EpochChosen(c.log, start, epoch)
      && start <= offset < |c.log| && offset < |c.writers|
      && NoOwn(c.log, start, offset, id)
      && r.producer == Some(c.writers[offset])
      && (forall i :: offset < i < |c.writers| ==> r.producer != Some(c.writers[i]))
  }

  ghost predicate ReadOwn(c: Cluster, r: Replica) {
    exists i :: 0 <= i < r.position && i < |c.writers| && r.producer == Some(c.writers[i])
  }

  /** What the replica wrote and has not read back is numbered at most one above what it has read. */
  ghost predicate OwnPending(c: Cluster, r: Replica) {
    forall i :: r.position <= i < |c.log| && OwnTransition(c, r, i) ==>
      c.log[i].key.sequence <= Last(r.view) + 1
  }

  /** A machine state the replica has read the whole history of. */
  ghost predicate HasRead(u: Setup, c: Cluster, r: Replica, s: Snapshot) {
    |Genesis(u)| <= r.position <= |c.log| && IsStateOf(u.base, Envs(u, c.log[..r.position]), s)
  }

  ghost predicate ReplicaInv(u: Setup, c: Cluster, id: string, r: Replica) {
    && id != "" && |Genesis(u)| <= r.bootEnd <= |c.log|
    && r.position <= |c.log| && Consume(c.log[..r.position]) == Some(r.view)
    && (r.machine.Some? ==> HasRead(u, c, r, r.machine.value))
    && (r.captured.Some? ==> HasRead(u, c, r, r.captured.value))
    && (r.inflight.Some? ==> r.machine.Some? && Apply(r.machine.value, r.inflight.value).Ok?)
    && (r.producer.Some? ==> r.producer.value <= c.producer)
    && (r.lease.Some? ==> r.producer.Some? && ReadOwn(c, r))
    && OwnPending(c, r)
    && ActivationInv(c, id, r)
  }

  ghost predicate Distinct(c: Cluster) {
    forall p, q :: p in c.replicas && q in c.replicas && p != q && c.replicas[p].producer.Some? ==>
      c.replicas[p].producer != c.replicas[q].producer
  }

  ghost predicate AnswersKept(u: Setup, c: Cluster) {
    var s := StateOf(u, Envs(u, c.log));
    forall a :: a in c.answers ==> a.0 in s.operations && s.operations[a.0] == a.1
  }

  ghost predicate AckedKept(u: Setup, c: Cluster) {
    forall e :: e in c.acked ==> Filed(u, Envs(u, c.log), e)
  }

  ghost predicate ClusterInv(u: Setup, c: Cluster) {
    && SetupOk(u) && LogGood(u, c.log) && WritersOk(c) && Distinct(c)
    && AckedKept(u, c) && AnswersKept(u, c)
    && (forall id :: id in c.replicas ==> ReplicaInv(u, c, id, c.replicas[id]))
  }

  lemma InitialInv(u: Setup)
    requires SetupOk(u)
    ensures ClusterInv(u, Initial(u))
  {
    assert Genesis(u)[..|Genesis(u)|] == Genesis(u);
  }

  // ---- one replica changes, the log stays ----

  /** The invariant of a replica does not depend on the other replicas. */
  lemma PutKeepsReplica(u: Setup, c: Cluster, d: Cluster, id: string, r: Replica)
    requires d.log == c.log && d.writers == c.writers && c.producer <= d.producer
    requires ReplicaInv(u, c, id, r)
    ensures ReplicaInv(u, d, id, r)
  {
    hide IsStateOf, Consume, Apply, Envs, Genesis, Last;
    assert r.lease.Some? ==> ReadOwn(c, r);
  }

  lemma PutKeepsInv(u: Setup, c: Cluster, id: string, r: Replica)
    requires ClusterInv(u, c) && ReplicaInv(u, c, id, r)
    requires r.producer == None || (id in c.replicas && r.producer == c.replicas[id].producer)
    ensures ClusterInv(u, Put(c, id, r))
  {
    hide LogGood, SetupOk, ReplicaInv, StateOf, Envs, Filed;
    var d := Put(c, id, r);
    forall q | q in d.replicas ensures ReplicaInv(u, d, q, d.replicas[q]) {
      PutKeepsReplica(u, c, d, q, d.replicas[q]);
    }
  }

  // ---- a record is appended ----

  lemma PrefixOfAppend(log: seq<Record>, record: Record, p: nat)
    requires p <= |log|
    ensures (log + [record])[..p] == log[..p]
  {
  }

  lemma AppendKeepsActivation(c: Cluster, id: string, r: Replica, record: Record)
    requires ActivationInv(c, id, r) && WritersOk(c)
    requires !r.activation.Idle? ==> !OwnAnnouncement(id, record)
    requires r.activation.Announced? ==> !Live(c, r)
    ensures ActivationInv(Append(c, record), id, r)
  {
    hide Consume;
    match r.activation
    case Idle =>
    case CatchingUp(end) =>
    case Announcing(epoch, start) => PrefixOfAppend(c.log, record, start);
    case Announced(epoch, start, offset) => PrefixOfAppend(c.log, record, start);
  }

  /** A replica keeps its invariant when anyone appends, if its own transition is the next one it
      expects and it does not append behind its own announcement. */
  lemma AppendKeepsReplica(u: Setup, c: Cluster, id: string, r: Replica, record: Record)
    requires ReplicaInv(u, c, id, r) && WritersOk(c)
    requires record.key.TransitionKey? && Live(c, r) ==> record.key.sequence <= Last(r.view) + 1
    requires !r.activation.Idle? ==> !OwnAnnouncement(id, record)
    requires r.activation.Announced? ==> !Live(c, r)
    ensures ReplicaInv(u, Append(c, record), id, r)
  {
    hide IsStateOf, Consume, Apply, Envs, Genesis, Last, ActivationInv;
    PrefixOfAppend(c.log, record, r.position);
    AppendKeepsActivation(c, id, r, record);
    if r.lease.Some? {
      var i :| 0 <= i < r.position && i < |c.writers| && r.producer == Some(c.writers[i]);
      assert r.producer == Some(Append(c, record).writers[i]);
    }
  }

  lemma AppendKeepsHistory(u: Setup, c: Cluster, record: Record)
    requires ClusterInv(u, c) && RecordGood(u, c.log, record)
    ensures LogGood(u, Append(c, record).log)
    ensures AckedKept(u, Append(c, record)) && AnswersKept(u, Append(c, record))
  {
    hide Fold, Planned, RecordGood, ReplicaInv, LogGood, SetupOk, StateOf, Ledger, Envs;
    var d := Append(c, record);
    LogGoodAppend(u, c.log, record);
    PrefixOfAppend(c.log, record, |c.log|);
    assert c.log[..|c.log|] == c.log;
    forall e | e in d.acked ensures Filed(u, Envs(u, d.log), e) { FiledLater(u, d.log, |c.log|, e); }
    LogIsLedger(u, d.log);
    EnvsPrefix(u, d.log, |c.log|);
    LedgerPrefix(u, Envs(u, d.log), |Envs(u, c.log)|);
  }

  lemma AppendKeepsInv(u: Setup, c: Cluster, record: Record)
    requires ClusterInv(u, c) && RecordGood(u, c.log, record)
    requires forall id :: id in c.replicas ==>
      var r := c.replicas[id];
      && (record.key.TransitionKey? && Live(c, r) ==> record.key.sequence <= Last(r.view) + 1)
      && (!r.activation.Idle? ==> !OwnAnnouncement(id, record))
      && (r.activation.Announced? ==> !Live(c, r))
    ensures ClusterInv(u, Append(c, record))
  {
    hide RecordGood, ReplicaInv, LogGood, SetupOk, StateOf, Envs, AnswersKept, AckedKept, Last;
    AppendKeepsHistory(u, c, record);
    forall id | id in c.replicas ensures ReplicaInv(u, Append(c, record), id, c.replicas[id]) {
      AppendKeepsReplica(u, c, id, c.replicas[id], record);
    }
  }

  // ---- reading ----

  lemma LastGrows(u: Setup, log: seq<Record>, p: nat, v: View, w: View)
    requires LogGood(u, log) && p < |log|
    requires Consume(log[..p]) == Some(v) && ApplyRecord(v, log[p]) == Some(w)
    ensures Last(v) <= Last(w)
  {
    hide Fold, Planned, IsStateOf, Envs, Restore;
    if p >= |Genesis(u)| {
      assert RecordGood(u, log[..p], log[p]);
      assert w.base == v.base && v.items.Keys <= w.items.Keys;
    } else if p == 1 {
      assert log[1] == Genesis(u)[1] && log[0] == Genesis(u)[0];
      assert log[..1] == [log[0]] && [log[0]][..0] == [];
      assert v.items == map[] && v.base == 0;
    } else {
      assert log[0] == Genesis(u)[0];
    }
  }

  lemma HasReadMore(u: Setup, c: Cluster, r: Replica, q: Replica, s: Snapshot)
    requires HasRead(u, c, r, s) && r.position <= q.position <= |c.log|
    ensures HasRead(u, c, q, s)
  {
    hide IsStateOf, Envs, Genesis;
    assert c.log[..q.position][..r.position] == c.log[..r.position];
    StateOfPrefix(u, c.log[..q.position], r.position, s);
  }

  lemma ReadKeepsReplica(u: Setup, c: Cluster, id: string, r: Replica, q: Replica)
    requires LogGood(u, c.log) && ReplicaInv(u, c, id, r) && r.position < |c.log|
    requires ApplyRecord(r.view, c.log[r.position]).Some?
    requires q == r.(view := ApplyRecord(r.view, c.log[r.position]).value, position := r.position + 1)
    ensures ReplicaInv(u, c, id, q)
  {
    hide IsStateOf, Apply, Envs, Genesis, Last, ActivationInv, LogGood, ApplyRecord, HasRead;
    var p := r.position;
    assert c.log[..p + 1][..p] == c.log[..p] && c.log[..p + 1][p] == c.log[p];
    LastGrows(u, c.log, p, r.view, q.view);
    if r.machine.Some? { HasReadMore(u, c, r, q, r.machine.value); }
    if r.captured.Some? { HasReadMore(u, c, r, q, r.captured.value); }
    if r.lease.Some? {
      var i :| 0 <= i < r.position && i < |c.writers| && r.producer == Some(c.writers[i]);
      assert i < q.position;
    }
    assert ActivationInv(c, id, q) by { SameActivation(c, id, r, q); }
  }

  lemma SameActivation(c: Cluster, id: string, r: Replica, q: Replica)
    requires ActivationInv(c, id, r) && q.activation == r.activation
    requires q.producer == r.producer || !r.activation.Announced?
    ensures ActivationInv(c, id, q)
  {
  }
}
