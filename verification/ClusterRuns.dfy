/** The cluster's guarantees over whole runs: any number of replicas, any interleaving of lag,
    contention, withdrawn leases, fenced producers, lost replies and restarts. */
module ClusterRuns {
  import opened Domain
  import opened State
  import opened Commands
  import opened RegistryInvariant
  import opened Durable
  import opened Kafka
  import opened ReplicatedLog
  import opened Cluster
  import opened ClusterInvariant
  import opened ClusterSteps
  import opened ClusterCommit

  // ---- one step, one run ----

  lemma LocalStepKeepsInv(u: Setup, c: Cluster, s: Step)
    requires ClusterInv(u, c) && Enabled(u, c, s)
    requires s.Open? || s.Read? || s.RecoverMachine? || s.BeginActivation? || s.ChooseEpoch? || s.AbandonActivation?
    ensures ClusterInv(u, After(u, c, s))
  {
    hide SetupOk, LogGood, WritersOk, AckedKept, AnswersKept, ReplicaInv, Distinct, Last, Recover, ApplyRecord,
      ActivationInv, Consume;
    if s.Open? {
      OpenedReplica(u, c, s.id);
      PutKeepsInv(u, c, s.id, Opened(c));
    } else {
      var r := c.replicas[s.id];
      assert ReplicaInv(u, c, s.id, r);
      var q := After(u, c, s).replicas[s.id];
      match s {
        case Read(id) => ReadKeepsReplica(u, c, id, r, q);
        case RecoverMachine(id) => RecoveredReplica(u, c, id, r, q);
        case BeginActivation(id) => BeginsActivation(u, c, id, r, q);
        case ChooseEpoch(id) => ChosenEpoch(u, c, id, r, q);
        case AbandonActivation(id) => IdleReplica(u, c, id, r);
      }
      PutKeepsInv(u, c, s.id, q);
    }
  }

  lemma BeginsActivation(u: Setup, c: Cluster, id: string, r: Replica, q: Replica)
    requires ReplicaInv(u, c, id, r) && q == r.(activation := CatchingUp(|c.log|))
    ensures ReplicaInv(u, c, id, q)
  {
    hide ReplicaInv;
    LocalActivation(u, c, id, r, q);
  }

  lemma MachineStepKeepsInv(u: Setup, c: Cluster, s: Step)
    requires ClusterInv(u, c) && Enabled(u, c, s)
    requires s.Grant? || s.Withdraw? || s.GiveUp? || s.Deliver? || s.Capture?
    ensures ClusterInv(u, After(u, c, s))
  {
    hide SetupOk, LogGood, WritersOk, AckedKept, AnswersKept, ReplicaInv, Distinct, Last, ActivationInv, Consume, Apply;
    var r := c.replicas[s.id];
    assert ReplicaInv(u, c, s.id, r);
    var q := After(u, c, s).replicas[s.id];
    match s {
      case Grant(id) => GrantedReplica(u, c, id, r, q);
      case Withdraw(id) => WithdrawnReplica(u, c, id, r);
      case GiveUp(id) => GivenUpReplica(u, c, id, r);
      case Deliver(id, sequence) => DeliveredReplica(u, c, id, r, sequence, q);
      case Capture(id) => CapturedReplica(u, c, id, r);
    }
    PutKeepsInv(u, c, s.id, q);
  }

  lemma WithdrawnReplica(u: Setup, c: Cluster, id: string, r: Replica)
    requires ReplicaInv(u, c, id, r)
    ensures ReplicaInv(u, c, id, r.(lease := None))
  {
    hide Consume, Apply, Last, HasRead, Genesis;
    LocalActivation(u, c, id, r, r.(lease := None));
  }

  lemma GivenUpReplica(u: Setup, c: Cluster, id: string, r: Replica)
    requires ReplicaInv(u, c, id, r)
    ensures ReplicaInv(u, c, id, r.(inflight := None))
  {
    hide Consume, Apply, Last, HasRead, Genesis;
    MachineKeepsReplica(u, c, id, r, r.(inflight := None));
  }

  lemma CapturedReplica(u: Setup, c: Cluster, id: string, r: Replica)
    requires ReplicaInv(u, c, id, r)
    ensures ReplicaInv(u, c, id, r.(captured := r.machine))
  {
    hide Consume, Apply, Last, IsStateOf, Envs, Genesis;
    SameActivation(c, id, r, r.(captured := r.machine));
    if r.lease.Some? {
      var i :| 0 <= i < r.position && i < |c.writers| && r.producer == Some(c.writers[i]);
    }
  }

  lemma StepKeepsClusterInv(u: Setup, c: Cluster, s: Step)
    requires ClusterInv(u, c) && Enabled(u, c, s) && Careful(u, c, s)
    ensures ClusterInv(u, After(u, c, s))
  {
    hide ClusterInv, OwnWritesObserved, EnabledAt;
    match s {
      case InitProducer(id) => InitStepKeepsInv(u, c, id);
      case Announce(id, reported) => AnnounceKeepsInv(u, c, id, reported);
      case Ask(id, command) => AskKeepsInv(u, c, id, command);
      case Propose(id, command, written) => ProposeKeepsInv(u, c, id, command, written);
      case Acknowledge(id) => AcknowledgeKeepsInv(u, c, id);
      case SaveSnapshot(id) => SaveSnapshotKeepsInv(u, c, id);
      case Open(_) => LocalStepKeepsInv(u, c, s);
      case Read(_) => LocalStepKeepsInv(u, c, s);
      case RecoverMachine(_) => LocalStepKeepsInv(u, c, s);
      case BeginActivation(_) => LocalStepKeepsInv(u, c, s);
      case ChooseEpoch(_) => LocalStepKeepsInv(u, c, s);
      case AbandonActivation(_) => LocalStepKeepsInv(u, c, s);
      case _ => MachineStepKeepsInv(u, c, s);
    }
  }

  lemma InitStepKeepsInv(u: Setup, c: Cluster, id: string)
    requires ClusterInv(u, c) && Enabled(u, c, InitProducer(id))
    ensures ClusterInv(u, After(u, c, InitProducer(id)))
  {
    hide ClusterInv;
    InitProducerKeepsInv(u, c, id, c.replicas[id], After(u, c, InitProducer(id)));
  }

  /** Every state of every careful run is sound. */
  lemma {:induction false} RunKeepsClusterInv(u: Setup, c: Cluster, steps: seq<Step>)
    requires ClusterInv(u, c) && IsRun(u, c, steps) && IsCareful(u, c, steps)
    ensures ClusterInv(u, Final(u, c, steps))
    decreases |steps|
  {
    hide ClusterInv, Enabled, After, Careful;
    if steps != [] {
      StepKeepsClusterInv(u, c, steps[0]);
      RunKeepsClusterInv(u, After(u, c, steps[0]), steps[1..]);
    }
  }

  // ---- the log ----

  /** No sequence has two different envelopes. */
  ghost predicate OneEnvelopePerSequence(log: seq<Record>) {
    forall i, j :: 0 <= i < |log| && 0 <= j < |log| && log[i].key.TransitionKey? && log[i].key == log[j].key ==>
      log[i] == log[j]
  }

  /** Below every transition all sequences above the base are present, earlier in the log. */
  ghost predicate GapFree(u: Setup, log: seq<Record>) {
    forall i, q: Uint64 :: 0 <= i < |log| && log[i].key.TransitionKey? && u.base.sequence < q <= log[i].key.sequence ==>
      AppearsBy(log, i, q)
  }

  ghost predicate AppearsBy(log: seq<Record>, i: int, q: Uint64) {
    exists j :: 0 <= j <= i && j < |log| && log[j].key == TransitionKey(q)
  }

  lemma TransitionsAreLate(u: Setup, log: seq<Record>, i: nat)
    requires LogGood(u, log) && i < |log| && log[i].key.TransitionKey?
    ensures |Genesis(u)| <= i
  {
    hide RecordGood;
  }

  lemma {:induction false} EnvsAppear(u: Setup, log: seq<Record>, k: nat)
    requires LogGood(u, log) && k < |Envs(u, log)|
    ensures exists j :: 0 <= j < |log| && log[j] == TransitionRecord(Envs(u, log)[k])
    decreases |log|
  {
    hide Fold, Planned, Filed, IsStateOf;
    if |log| == |Genesis(u)| {
      assert log == Genesis(u);
      GenesisEnvs(u);
      assert false;
    } else {
      var n := |log| - 1;
      LogGoodPrefix(u, log, n);
      if k < |Envs(u, log[..n])| {
        EnvsAppear(u, log[..n], k);
        var j :| 0 <= j < n && log[..n][j] == TransitionRecord(Envs(u, log[..n])[k]);
        assert log[j] == TransitionRecord(Envs(u, log)[k]);
      } else {
        assert RecordGood(u, log[..n], log[n]);
        assert log[n] == TransitionRecord(Envs(u, log)[k]);
      }
    }
  }

  lemma SoundLogIsUnique(u: Setup, log: seq<Record>)
    requires LogGood(u, log)
    ensures OneEnvelopePerSequence(log)
  {
    hide LogGood, Envs, Genesis;
    forall i, j | 0 <= i < |log| && 0 <= j < |log| && log[i].key.TransitionKey? && log[i].key == log[j].key
      ensures log[i] == log[j]
    {
      TransitionsAreLate(u, log, i);
      TransitionsAreLate(u, log, j);
      RecordIsFiled(u, log, i);
      RecordIsFiled(u, log, j);
    }
  }

  lemma SoundLogIsGapFree(u: Setup, log: seq<Record>)
    requires SetupOk(u) && LogGood(u, log)
    ensures GapFree(u, log)
  {
    hide SetupOk, LogGood, Envs, Genesis, Ledger, StateOf, Apply;
    forall i, q: Uint64 | 0 <= i < |log| && log[i].key.TransitionKey? && u.base.sequence < q <= log[i].key.sequence
      ensures AppearsBy(log, i, q)
    {
      TransitionsAreLate(u, log, i);
      var upto := log[..i + 1];
      LogGoodPrefix(u, log, i + 1);
      RecordIsFiled(u, upto, i);
      var envs, k := Envs(u, upto), q - u.base.sequence - 1;
      EnvsAppear(u, upto, k);
      var j :| 0 <= j < |upto| && upto[j] == TransitionRecord(envs[k]);
      LogIsLedger(u, upto);
      LedgerFolds(u, envs);
      FoldPrefix(u.base, envs, 0);
      assert log[j].key == TransitionKey(q);
    }
  }

  /** In every careful run from the start, the topic holds at most one envelope per sequence and its
      sequences are contiguous from the base. */
  lemma CommittedLogIsSound(u: Setup, steps: seq<Step>)
    requires SetupOk(u) && IsRun(u, Initial(u), steps) && IsCareful(u, Initial(u), steps)
    ensures OneEnvelopePerSequence(Final(u, Initial(u), steps).log)
    ensures GapFree(u, Final(u, Initial(u), steps).log)
  {
    hide IsRun, IsCareful, Final, OneEnvelopePerSequence, GapFree;
    InitialInv(u);
    RunKeepsClusterInv(u, Initial(u), steps);
    SoundLogIsUnique(u, Final(u, Initial(u), steps).log);
    SoundLogIsGapFree(u, Final(u, Initial(u), steps).log);
  }

  lemma {:induction false} LogOnlyGrows(u: Setup, c: Cluster, steps: seq<Step>)
    requires IsRun(u, c, steps)
    ensures |c.log| <= |Final(u, c, steps).log| && Final(u, c, steps).log[..|c.log|] == c.log
    decreases |steps|
  {
    hide Enabled, EnabledAt, Proposal;
    if steps != [] {
      var d := After(u, c, steps[0]);
      StepAppends(u, c, steps[0]);
      LogOnlyGrows(u, d, steps[1..]);
      var f := Final(u, c, steps).log;
      assert f[..|c.log|] == f[..|d.log|][..|c.log|];
    } else {
      assert c.log[..|c.log|] == c.log;
    }
  }

  lemma StepAppends(u: Setup, c: Cluster, s: Step)
    requires Enabled(u, c, s)
    ensures |c.log| <= |After(u, c, s).log| && After(u, c, s).log[..|c.log|] == c.log
  {
    hide PlanCommand, Apply, Recover, ApplyRecord, Last, CheckSequence;
  }

  lemma ConflictStays(a: seq<Record>, b: seq<Record>)
    requires |a| <= |b| && b[..|a|] == a && !OneEnvelopePerSequence(a)
    ensures !OneEnvelopePerSequence(b)
  {
    var i, j :| 0 <= i < |a| && 0 <= j < |a| && a[i].key.TransitionKey? && a[i].key == a[j].key && a[i] != a[j];
    assert b[..|a|][i] == b[i] && b[..|a|][j] == b[j];
  }

  lemma CarelessStepConflicts(u: Setup, c: Cluster, s: Step)
    requires ClusterInv(u, c) && Enabled(u, c, s) && !Careful(u, c, s)
    ensures !OneEnvelopePerSequence(After(u, c, s).log)
  {
    hide SetupOk, LogGood, WritersOk, AckedKept, AnswersKept, Distinct, ReplicaInv, PlanCommand, Apply, Last,
      RecordGood, OwnWritesObserved;
    var r := c.replicas[s.id];
    var e := Proposal(u, r, s.command);
    assert ReplicaInv(u, c, s.id, r);
    UnobservedCommitIsBad(u, c, s.id, r, s.command);
    var log := After(u, c, s).log;
    var i :| 0 <= i < |c.log| && c.log[i].key == TransitionRecord(e).key && c.log[i] != TransitionRecord(e);
    assert log[i] == c.log[i] && log[|c.log|] == TransitionRecord(e);
  }

  /** The commit hypothesis is exact: a run keeps one envelope per sequence if and only if every
      written commit had observed the writer's own earlier writes. */
  lemma {:induction false} UniqueIffCareful(u: Setup, c: Cluster, steps: seq<Step>)
    requires ClusterInv(u, c) && IsRun(u, c, steps)
    ensures OneEnvelopePerSequence(Final(u, c, steps).log) <==> IsCareful(u, c, steps)
    decreases |steps|
  {
    hide ClusterInv, Enabled, After, OneEnvelopePerSequence, Careful;
    if steps == [] {
      InvIsUnique(u, c);
    } else {
      var d := After(u, c, steps[0]);
      if Careful(u, c, steps[0]) {
        StepKeepsClusterInv(u, c, steps[0]);
        UniqueIffCareful(u, d, steps[1..]);
      } else {
        CarelessStepConflicts(u, c, steps[0]);
        LogOnlyGrows(u, d, steps[1..]);
        ConflictStays(d.log, Final(u, d, steps[1..]).log);
      }
    }
  }

  lemma InvIsUnique(u: Setup, c: Cluster)
    requires ClusterInv(u, c)
    ensures OneEnvelopePerSequence(c.log)
  {
    hide LogGood, ReplicaInv, SetupOk, AckedKept, AnswersKept, OneEnvelopePerSequence;
    SoundLogIsUnique(u, c.log);
  }

  // ---- failover ----

  /** When a lease is granted, the new primary has read every record written by its own producer or
      any earlier one; what it has not read was written by producers that have fenced it since. So
      if it is not fenced it has read the whole log, and nobody else can append. */
  lemma GrantHasReadEverything(u: Setup, c: Cluster, id: string)
    requires ClusterInv(u, c) && Enabled(u, c, Grant(id))
    ensures var r := c.replicas[id];
      && r.producer.Some?
      && (forall i :: r.position <= i < |c.log| ==> c.writers[i] > r.producer.value)
      && (Live(c, r) ==> r.position == |c.log|)
      && (Live(c, r) ==> forall q :: q in c.replicas && q != id ==> !Live(c, c.replicas[q]))
  {
    hide SetupOk, LogGood, AckedKept, AnswersKept, Consume, Apply, Last, HasRead, Genesis, EpochChosen, Distinct;
    var r := c.replicas[id];
    assert ReplicaInv(u, c, id, r);
    GrantReadsAnnouncement(u, c, id, r);
    var offset := r.activation.offset;
    forall i | r.position <= i < |c.log| ensures c.writers[i] > r.producer.value {
      assert c.writers[offset] <= c.writers[i];
    }
    assert r.position < |c.log| ==> c.writers[r.position] > r.producer.value;
    if Live(c, r) {
      forall q | q in c.replicas && q != id ensures !Live(c, c.replicas[q]) { OnlyOneLive(u, c, id, q); }
    }
  }

  /** A commit reported to a client is in the log for good, and every replica that is granted a
      lease afterwards, unless it is fenced again already, has it in its store. */
  lemma AcknowledgedSurvivesFailover(u: Setup, c: Cluster, steps: seq<Step>, e: Envelope, id: string)
    requires ClusterInv(u, c) && IsRun(u, c, steps) && IsCareful(u, c, steps) && e in c.acked
    ensures Filed(u, Envs(u, Final(u, c, steps).log), e)
    ensures var f := Final(u, c, steps);
      Enabled(u, f, Grant(id)) && Live(f, f.replicas[id]) ==>
        e.Seq() in f.replicas[id].view.items && f.replicas[id].view.items[e.Seq()] == e
  {
    hide IsRun, IsCareful, Final, LogGood, Envs, AnswersKept, Inv, Distinct, WritersOk, ReplicaInv, Matches, Consume;
    var f := Final(u, c, steps);
    RunKeepsClusterInv(u, c, steps);
    LogOnlyGrows(u, c, steps);
    FiledLater(u, f.log, |c.log|, e);
    if Enabled(u, f, Grant(id)) && Live(f, f.replicas[id]) {
      GrantHasReadEverything(u, f, id);
      ReaderHasAll(u, f, id, e);
    }
  }

  lemma ReaderHasAll(u: Setup, f: Cluster, id: string, e: Envelope)
    requires ClusterInv(u, f) && id in f.replicas && f.replicas[id].position == |f.log|
    requires Filed(u, Envs(u, f.log), e)
    ensures e.Seq() in f.replicas[id].view.items && f.replicas[id].view.items[e.Seq()] == e
  {
    hide LogGood, Envs, AckedKept, AnswersKept, Inv, Distinct, WritersOk, Consume, ActivationInv, OwnPending, HasRead,
      Apply, Genesis;
    assert ReplicaInv(u, f, id, f.replicas[id]);
    assert f.log[..|f.log|] == f.log;
    ConsumedMatches(u, f.log, f.replicas[id].view);
  }

  // ---- machines, operations, answers ----

  /** Every replica's machine is the fold of a prefix of the one log and satisfies the registry
      invariant; two replicas at the same sequence hold equal states. */
  lemma ReplicasAgree(u: Setup, c: Cluster, p: string, q: string)
    requires ClusterInv(u, c) && p in c.replicas && q in c.replicas
    requires c.replicas[p].machine.Some? && c.replicas[q].machine.Some?
    ensures IsStateOf(u.base, Envs(u, c.log), c.replicas[p].machine.value)
    ensures Inv(c.replicas[p].machine.value, u.refsOf)
    ensures c.replicas[p].machine.value.sequence == c.replicas[q].machine.value.sequence ==>
              c.replicas[p].machine == c.replicas[q].machine
  {
    hide LogGood, Envs, AckedKept, AnswersKept, Inv, Distinct, WritersOk, Consume, ActivationInv, OwnPending, Apply,
      Genesis, IsStateOf, Extends, StateOf;
    forall x | x in {p, q} ensures IsStateOf(u.base, Envs(u, c.log), c.replicas[x].machine.value) {
      assert ReplicaInv(u, c, x, c.replicas[x]);
      StateOfPrefix(u, c.log, c.replicas[x].position, c.replicas[x].machine.value);
    }
    assert ReplicaInv(u, c, p, c.replicas[p]);
    MachineIsEarlier(u, c, c.replicas[p], c.replicas[p].machine.value);
    if c.replicas[p].machine.value.sequence == c.replicas[q].machine.value.sequence {
      SameSequenceSameState(u.base, Envs(u, c.log), c.replicas[p].machine.value, c.replicas[q].machine.value);
    }
  }

  /** A non-empty operation ID labels at most one envelope of the topic. */
  lemma OperationLabelsOneEnvelope(u: Setup, c: Cluster, i: nat, j: nat)
    requires ClusterInv(u, c) && i < |c.log| && j < |c.log|
    requires c.log[i].key.TransitionKey? && c.log[j].key.TransitionKey?
    requires c.log[i].value.Some? && c.log[i].value.value.EnvelopeValue?
    requires c.log[j].value.Some? && c.log[j].value.value.EnvelopeValue?
    requires c.log[i].value.value.envelope.body.op == c.log[j].value.value.envelope.body.op != ""
    ensures c.log[i] == c.log[j]
  {
    hide LogGood, Envs, AckedKept, AnswersKept, Distinct, WritersOk, ReplicaInv, Ledger, Genesis, SetupOk;
    TransitionsAreLate(u, c.log, i);
    TransitionsAreLate(u, c.log, j);
    RecordIsFiled(u, c.log, i);
    RecordIsFiled(u, c.log, j);
    LogIsLedger(u, c.log);
    var a := c.log[i].value.value.envelope.Seq() - u.base.sequence - 1;
    var b := c.log[j].value.value.envelope.Seq() - u.base.sequence - 1;
    if a < b { OperationsAreUnique(u, Envs(u, c.log), a, b); }
    if b < a { OperationsAreUnique(u, Envs(u, c.log), b, a); }
  }

  /** Clients that retry an operation, at any replica and across failovers, are given one result. */
  lemma RetriesGetOneResult(u: Setup, steps: seq<Step>, op: string, x: Result, y: Result)
    requires SetupOk(u) && IsRun(u, Initial(u), steps) && IsCareful(u, Initial(u), steps)
    requires (op, x) in Final(u, Initial(u), steps).answers && (op, y) in Final(u, Initial(u), steps).answers
    ensures x == y
  {
    hide IsRun, IsCareful, Final, LogGood, ReplicaInv, SetupOk, StateOf, Envs;
    InitialInv(u);
    RunKeepsClusterInv(u, Initial(u), steps);
    var f := Final(u, Initial(u), steps);
    assert AnswersKept(u, f);
    assert (op, x).0 == op && (op, y).0 == op;
  }
}
