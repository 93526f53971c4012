/** Answers by deduplication at different replicas (internal/domain/machine.go,
    internal/ha/forwarder.go): they are on no record, so when do they agree? */
module ClusterRetries {
  import opened Domain
  import opened State
  import opened Commands
  import opened RegistryInvariant
  import opened Deduplication
  import opened Durable
  import opened Kafka
  import opened ReplicatedLog
  import opened Cluster
  import opened ClusterInvariant
  import opened ClusterRuns

  /** Of two states of one ledger, the later one keeps all that the earlier one recorded. */
  lemma LaterStateExtends(u: Setup, envs: seq<Envelope>, m: Snapshot, n: Snapshot)
    requires SetupOk(u) && Ledger(u, envs) && IsStateOf(u.base, envs, m) && IsStateOf(u.base, envs, n)
    requires m.sequence <= n.sequence
    ensures Extends(m, n) && Inv(m, u.refsOf) && Inv(n, u.refsOf)
  {
    hide Extends, Inv, Ledger, SetupOk;
    StateIsSound(u, envs, m);
    StateIsSound(u, envs, n);
    var i, j := m.sequence - u.base.sequence, n.sequence - u.base.sequence;
    LedgerPrefix(u, envs, j);
    assert envs[..j][..i] == envs[..i];
    LedgerPrefix(u, envs[..j], i);
  }

  /** A machine is a state of the log for good. */
  lemma MachineOfLog(u: Setup, c: Cluster, steps: seq<Step>, p: string)
    requires ClusterInv(u, c) && IsRun(u, c, steps) && p in c.replicas && c.replicas[p].machine.Some?
    ensures IsStateOf(u.base, Envs(u, Final(u, c, steps).log), c.replicas[p].machine.value)
  {
    hide IsRun, Final, LogGood, Envs, Inv, IsStateOf, AckedKept, AnswersKept;
    ReplicasAgree(u, c, p, p);
    LogOnlyGrows(u, c, steps);
    StateOfPrefix(u, Final(u, c, steps).log, |c.log|, c.replicas[p].machine.value);
  }

  lemma MachinesInOrder(u: Setup, c: Cluster, steps: seq<Step>, p: string, q: string)
    requires ClusterInv(u, c) && IsRun(u, c, steps) && IsCareful(u, c, steps)
    requires p in c.replicas && c.replicas[p].machine.Some?
    requires q in Final(u, c, steps).replicas && Final(u, c, steps).replicas[q].machine.Some?
    ensures var m, n := c.replicas[p].machine.value, Final(u, c, steps).replicas[q].machine.value;
      && Inv(m, u.refsOf) && Inv(n, u.refsOf)
      && (m.sequence <= n.sequence ==> Extends(m, n)) && (n.sequence <= m.sequence ==> Extends(n, m))
  {
    hide IsRun, IsCareful, Final, LogGood, Envs, Inv, Extends, IsStateOf, Ledger, AckedKept, AnswersKept, ReplicaInv;
    var d := Final(u, c, steps);
    RunKeepsClusterInv(u, c, steps);
    MachineOfLog(u, c, steps, p);
    ReplicasAgree(u, d, q, q);
    LogIsLedger(u, d.log);
    var m, n := c.replicas[p].machine.value, d.replicas[q].machine.value;
    if m.sequence <= n.sequence { LaterStateExtends(u, Envs(u, d.log), m, n); }
    if n.sequence <= m.sequence { LaterStateExtends(u, Envs(u, d.log), n, m); }
  }

  /** A registration is answered by deduplication at one replica and tried again, its operation still
      not on record there, at any replica after any careful run. If the second machine is not behind
      the first, the answers agree exactly when the call passes there and the version is still active
      there; if it is behind and deduplicates too, exactly when its version is still active at the
      first. */
  lemma DeduplicatedAnswersAgreeIff(
    u: Setup, c: Cluster, steps: seq<Step>, p: string, q: string, command: Command, commit: Envelope -> bool)
    requires ClusterInv(u, c) && IsRun(u, c, steps) && IsCareful(u, c, steps)
    requires p in c.replicas && c.replicas[p].machine.Some?
    requires q in Final(u, c, steps).replicas && Final(u, c, steps).replicas[q].machine.Some?
    requires command.Register?
    requires var m, n := c.replicas[p].machine.value, Final(u, c, steps).replicas[q].machine.value;
      Unrecorded(m, command) && Admitted(m, command) && Duplicate(m, command) && Unrecorded(n, command)
    ensures var m, n := c.replicas[p].machine.value, Final(u, c, steps).replicas[q].machine.value;
            var first, second := Execute(m, u.check, command, commit).1, Execute(n, u.check, command, commit).1;
      && first.Success?
      && (m.sequence <= n.sequence ==>
            (second == first <==> Admitted(n, command) && StillActive(n, command.subject, first.result.version)))
      && (n.sequence < m.sequence && Admitted(n, command) && Duplicate(n, command) ==>
            second.Success? && (second == first <==> StillActive(m, command.subject, second.result.version)))
  {
    hide IsRun, IsCareful, Final, ClusterInv, Execute, Admitted, Duplicate, Inv, Extends, Unrecorded, StillActive;
    MachinesInOrder(u, c, steps, p, q);
    var m, n := c.replicas[p].machine.value, Final(u, c, steps).replicas[q].machine.value;
    ExtendsReflexive(m);
    LaterRetryIff(m, m, u.check, command, commit, u.refsOf);
    if m.sequence <= n.sequence {
      LaterRetryIff(m, n, u.check, command, commit, u.refsOf);
    } else if Admitted(n, command) && Duplicate(n, command) {
      LaterRetryIff(n, m, u.check, command, commit, u.refsOf);
    }
  }
}
