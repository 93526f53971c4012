/** Any number of replicas over one state topic: reading, electing, writing, failing over
    (internal/storage/kafka/store.go, internal/storage/kafka/coordinator.go,
    internal/domain/machine.go, internal/ha/forwarder.go).

    A Kafka transaction is one atomic append that may or may not happen and may or may not be
    reported. The broker keeps one current producer: initialising a producer fences the earlier
    ones, and a fenced producer cannot append. A store initialises its producer while it holds no
    lease, since the client keeps the producer ID it got at its first transaction. Which replica
    the group coordinator assigns the partition to is left open: any replica may try to become
    primary at any time, and a lease may be withdrawn at any time. */
module Cluster {
  import opened Domain
  import opened State
  import opened Commands
  import opened RegistryInvariant
  import opened Durable
  import opened Kafka
  import opened ReplicatedLog

  /** How far a replica is in publishing a new primary epoch. */
  datatype Activation =
    | Idle
    | CatchingUp(end: nat)
    | Announcing(epoch: Uint64, start: nat)
    | Announced(epoch: Uint64, start: nat, offset: nat)

  datatype Replica = Replica(
    view: View,                      // what the store has read
    position: nat,                   // the next record to read
    bootEnd: nat,                    // the end of the log when the store was opened
    producer: Option<nat>,           // the transactional producer, once initialised
    lease: Option<Lease>,
    activation: Activation,
    machine: Option<Snapshot>,       // the command machine's state, once recovered
    inflight: Option<Envelope>,      // the envelope a commit call is waiting for
    captured: Option<Snapshot>)      // a machine state taken for a snapshot

  datatype Cluster = Cluster(
    log: seq<Record>,
    writers: seq<nat>,               // the producer that appended each record
    producer: nat,                   // the producer the broker accepts
    replicas: map<string, Replica>,
    acked: set<Envelope>,            // commits reported to a client as durable
    answers: set<(string, Result)>)  // operation IDs and the results clients were given

  datatype Step =
    | Open(id: string)
    | Read(id: string)
    | RecoverMachine(id: string)
    | BeginActivation(id: string)
    | ChooseEpoch(id: string)
    | InitProducer(id: string)
    | Announce(id: string, reported: bool)
    | Grant(id: string)
    | AbandonActivation(id: string)
    | Withdraw(id: string)
    | Ask(id: string, command: Command)
    | Propose(id: string, command: Command, written: bool)
    | Acknowledge(id: string)
    | GiveUp(id: string)
    | Deliver(id: string, sequence: Uint64)
    | Capture(id: string)
    | SaveSnapshot(id: string)

  ghost function Initial(u: Setup): Cluster {
    Cluster(Genesis(u), seq(|Genesis(u)|, i => 0), 0, map[], {}, {})
  }

  ghost function Opened(c: Cluster): Replica {
    Replica(BLANK, 0, |c.log|, None, None, Idle, None, None, None)
  }

  /** The broker accepts this replica's appends. */
  ghost predicate Live(c: Cluster, r: Replica) {
    r.producer == Some(c.producer)
  }

  function AnnouncementOf(id: string, epoch: Uint64): Announcement {
    Announcement(FORMAT, id, epoch, id)
  }

  function PrimaryRecord(id: string, epoch: Uint64): Record {
    Record(PrimaryKey, Some(PrimaryValue(AnnouncementOf(id, epoch))))
  }

  ghost predicate Proposes(u: Setup, r: Replica, command: Command) {
    && r.machine.Some? && WellIdentified(command, u.refsOf)
    && PlanCommand(r.machine.value, u.check, command).Proposed?
    && Apply(r.machine.value, PlanCommand(r.machine.value, u.check, command).envelope).Ok?
  }

  /** The envelope a proposing call commits. */
  ghost function Proposal(u: Setup, r: Replica, command: Command): Envelope
    requires Proposes(u, r, command)
  {
    PlanCommand(r.machine.value, u.check, command).envelope
  }

  ghost predicate Enabled(u: Setup, c: Cluster, s: Step) {
    if s.Open? then s.id != ""
    else s.id in c.replicas && EnabledAt(u, c, s, c.replicas[s.id])
  }

  ghost predicate EnabledAt(u: Setup, c: Cluster, s: Step, r: Replica) {
    match s
    case Open(_) => true
    case Read(_) => r.position < |c.log| && ApplyRecord(r.view, c.log[r.position]).Some?
    case RecoverMachine(_) => r.machine.None? && r.position >= r.bootEnd && Recover(r.view).Ok?
    case BeginActivation(_) => r.activation.Idle? && r.inflight.None?
    case ChooseEpoch(_) => r.activation.CatchingUp? && r.position >= r.activation.end
    case InitProducer(_) => r.lease.None? && !r.activation.Announced?
    case Announce(_, _) => r.activation.Announcing? && Live(c, r)
    case Grant(id) => r.activation.Announced? && r.view.primary == AnnouncementOf(id, r.activation.epoch)
    case AbandonActivation(_) => true
    case Withdraw(_) => true
    case Ask(_, command) => r.machine.Some? && !PlanCommand(r.machine.value, u.check, command).Proposed?
    case Propose(_, command, written) =>
      && r.activation.Idle? && r.inflight.None? && Proposes(u, r, command)
      && Leads(r.lease, r.view)
      && !CheckSequence(r.view, Proposal(u, r, command)).Rejected?
      && (written ==> CheckSequence(r.view, Proposal(u, r, command)).Fresh? && Live(c, r))
    case Acknowledge(_) =>
      r.inflight.Some? && r.inflight.value.Seq() in r.view.items
      && r.view.items[r.inflight.value.Seq()] == r.inflight.value
    case GiveUp(_) => r.inflight.Some?
    case Deliver(_, sequence) => r.machine.Some? && r.inflight.None? && sequence in r.view.items
    case Capture(_) => r.machine.Some?
    case SaveSnapshot(_) =>
      && r.captured.Some? && r.captured.value.sequence <= Last(r.view) && Restore(r.captured.value).Ok?
      && r.activation.Idle? && r.inflight.None? && Live(c, r)
  }

  ghost function Append(c: Cluster, record: Record): Cluster {
    c.(log := c.log + [record], writers := c.writers + [c.producer])
  }

  ghost function Put(c: Cluster, id: string, r: Replica): Cluster {
    c.(replicas := c.replicas[id := r])
  }

  ghost function Answered(c: Cluster, op: string, result: Result): Cluster {
    if op == "" then c else c.(answers := c.answers + {(op, result)})
  }

  ghost function After(u: Setup, c: Cluster, s: Step): Cluster
    requires Enabled(u, c, s)
  {
    if s.Open? then Put(c, s.id, Opened(c)) else AfterAt(u, c, s, c.replicas[s.id])
  }

  ghost function AfterAt(u: Setup, c: Cluster, s: Step, r: Replica): Cluster
    requires EnabledAt(u, c, s, r)
  {
    match s
    case Open(_) => c
    case Read(id) =>
      Put(c, id, r.(view := ApplyRecord(r.view, c.log[r.position]).value, position := r.position + 1))
    case RecoverMachine(id) => Put(c, id, r.(machine := Some(Recover(r.view).value)))
    case BeginActivation(id) => Put(c, id, r.(activation := CatchingUp(|c.log|)))
    case ChooseEpoch(id) =>
      Put(c, id, r.(activation := Announcing(NextU64(r.view.primary.epoch), r.position)))
    case InitProducer(id) => Put(c, id, r.(producer := Some(c.producer + 1))).(producer := c.producer + 1)
    case Announce(id, reported) =>
      var a := r.activation;
      Put(Append(c, PrimaryRecord(id, a.epoch)), id,
          r.(activation := if reported then Announced(a.epoch, a.start, |c.log|) else Idle))
    case Grant(id) => Put(c, id, r.(lease := Some(Lease(id, r.activation.epoch)), activation := Idle))
    case AbandonActivation(id) => Put(c, id, r.(activation := Idle))
    case Withdraw(id) => Put(c, id, r.(lease := None))
    case Ask(_, command) =>
      var p := PlanCommand(r.machine.value, u.check, command);
      if p.Replayed? && (command.Register? || command.DeleteVersion? || command.DeleteSubject?)
      then Answered(c, command.op, p.result) else c
    case Propose(id, command, written) =>
      var e := Proposal(u, r, command);
      Put(if written then Append(c, TransitionRecord(e)) else c, id, r.(inflight := Some(e)))
    case Acknowledge(id) =>
      var e := r.inflight.value;
      var next := if r.machine.Some? then Apply(r.machine.value, e) else Err(Corrupt);
      Answered(
        Put(c, id, r.(inflight := None, machine := if next.Ok? then Some(next.value) else r.machine))
          .(acked := c.acked + {e}),
        e.body.op, e.body.result)
    case GiveUp(id) => Put(c, id, r.(inflight := None))
    case Deliver(id, sequence) =>
      var next := ApplyCommitted(r.machine.value, r.view.items[sequence]);
      Put(c, id, r.(machine := if next.Ok? then Some(next.value) else r.machine))
    case Capture(id) => Put(c, id, r.(captured := r.machine))
    case SaveSnapshot(_) => Append(c, Record(SnapshotKey, Some(SnapshotValue(r.captured.value))))
  }

  /** The replica's own producer wrote this record, and it is a transition. */
  ghost predicate OwnTransition(c: Cluster, r: Replica, i: int)
    requires 0 <= i < |c.log|
  {
    i < |c.writers| && r.producer == Some(c.writers[i]) && c.log[i].key.TransitionKey?
  }

  /** The commit hypothesis: every transition the replica itself wrote and has not read back yet is
      numbered at or below what it has read, or is the very envelope it is committing again. */
  ghost predicate OwnWritesObserved(c: Cluster, r: Replica, e: Envelope) {
    forall i :: r.position <= i < |c.log| && OwnTransition(c, r, i) ==>
      c.log[i].key.sequence <= Last(r.view) || c.log[i] == TransitionRecord(e)
  }

  /** A written commit obeys the hypothesis; other steps are always careful. */
  ghost predicate Careful(u: Setup, c: Cluster, s: Step)
    requires Enabled(u, c, s)
  {
    s.Propose? && s.written ==>
      OwnWritesObserved(c, c.replicas[s.id], Proposal(u, c.replicas[s.id], s.command))
  }

  ghost predicate IsRun(u: Setup, c: Cluster, steps: seq<Step>)
    decreases |steps|
  {
    steps != [] ==> Enabled(u, c, steps[0]) && IsRun(u, After(u, c, steps[0]), steps[1..])
  }

  ghost function Final(u: Setup, c: Cluster, steps: seq<Step>): Cluster
    requires IsRun(u, c, steps)
    decreases |steps|
  {
    if steps == [] then c else Final(u, After(u, c, steps[0]), steps[1..])
  }

  ghost predicate IsCareful(u: Setup, c: Cluster, steps: seq<Step>)
    requires IsRun(u, c, steps)
    decreases |steps|
  {
    steps != [] ==> Careful(u, c, steps[0]) && IsCareful(u, After(u, c, steps[0]), steps[1..])
  }
}
