/** Where the protocol needs its hypotheses: concrete runs that break it, and the exact conditions. */
module ClusterLimits {
  import opened Domain
  import opened State
  import opened Commands
  import opened RegistryInvariant
  import opened RegistryRuns
  import opened Durable
  import opened Kafka
  import opened ReplicatedLog
  import opened Cluster
  import opened ClusterInvariant
  import opened ClusterSteps
  import opened ClusterCommit
  import opened ClusterRuns

  // ---- can every replica keep reading? ----

  /** No announcement with a higher epoch got into the log after this replica chose its own. */
  ghost predicate NotOvertaken(c: Cluster, r: Replica)
    requires r.activation.Announcing? && Consume(c.log).Some?
  {
    r.activation.epoch != 0 && r.activation.epoch >= Consume(c.log).value.primary.epoch
  }

  lemma ConsumeAppend(log: seq<Record>, r: Record)
    requires Consume(log).Some?
    ensures Consume(log + [r]) == ApplyRecord(Consume(log).value, r)
  {
    hide ApplyRecord;
    assert (log + [r])[..|log|] == log;
  }

  lemma GoodTransitionIsReadable(u: Setup, log: seq<Record>, e: Envelope)
    requires SetupOk(u) && LogGood(u, log) && Consume(log).Some? && RecordGood(u, log, TransitionRecord(e)) && e.Valid()
    ensures Consume(log + [TransitionRecord(e)]).Some?
  {
    hide Inv, LogGood, Envs, Planned, Fold, IsStateOf;
    ConsumedMatches(u, log, Consume(log).value);
    RecordCases(u, log, TransitionRecord(e));
    ConsumeAppend(log, TransitionRecord(e));
  }

  /** A step of a careful run leaves the topic readable to its end exactly when the announcement it
      appends, if it appends one, has not been overtaken. */
  lemma ReadableIffNotOvertaken(u: Setup, c: Cluster, s: Step)
    requires ClusterInv(u, c) && Enabled(u, c, s) && Careful(u, c, s) && Consume(c.log).Some?
    ensures Consume(After(u, c, s).log).Some? <==> (s.Announce? ==> NotOvertaken(c, c.replicas[s.id]))
  {
    hide SetupOk, LogGood, WritersOk, AckedKept, AnswersKept, Distinct, ReplicaInv, PlanCommand, Apply, Last,
      RecordGood, Consume, OwnWritesObserved, CheckSequence, Recover, ApplyTransition;
    if s.Announce? {
      var r := c.replicas[s.id];
      assert ReplicaInv(u, c, s.id, r);
      IdIsNotEmpty(u, c, s.id, r);
      ConsumeAppend(c.log, PrimaryRecord(s.id, r.activation.epoch));
    } else if s.Propose? && s.written {
      var r := c.replicas[s.id];
      assert ReplicaInv(u, c, s.id, r);
      ObservedCommitIsGood(u, c, s.id, r, s.command);
      GoodTransitionIsReadable(u, c.log, Proposal(u, r, s.command));
    } else if s.SaveSnapshot? {
      ConsumeAppend(c.log, Record(SnapshotKey, Some(SnapshotValue(c.replicas[s.id].captured.value))));
    }
  }

  lemma IdIsNotEmpty(u: Setup, c: Cluster, id: string, r: Replica)
    requires ReplicaInv(u, c, id, r)
    ensures id != ""
  {
  }

  // ---- two concrete runs ----

  /** An empty registry in which every schema is compatible and nothing has references. */
  ghost function Plain(): Setup {
    Setup((s: Snapshot, level: Level, candidate: Schema, previous: seq<Schema>) => true,
          (identity: string) => [], EMPTY)
  }

  lemma PlainIsOk()
    ensures SetupOk(Plain()) && ClusterInv(Plain(), Initial(Plain()))
    ensures Initial(Plain()) == Cluster([], [], 0, map[], {}, {})
  {
    hide ClusterInv;
    EmptyInv(Plain().refsOf);
    InitialInv(Plain());
    assert Initial(Plain()).writers == [];
  }

  lemma {:induction false} RunSnoc(u: Setup, c: Cluster, steps: seq<Step>, s: Step)
    requires IsRun(u, c, steps) && Enabled(u, Final(u, c, steps), s)
    ensures IsRun(u, c, steps + [s]) && Final(u, c, steps + [s]) == After(u, Final(u, c, steps), s)
    decreases |steps|
  {
    hide Enabled, After;
    if steps == [] {
      assert steps + [s] == [s] && [s][1..] == [];
    } else {
      RunSnoc(u, After(u, c, steps[0]), steps[1..], s);
      assert (steps + [s])[1..] == steps[1..] + [s];
    }
  }

  ghost function Steady(view: View, position: nat, lease: Option<Lease>, inflight: Option<Envelope>): Replica {
    Replica(view, position, 0, Some(1), lease, Idle, Some(EMPTY), inflight, None)
  }

  ghost function Announce1(id: string): View {
    BLANK.(primary := AnnouncementOf(id, 1))
  }

  lemma RecoverBlank()
    ensures Recover(BLANK) == Ok(EMPTY) && Last(BLANK) == 0
  {
    assert IsLast(BLANK, 0);
    LastIsUnique(BLANK, 0);
    assert Slice(BLANK.items, 0, 0) == [];
  }

  /** One more step of a concrete run. */
  lemma Take(steps: seq<Step>, c: Cluster, s: Step, d: Cluster) returns (more: seq<Step>)
    requires IsRun(Plain(), Initial(Plain()), steps) && Final(Plain(), Initial(Plain()), steps) == c
    requires Enabled(Plain(), c, s) && After(Plain(), c, s) == d
    ensures more == steps + [s]
    ensures IsRun(Plain(), Initial(Plain()), more) && Final(Plain(), Initial(Plain()), more) == d
  {
    hide Enabled, After, IsRun, Final;
    more := steps + [s];
    RunSnoc(Plain(), Initial(Plain()), steps, s);
  }

  ghost function One(log: seq<Record>, writers: seq<nat>, producer: nat, id: string, r: Replica): Cluster {
    Cluster(log, writers, producer, map[id := r], {}, {})
  }

  ghost function Cold(): Replica {
    Replica(BLANK, 0, 0, None, None, Idle, None, None, None)
  }

  lemma OpenAndChoose(id: string) returns (steps: seq<Step>)
    requires id != ""
    ensures IsRun(Plain(), Initial(Plain()), steps)
    ensures Final(Plain(), Initial(Plain()), steps)
      == One([], [], 0, id, Cold().(machine := Some(EMPTY), activation := Announcing(1, 0)))
  {
    hide Apply, PlanCommand, Recover, IsRun, Final, Initial, Last;
    PlainIsOk();
    RecoverBlank();
    var cold := Cold();
    var up := cold.(machine := Some(EMPTY));
    EmptyRun();
    steps := Take([], Initial(Plain()), Open(id), One([], [], 0, id, cold));
    steps := Take(steps, One([], [], 0, id, cold), RecoverMachine(id), One([], [], 0, id, up));
    steps := Take(steps, One([], [], 0, id, up), BeginActivation(id),
        One([], [], 0, id, up.(activation := CatchingUp(0))));
    steps := Take(steps, One([], [], 0, id, up.(activation := CatchingUp(0))), ChooseEpoch(id),
                  One([], [], 0, id, up.(activation := Announcing(1, 0))));
  }

  /** A replica opens, recovers and becomes primary with epoch 1. */
  lemma BecomePrimary(id: string) returns (steps: seq<Step>)
    requires id != ""
    ensures IsRun(Plain(), Initial(Plain()), steps)
    ensures Final(Plain(), Initial(Plain()), steps)
      == One([PrimaryRecord(id, 1)], [1], 1, id, Steady(Announce1(id), 1, Some(Lease(id, 1)), None))
  {
    hide Apply, PlanCommand, Recover, IsRun, Final, Initial, Last;
    steps := OpenAndChoose(id);
    var up := Cold().(machine := Some(EMPTY), activation := Announcing(1, 0));
    var chosen := up.(producer := Some(1));
    var log := [PrimaryRecord(id, 1)];
    var waiting := chosen.(activation := Announced(1, 0, 0));
    var caughtUp := waiting.(view := Announce1(id), position := 1);
    steps := Take(steps, One([], [], 0, id, up), InitProducer(id), One([], [], 1, id, chosen));
    steps := Take(steps, One([], [], 1, id, chosen), Announce(id, true), One(log, [1], 1, id, waiting));
    steps := Take(steps, One(log, [1], 1, id, waiting), Read(id), One(log, [1], 1, id, caughtUp));
    steps := Take(steps, One(log, [1], 1, id, caughtUp), Grant(id),
                  One(log, [1], 1, id, Steady(Announce1(id), 1, Some(Lease(id, 1)), None)));
  }

  lemma EmptyRun()
    ensures IsRun(Plain(), Initial(Plain()), []) && Final(Plain(), Initial(Plain()), []) == Initial(Plain())
  {
  }

  ghost function SetModeEnvelope(op: string, mode: Mode): Envelope {
    NewEnvelope(1, op, ModeSet("", mode), NO_RESULT)
  }

  lemma SetModePlan(op: string, mode: Mode)
    requires mode.Valid() && op != ""
    ensures PlanCommand(EMPTY, Plain().check, SetMode(op, "", mode)) == Proposed(SetModeEnvelope(op, mode), NO_RESULT)
    ensures Apply(EMPTY, SetModeEnvelope(op, mode)).Ok?
  {
  }

  lemma Announce1Last(id: string)
    ensures Last(Announce1(id)) == 0
  {
    assert IsLast(Announce1(id), 0);
    LastIsUnique(Announce1(id), 0);
  }

  /** A commit that was written but not observed, reported as failed, and followed by a different
      command on the same primary: two envelopes get sequence 1. */
  lemma UnobservedCommitConflicts() returns (steps: seq<Step>)
    ensures IsRun(Plain(), Initial(Plain()), steps)
    ensures !OneEnvelopePerSequence(Final(Plain(), Initial(Plain()), steps).log)
  {
    hide Apply, PlanCommand, IsRun, Final, Initial, Last;
    var id := "a";
    steps := BecomePrimary(id);
    Announce1Last(id);
    SetModePlan("x", ReadOnly);
    SetModePlan("y", Import);
    var x, y := SetModeEnvelope("x", ReadOnly), SetModeEnvelope("y", Import);
    var lease, view := Some(Lease(id, 1)), Announce1(id);
    var log0 := [PrimaryRecord(id, 1)];
    var log1, log2 := log0 + [TransitionRecord(x)], log0 + [TransitionRecord(x)] + [TransitionRecord(y)];
    steps := Take(steps, One(log0, [1], 1, id, Steady(view, 1, lease, None)),
        Propose(id, SetMode("x", "", ReadOnly), true),
                  One(log1, [1] + [1], 1, id, Steady(view, 1, lease, Some(x))));
    steps := Take(steps, One(log1, [1] + [1], 1, id, Steady(view, 1, lease, Some(x))), GiveUp(id),
                  One(log1, [1] + [1], 1, id, Steady(view, 1, lease, None)));
    steps := Take(steps, One(log1, [1] + [1], 1, id, Steady(view, 1, lease, None)),
        Propose(id, SetMode("y", "", Import), true),
                  One(log2, [1] + [1] + [1], 1, id, Steady(view, 1, lease, Some(y))));
    assert log2[1].key == log2[2].key && log2[1] != log2[2];
  }

  ghost function Two(log: seq<Record>, writers: seq<nat>, producer: nat, a: Replica, b: Replica): Cluster {
    Cluster(log, writers, producer, map["b" := b]["a" := a], {}, {})
  }

  /** A contender that chose its epoch early and announces late writes an epoch below the newest
      one: the record is refused by every replica, and no replica reads past it. */
  lemma OvertakenAnnouncementStopsReaders() returns (steps: seq<Step>)
    ensures IsRun(Plain(), Initial(Plain()), steps)
    ensures Consume(Final(Plain(), Initial(Plain()), steps).log).None?
  {
    hide Apply, PlanCommand, Recover, IsRun, Final, Initial, Last;
    var log1 := [PrimaryRecord("b", 1)];
    var log2 := log1 + [PrimaryRecord("b", 2)];
    var log3 := log2 + [PrimaryRecord("b", 3)];
    var b := Steady(Announce1("b"), 1, Some(Lease("b", 1)), None);
    var late := Replica(Announce1("b"), 1, 1, None, None, Announcing(2, 1), None, None, None);
    steps := LateContender();
    steps := Take(steps, Two(log1, [1], 1, late, b), BeginActivation("b"),
        Two(log1, [1], 1, late, b.(activation := CatchingUp(1))));
    steps := Take(steps, Two(log1, [1], 1, late, b.(activation := CatchingUp(1))), ChooseEpoch("b"),
                  Two(log1, [1], 1, late, b.(activation := Announcing(2, 1))));
    steps := Take(steps, Two(log1, [1], 1, late, b.(activation := Announcing(2, 1))), Announce("b", false),
                  Two(log2, [1] + [1], 1, late, b));
    var view2 := BLANK.(primary := AnnouncementOf("b", 2));
    var b2 := b.(view := view2, position := 2);
    steps := Take(steps, Two(log2, [1] + [1], 1, late, b), Read("b"), Two(log2, [1] + [1], 1, late, b2));
    steps := ThirdEpoch(steps, late, b2);
    var writers := [1] + [1] + [1];
    steps := LateAnnouncement(steps, log3, writers, late, b2);
    RefusedAtTheEnd();
  }

  lemma LateAnnouncement(
    before: seq<Step>, log: seq<Record>, writers: seq<nat>, late: Replica, b: Replica) returns (steps: seq<Step>)
    requires IsRun(Plain(), Initial(Plain()), before)
    requires |log| == |writers| && Final(Plain(), Initial(Plain()), before) == Two(log, writers, 1, late, b)
    requires late == Replica(Announce1("b"), 1, 1, None, None, Announcing(2, 1), None, None, None)
    ensures IsRun(Plain(), Initial(Plain()), steps)
    ensures Final(Plain(), Initial(Plain()), steps).log == log + [PrimaryRecord("a", 2)]
  {
    hide Apply, PlanCommand, Recover, IsRun, Final, Initial, Last;
    steps := Take(before, Two(log, writers, 1, late, b), InitProducer("a"),
        Two(log, writers, 2, late.(producer := Some(2)), b));
    steps := Take(steps, Two(log, writers, 2, late.(producer := Some(2)), b), Announce("a", false),
                  Two(log + [PrimaryRecord("a", 2)], writers + [2], 2,
                      late.(producer := Some(2), activation := Idle), b));
  }

  lemma LateContender() returns (steps: seq<Step>)
    ensures IsRun(Plain(), Initial(Plain()), steps)
    ensures Final(Plain(), Initial(Plain()), steps) ==
      Two([PrimaryRecord("b", 1)], [1], 1,
          Replica(Announce1("b"), 1, 1, None, None, Announcing(2, 1), None, None, None),
          Steady(Announce1("b"), 1, Some(Lease("b", 1)), None))
  {
    hide Apply, PlanCommand, Recover, IsRun, Final, Initial, Last;
    var log1 := [PrimaryRecord("b", 1)];
    var b := Steady(Announce1("b"), 1, Some(Lease("b", 1)), None);
    var late := Replica(BLANK, 0, 1, None, None, Idle, None, None, None);
    var read := late.(view := Announce1("b"), position := 1);
    steps := BecomePrimary("b");
    steps := Take(steps, One(log1, [1], 1, "b", b), Open("a"), Two(log1, [1], 1, late, b));
    steps := Take(steps, Two(log1, [1], 1, late, b), Read("a"), Two(log1, [1], 1, read, b));
    steps := Take(steps, Two(log1, [1], 1, read, b), BeginActivation("a"),
        Two(log1, [1], 1, read.(activation := CatchingUp(1)), b));
    steps := Take(steps, Two(log1, [1], 1, read.(activation := CatchingUp(1)), b), ChooseEpoch("a"),
                  Two(log1, [1], 1, read.(activation := Announcing(2, 1)), b));
  }

  lemma ThirdEpoch(before: seq<Step>, late: Replica, b: Replica) returns (steps: seq<Step>)
    requires IsRun(Plain(), Initial(Plain()), before)
    requires var log2 := [PrimaryRecord("b", 1)] + [PrimaryRecord("b", 2)];
      Final(Plain(), Initial(Plain()), before) == Two(log2, [1] + [1], 1, late, b)
    requires b.activation.Idle? && b.inflight.None? && b.position == 2 && b.view.primary.epoch == 2
    requires b.producer == Some(1)
    ensures IsRun(Plain(), Initial(Plain()), steps)
    ensures var log3 := [PrimaryRecord("b", 1)] + [PrimaryRecord("b", 2)] + [PrimaryRecord("b", 3)];
      Final(Plain(), Initial(Plain()), steps) == Two(log3, [1] + [1] + [1], 1, late, b)
  {
    hide Apply, PlanCommand, Recover, IsRun, Final, Initial, Last;
    var log2 := [PrimaryRecord("b", 1)] + [PrimaryRecord("b", 2)];
    var log3 := log2 + [PrimaryRecord("b", 3)];
    var catching, chosen := b.(activation := CatchingUp(2)), b.(activation := Announcing(3, 2));
    steps := Take(before, Two(log2, [1] + [1], 1, late, b), BeginActivation("b"),
        Two(log2, [1] + [1], 1, late, catching));
    steps := Take(steps, Two(log2, [1] + [1], 1, late, catching), ChooseEpoch("b"),
        Two(log2, [1] + [1], 1, late, chosen));
    steps := Take(steps, Two(log2, [1] + [1], 1, late, chosen), Announce("b", false),
        Two(log3, [1] + [1] + [1], 1, late, b));
  }

  lemma RefusedAtTheEnd()
    ensures var announced := [PrimaryRecord("b", 1)] + [PrimaryRecord("b", 2)] + [PrimaryRecord("b", 3)];
      Consume(announced + [PrimaryRecord("a", 2)]).None?
  {
    EmptyConsumes();
    ConsumeAppend([], PrimaryRecord("b", 1));
    assert [] + [PrimaryRecord("b", 1)] == [PrimaryRecord("b", 1)];
    ConsumeAppend([PrimaryRecord("b", 1)], PrimaryRecord("b", 2));
    ConsumeAppend([PrimaryRecord("b", 1)] + [PrimaryRecord("b", 2)], PrimaryRecord("b", 3));
    ConsumeAppend([PrimaryRecord("b", 1)] + [PrimaryRecord("b", 2)] + [PrimaryRecord("b", 3)], PrimaryRecord("a", 2));
  }

  lemma EmptyConsumes()
    ensures Consume([]) == Some(BLANK)
  {
  }
}
