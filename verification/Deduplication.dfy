/** What deduplication costs: its answer is not on record, so a retry is answered from the state it
    meets (internal/domain/machine.go). */
module Deduplication {
  import opened Domain
  import opened State
  import opened Commands
  import opened RegistryInvariant
  import opened RegistryRuns

  /** The subject has an active version of the schema this registration asks for. */
  ghost predicate Duplicate(s: Snapshot, c: Command) {
    && c.Register? && c.identity in s.identityToId
    && exists i :: 0 <= i < |ItemsOf(s, c.subject)| && ItemsOf(s, c.subject)[i].Active()
         && ItemsOf(s, c.subject)[i].schemaId == s.identityToId[c.identity]
  }

  /** The checks a registration passes before the subject's versions are looked at. */
  ghost predicate Admitted(s: Snapshot, c: Command)
    requires c.Register?
  {
    && c.subject != "" && c.identity != "" && c.definition != "" && ValidSchemaType(c.kind)
    && !EffectiveMode(s, c.subject).ReadOnly?
    && (c.requestedId != 0 || c.requestedVersion != 0 ==> EffectiveMode(s, c.subject).Import?)
    && ReferenceProblem(s, c.references).None?
  }

  ghost predicate Unrecorded(s: Snapshot, c: Command) { c.op == "" || c.op !in s.operations }

  lemma DuplicateIsFound(s: Snapshot, c: Command)
    requires c.Register? && c.identity in s.identityToId
    ensures var items := ItemsOf(s, c.subject);
      FindActiveId(items, s.identityToId[c.identity]) < |items| <==> Duplicate(s, c)
  {
  }

  /** When a registration is deduplicated, and with which answer. */
  lemma DeduplicatedIff(s: Snapshot, check: Checker, c: Command)
    requires c.Register?
    ensures PlanCommand(s, check, c).Deduplicated? <==> Unrecorded(s, c) && Admitted(s, c) && Duplicate(s, c)
    ensures PlanCommand(s, check, c).Deduplicated? ==>
      exists i :: 0 <= i < |ItemsOf(s, c.subject)| && IsAnswer(s, c, i, PlanCommand(s, check, c).result)
  {
    hide ReferenceProblem, FindActiveId, PlanNewVersion;
    if c.identity in s.identityToId { DuplicateIsFound(s, c); }
    NewVersionsAreNotDeduplicated(s, check, c);
    if PlanCommand(s, check, c).Deduplicated? {
      var k := FindActiveId(ItemsOf(s, c.subject), s.identityToId[c.identity]);
      assert IsAnswer(s, c, k, PlanCommand(s, check, c).result);
    }
  }

  lemma NewVersionsAreNotDeduplicated(s: Snapshot, check: Checker, c: Command)
    requires c.Register?
    ensures !PlanNewVersion(s, check, c).Deduplicated?
  {
  }

  /** The result names the active version `i` of the subject and its schema. */
  ghost predicate IsAnswer(s: Snapshot, c: Command, i: int, r: Result)
    requires c.Register? && 0 <= i < |ItemsOf(s, c.subject)|
  {
    var item := ItemsOf(s, c.subject)[i];
    && item.Active() && c.identity in s.identityToId && item.schemaId == s.identityToId[c.identity]
    && r == Result(item.schemaId, if item.schemaId in s.schemas then Some(s.schemas[item.schemaId].guid) else None,
                   item.version, [])
  }

  /** A successful call is on record afterwards exactly when its operation was on record before or it
      is not a duplicate registration. */
  lemma SuccessIsRecordedIff(s: Snapshot, check: Checker, c: Command, commit: Envelope -> bool)
    requires c.op != "" && Execute(s, check, c, commit).1.Success?
    ensures c.op in Execute(s, check, c, commit).0.operations <==> c.op in s.operations || !Duplicate(s, c)
  {
    hide PlanCommand, Duplicate, Apply;
    var p := PlanCommand(s, check, c);
    OnlyRegistrationsAreDeduplicated(s, check, c);
    if c.Register? { DeduplicatedIff(s, check, c); }
    if c.op in s.operations {
      RecordedIsReplayed(s, check, c);
    } else if p.Proposed? {
      var u := ApplyShape(s, p.envelope, Apply(s, p.envelope).value);
      if Duplicate(s, c) { DuplicatesAreNotProposed(s, check, c); }
    }
  }

  lemma OnlyRegistrationsAreDeduplicated(s: Snapshot, check: Checker, c: Command)
    ensures PlanCommand(s, check, c).Deduplicated? ==> c.Register?
    ensures PlanCommand(s, check, c).Replayed? ==> c.op in s.operations
    ensures PlanCommand(s, check, c).Proposed? ==> PlanCommand(s, check, c).envelope.body.op == c.op
  {
    hide PlanRegister;
  }

  lemma RecordedIsReplayed(s: Snapshot, check: Checker, c: Command)
    requires c.op != "" && c.op in s.operations
    ensures PlanCommand(s, check, c).Replayed? || PlanCommand(s, check, c).Refused?
  {
    hide PlanRegister, PlanDeleteVersion, PlanDeleteSubject;
  }

  lemma DuplicatesAreNotProposed(s: Snapshot, check: Checker, c: Command)
    requires Duplicate(s, c) && Unrecorded(s, c)
    ensures !PlanCommand(s, check, c).Proposed?
  {
    hide ReferenceProblem, FindActiveId, PlanNewVersion;
    DuplicateIsFound(s, c);
  }

  // ---- retries ----

  /** The subject still has the version, active. */
  ghost predicate StillActive(s: Snapshot, subject: string, version: Int64) {
    exists i :: 0 <= i < |ItemsOf(s, subject)| && ItemsOf(s, subject)[i].version == version
        && ItemsOf(s, subject)[i].Active()
  }

  /** The version that answered a deduplicated call is at the same place later, with the same ID. */
  lemma AnsweringItem(s: Snapshot, t: Snapshot, c: Command, i: nat, r: Result)
    requires c.Register? && Extends(s, t) && Validate(s) && i < |ItemsOf(s, c.subject)| && IsAnswer(s, c, i, r)
    ensures i < |ItemsOf(t, c.subject)| && ItemsOf(t, c.subject)[i].version == r.version
    ensures ItemsOf(t, c.subject)[i].schemaId == r.schemaId
    ensures c.identity in t.identityToId && t.identityToId[c.identity] == r.schemaId
    ensures r.schemaId in t.schemas && r.guid == Some(t.schemas[r.schemaId].guid) && r.versions == []
  {
    var a, b := ItemsOf(s, c.subject)[i], ItemsOf(t, c.subject)[i];
    assert ItemLater(a, b);
    assert b.Fixed().version == a.version && b.Fixed().schemaId == a.schemaId;
    assert ValidItem(s, c.subject, a);
  }

  lemma OnlyItem(t: Snapshot, refsOf: string -> seq<Reference>, subject: string, i: nat)
    requires Inv(t, refsOf) && i < |ItemsOf(t, subject)|
    ensures forall k :: 0 <= k < |ItemsOf(t, subject)| && k != i ==>
      ItemsOf(t, subject)[k].version != ItemsOf(t, subject)[i].version
    ensures forall k ::
      0 <= k < |ItemsOf(t, subject)| && k != i && ItemsOf(t, subject)[k].Active() && ItemsOf(t, subject)[i].Active() ==>
      ItemsOf(t, subject)[k].schemaId != ItemsOf(t, subject)[i].schemaId
  {
    assert ItemsSound(t, t.subjects[subject]) && ValidItems(t, subject, t.subjects[subject]);
  }

  /** A plan for a new version never answers with a version the subject already has. */
  lemma NewVersionIsNew(t: Snapshot, check: Checker, c: Command, r: Result)
    requires c.Register? && HasVersion(ItemsOf(t, c.subject), r.version)
    ensures PlanNewVersion(t, check, c).Proposed? ==> PlanNewVersion(t, check, c).result.version != r.version
    ensures !PlanNewVersion(t, check, c).Replayed?
  {
    hide CompatibilitySchemas, MaxVersion;
  }

  lemma RetryAnswer(
    t: Snapshot, check: Checker, c: Command, commit: Envelope -> bool, refsOf: string -> seq<Reference>,
    i: nat, r: Result)
    requires Inv(t, refsOf) && c.Register? && Unrecorded(t, c)
    requires i < |ItemsOf(t, c.subject)| && ItemsOf(t, c.subject)[i].version == r.version
    requires ItemsOf(t, c.subject)[i].schemaId == r.schemaId
    requires c.identity in t.identityToId && t.identityToId[c.identity] == r.schemaId
    requires r.schemaId in t.schemas && r.guid == Some(t.schemas[r.schemaId].guid) && r.versions == []
    ensures Execute(t, check, c, commit).1 == Success(r) <==> Admitted(t, c) && StillActive(t, c.subject, r.version)
  {
    hide Inv, ReferenceProblem, FindActiveId, PlanNewVersion, CommitApply;
    OnlyItem(t, refsOf, c.subject, i);
    DeduplicatedIff(t, check, c);
    var items := ItemsOf(t, c.subject);
    assert StillActive(t, c.subject, r.version) <==> items[i].Active();
    assert HasVersion(items, r.version);
    NewVersionIsNew(t, check, c, r);
    var p := PlanCommand(t, check, c);
    if p.Deduplicated? {
      var k :| 0 <= k < |items| && IsAnswer(t, c, k, p.result);
    } else if p.Proposed? {
      CommitAnswers(t, p.envelope, p.result, commit(p.envelope));
    }
  }

  lemma CommitAnswers(s: Snapshot, e: Envelope, result: Result, committed: bool)
    ensures CommitApply(s, e, result, committed).1.Success? ==>
      CommitApply(s, e, result, committed).1 == Success(result)
  {
    hide Apply;
  }

  /** Of two states of which the later keeps what the earlier recorded: a registration deduplicated in
      the earlier gets the same answer in the later exactly when it passes and its version is active. */
  lemma LaterRetryIff(
    s: Snapshot, t: Snapshot, check: Checker, c: Command, commit: Envelope -> bool, refsOf: string -> seq<Reference>)
    requires Inv(s, refsOf) && Inv(t, refsOf) && Extends(s, t)
    requires c.Register? && Unrecorded(s, c) && Admitted(s, c) && Duplicate(s, c) && Unrecorded(t, c)
    ensures Execute(s, check, c, commit).1.Success?
    ensures var r := Execute(s, check, c, commit).1.result;
      Execute(t, check, c, commit).1 == Success(r) <==> Admitted(t, c) && StillActive(t, c.subject, r.version)
  {
    hide Inv, Admitted, Duplicate, PlanCommand, CommitApply, Extends;
    DeduplicatedIff(s, check, c);
    var r := PlanCommand(s, check, c).result;
    var i :| 0 <= i < |ItemsOf(s, c.subject)| && IsAnswer(s, c, i, r);
    assert Validate(s) by { InvIsValid(s, refsOf); }
    AnsweringItem(s, t, c, i, r);
    RetryAnswer(t, check, c, commit, refsOf, i, r);
  }

  /** A deduplicated registration retried after any run, its operation still not on record, gets the
      same answer if and only if it still passes the checks and its version is still active. */
  lemma DeduplicatedRetryIff(
    s: Snapshot, check: Checker, calls: seq<Call>, c: Command, commit: Envelope -> bool,
    refsOf: string -> seq<Reference>)
    requires Inv(s, refsOf) && AllWellIdentified(calls, refsOf)
    requires c.Register? && Unrecorded(s, c) && Admitted(s, c) && Duplicate(s, c)
    requires Unrecorded(Run(s, check, calls), c)
    ensures Execute(s, check, c, commit).1.Success?
    ensures var r, t := Execute(s, check, c, commit).1.result, Run(s, check, calls);
      Execute(t, check, c, commit).1 == Success(r) <==> Admitted(t, c) && StillActive(t, c.subject, r.version)
  {
    hide Inv, Admitted, Duplicate, Execute, Run, Extends;
    RunKeepsInv(s, check, calls, refsOf);
    LaterRetryIff(s, Run(s, check, calls), check, c, commit, refsOf);
  }

  lemma InvIsValid(s: Snapshot, refsOf: string -> seq<Reference>)
    requires Inv(s, refsOf)
    ensures Validate(s)
  {
  }

  // ---- a retry that is answered differently ----

  const SCHEMA := Schema(1, Fingerprint("d", []), "x", Avro, "d", [])
  const ITEM := SubjectVersion("s", 1, 1, 0, 1, false, false)

  function Attempt(op: string): Command { Register(op, "s", "x", Avro, "d", [], 0, 0, 0) }

  function Answered(version: Int64): Result { Result(1, Some(SCHEMA.guid), version, []) }

  /** After the first registration of the schema. */
  const REGISTERED := EMPTY.(
    sequence := 1, nextSchemaId := 2, schemas := map[1 := SCHEMA], identityToId := map["x" := 1],
    subjects := map["s" := [ITEM]], operations := map["first" := Answered(1)])

  /** After its version was soft-deleted. */
  const DELETED := REGISTERED.(
    sequence := 2, subjects := map["s" := [ITEM.(deleted := true)]],
    operations := REGISTERED.operations["delete" := Result(0, None, 1, [])])

  lemma ValidRegistered()
    ensures Validate(REGISTERED) && Validate(DELETED)
  {
    forall x | x in REGISTERED.subjects ensures ValidItems(REGISTERED, x, REGISTERED.subjects[x]) {
      assert ValidItem(REGISTERED, x, REGISTERED.subjects[x][0]);
    }
    forall x | x in DELETED.subjects ensures ValidItems(DELETED, x, DELETED.subjects[x]) {
      assert ValidItem(DELETED, x, DELETED.subjects[x][0]);
    }
  }

  lemma Registers(check: Checker, commit: Envelope -> bool)
    requires forall e :: commit(e)
    ensures Execute(EMPTY, check, Attempt("first"), commit) == (REGISTERED, Success(Answered(1)))
  {
    hide Validate;
    ValidRegistered();
    var c := Attempt("first");
    assert MaxVersion([]) == 0 && ItemsOf(EMPTY, "s") == [] && VersionsIn([], false) == [];
    var p := PlanCommand(EMPTY, check, c);
    assert p == Proposed(NewEnvelope(1, "first", SchemaRegistered(SCHEMA, ITEM), Answered(1)), Answered(1));
    var t := Finish(RegisterInto(EMPTY, SCHEMA, ITEM), p.envelope.body);
    assert [] + [ITEM] == [ITEM];
    assert t.subjects == REGISTERED.subjects && t.schemas == REGISTERED.schemas;
    assert t.identityToId == REGISTERED.identityToId && t.operations == REGISTERED.operations;
    assert t == REGISTERED;
  }

  lemma Deduplicates(check: Checker, commit: Envelope -> bool)
    ensures Execute(REGISTERED, check, Attempt("retry"), commit) == (REGISTERED, Success(Answered(1)))
  {
    assert ItemsOf(REGISTERED, "s") == [ITEM] && FindActiveId([ITEM], 1) == 0;
    assert "retry" !in REGISTERED.operations;
  }

  lemma DeletesVersion(check: Checker, commit: Envelope -> bool)
    requires forall e :: commit(e)
    ensures Execute(REGISTERED, check, DeleteVersion("delete", "s", 1, false), commit).0 == DELETED
  {
    hide Validate;
    ValidRegistered();
    assert ItemsOf(REGISTERED, "s") == [ITEM] && FindVisible([ITEM], 1, false) == 0 && FindLive([ITEM], 1) == 0;
    var p := PlanCommand(REGISTERED, check, DeleteVersion("delete", "s", 1, false));
    assert p.Proposed? && p.envelope.body.payload == VersionDeleted("s", 1, false);
    assert [ITEM][0 := ITEM.(deleted := true, permanent := false)] == [ITEM.(deleted := true)];
    var u := MarkDeleted(REGISTERED, "s", 1, false).value;
    assert Finish(u, p.envelope.body) == DELETED;
  }

  lemma RegistersAgain(check: Checker, commit: Envelope -> bool)
    requires forall e :: commit(e)
    ensures Execute(DELETED, check, Attempt("retry"), commit).1 == Success(Answered(2))
  {
    var gone := ITEM.(deleted := true);
    var items := [gone];
    assert ItemsOf(DELETED, "s") == items && items[..0] == [] && MaxVersion(items[..0]) == 0 && MaxVersion(items) == 1;
    assert FindActiveId(items, 1) == 1 by { assert items[1..] == [] && FindActiveId([], 1) == 0; }
    assert VersionsIn(items, false) == [] by { assert items[1..] == []; }
    var c := Attempt("retry");
    var p := PlanCommand(DELETED, check, c);
    assert ChosenId(DELETED, c) == 1 && ChosenVersion(DELETED, c) == 2 && Candidate(DELETED, c) == SCHEMA;
    assert !HasVersion(items, 2) && CompatibilitySchemas(DELETED, "s") == [];
    assert p == Proposed(NewEnvelope(3, "retry", SchemaRegistered(SCHEMA, NewItem(DELETED, c)), Answered(2)),
        Answered(2));
    StillValid(NewItem(DELETED, c), p.envelope.body);
  }

  lemma StillValid(item: SubjectVersion, body: Body)
    requires item == SubjectVersion("s", 2, 1, 0, 3, false, false)
    ensures Validate(Finish(RegisterInto(DELETED, SCHEMA, item), body))
  {
    var t := Finish(RegisterInto(DELETED, SCHEMA, item), body);
    assert t.subjects["s"] == [ITEM.(deleted := true), item];
    forall x | x in t.subjects ensures ValidItems(t, x, t.subjects[x]) {
      assert ValidItem(t, x, t.subjects[x][0]) && ValidItem(t, x, t.subjects[x][1]);
    }
  }

  /** A registration answered by deduplication with version 1 is retried under its operation ID after
      that version was soft-deleted, and is answered with version 2. */
  lemma RetryAfterDeduplicationDiffers(check: Checker, commit: Envelope -> bool)
    requires forall e :: commit(e)
    ensures var first := Execute(EMPTY, check, Attempt("first"), commit).0;
            var deduplicated := Execute(first, check, Attempt("retry"), commit);
            var deleted := Execute(deduplicated.0, check, DeleteVersion("delete", "s", 1, false), commit).0;
      && deduplicated.1 == Success(Answered(1))
      && Execute(deleted, check, Attempt("retry"), commit).1 == Success(Answered(2))
  {
    hide Execute;
    Registers(check, commit);
    Deduplicates(check, commit);
    DeletesVersion(check, commit);
    RegistersAgain(check, commit);
  }
}
