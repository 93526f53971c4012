/** Which schemas a candidate is compared with, level by level, and what the three transitive levels
    keep for a comparison of any kind (internal/domain/types.go, internal/domain/machine.go). */
module TransitiveHistory {
  import opened Domain
  import opened State
  import opened Commands
  import opened RegistryInvariant
  import opened RegistryRuns
  import opened SubjectHistory

  // ---- the compared schemas ----

  /** The schemas of all active versions, lowest version first. */
  ghost predicate AllActiveSchemas(s: Snapshot, subject: string, schemas: seq<Schema>) {
    var versions := VersionsIn(ItemsOf(s, subject), false);
    && |schemas| == |versions|
    && forall k :: 0 <= k < |versions| ==> IsActiveSchema(s, subject, versions[k], schemas[k])
  }

  /** An active version of this number has this schema. */
  ghost predicate IsActiveSchema(s: Snapshot, subject: string, version: Int64, schema: Schema) {
    exists i :: 0 <= i < |ItemsOf(s, subject)| && ItemsOf(s, subject)[i].Active()
      && ItemsOf(s, subject)[i].version == version && ItemsOf(s, subject)[i].schemaId in s.schemas
      && s.schemas[ItemsOf(s, subject)[i].schemaId] == schema
  }

  /** The schema of the active version above all others. */
  ghost predicate IsNewestSchema(s: Snapshot, subject: string, schema: Schema) {
    exists i :: 0 <= i < |ItemsOf(s, subject)| && ItemsOf(s, subject)[i].Active()
      && ItemsOf(s, subject)[i].schemaId in s.schemas && s.schemas[ItemsOf(s, subject)[i].schemaId] == schema
      && forall j :: 0 <= j < |ItemsOf(s, subject)| && ItemsOf(s, subject)[j].Active() ==>
           ItemsOf(s, subject)[j].version <= ItemsOf(s, subject)[i].version
  }

  ghost predicate HasActive(s: Snapshot, subject: string) {
    exists i :: 0 <= i < |ItemsOf(s, subject)| && ItemsOf(s, subject)[i].Active()
  }

  lemma ActiveVersion(s: Snapshot, subject: string, v: Int64) returns (i: nat)
    requires Validate(s) && v in VersionsIn(ItemsOf(s, subject), false)
    ensures i < |ItemsOf(s, subject)| && ItemsOf(s, subject)[i].Active() && ItemsOf(s, subject)[i].version == v
    ensures ItemsOf(s, subject)[i].schemaId in s.schemas
    ensures Lookup(s, subject, v, false)
         == Some((ItemsOf(s, subject)[i], s.schemas[ItemsOf(s, subject)[i].schemaId]))
    ensures IsActiveSchema(s, subject, v, Lookup(s, subject, v, false).value.1)
  {
    hide Validate, Lookup;
    assert HasVisible(ItemsOf(s, subject), v, false);
    var items := ItemsOf(s, subject);
    i :| 0 <= i < |items| && items[i].version == v && Visible(items[i], false);
    LookupActive(s, subject, i);
  }

  lemma {:induction false} SchemasAtAll(s: Snapshot, subject: string, versions: seq<Int64>)
    requires Validate(s) && forall v :: v in versions ==> v in VersionsIn(ItemsOf(s, subject), false)
    ensures |SchemasAt(s, subject, versions)| == |versions|
    ensures forall k :: 0 <= k < |versions| ==>
      IsActiveSchema(s, subject, versions[k], SchemasAt(s, subject, versions)[k])
    decreases |versions|
  {
    hide Validate, Lookup, IsActiveSchema, VersionsIn;
    if versions != [] {
      var n := |versions| - 1;
      assert forall v :: v in versions[..n] ==> v in versions;
      SchemasAtAll(s, subject, versions[..n]);
      var i := ActiveVersion(s, subject, versions[n]);
      assert forall k :: 0 <= k < n ==> versions[k] == versions[..n][k];
    }
  }

  /** The three transitive levels compare with every active version; every other level compares with
      the newest one, if there is any. */
  lemma ComparedSchemas(s: Snapshot, subject: string)
    requires Validate(s)
    ensures match EffectiveLevel(s, subject)
      case BackwardTransitive => AllActiveSchemas(s, subject, CompatibilitySchemas(s, subject))
      case ForwardTransitive => AllActiveSchemas(s, subject, CompatibilitySchemas(s, subject))
      case FullTransitive => AllActiveSchemas(s, subject, CompatibilitySchemas(s, subject))
      case _ =>
        if HasActive(s, subject)
        then |CompatibilitySchemas(s, subject)| == 1 && IsNewestSchema(s, subject, CompatibilitySchemas(s, subject)[0])
        else CompatibilitySchemas(s, subject) == []
  {
    hide Validate, Lookup, VersionsIn, IsActiveSchema;
    var items := ItemsOf(s, subject);
    var versions := VersionsIn(items, false);
    SchemasAtAll(s, subject, versions);
    NoVersionsIff(s, subject);
    if versions != [] {
      var top := versions[|versions| - 1..];
      assert top == [versions[|versions| - 1]] && top[0] in versions;
      SchemasAtAll(s, subject, top);
      NewestIsTop(s, subject, SchemasAt(s, subject, top)[0]);
    }
  }

  lemma NoVersionsIff(s: Snapshot, subject: string)
    ensures VersionsIn(ItemsOf(s, subject), false) == [] <==> !HasActive(s, subject)
  {
    var items := ItemsOf(s, subject);
    var versions := VersionsIn(items, false);
    if HasActive(s, subject) {
      var i :| 0 <= i < |items| && items[i].Active();
      assert HasVisible(items, items[i].version, false);
    }
    if versions != [] {
      assert versions[0] in versions && HasVisible(items, versions[0], false);
    }
  }

  lemma NewestIsTop(s: Snapshot, subject: string, schema: Schema)
    requires VersionsIn(ItemsOf(s, subject), false) != []
    requires var versions := VersionsIn(ItemsOf(s, subject), false);
      IsActiveSchema(s, subject, versions[|versions| - 1], schema)
    ensures IsNewestSchema(s, subject, schema)
  {
    var items := ItemsOf(s, subject);
    var versions := VersionsIn(items, false);
    var top := versions[|versions| - 1];
    var i :| 0 <= i < |items| && items[i].Active() && items[i].version == top && items[i].schemaId in s.schemas
      && s.schemas[items[i].schemaId] == schema;
    forall j | 0 <= j < |items| && items[j].Active() ensures items[j].version <= items[i].version {
      assert HasVisible(items, items[j].version, false);
      assert items[j].version in versions;
      var p :| 0 <= p < |versions| && versions[p] == items[j].version;
      assert versions[p] <= top;
    }
  }

  // ---- what the transitive levels keep ----

  /** A relation between a newer and an older schema; nothing is assumed about it. */
  type Relation = (Schema, Schema) -> bool

  predicate ChecksAll(level: Level) { level.BackwardTransitive? || level.ForwardTransitive? || level.FullTransitive? }

  /** At a transitive level the callback accepts only candidates related to every given schema. */
  ghost predicate Enforces(related: Relation, check: Checker) {
    forall s, level, candidate: Schema, previous: seq<Schema> ::
      ChecksAll(level) && check(s, level, candidate, previous) ==>
        forall i :: 0 <= i < |previous| ==> related(candidate, previous[i])
  }

  ghost predicate PairsRelated(related: Relation, s: Snapshot, items: seq<SubjectVersion>) {
    forall i, j :: 0 <= i < |items| && 0 <= j < |items| && BothActive(items[i], items[j]) ==>
      SchemasRelated(related, s, items[j].schemaId, items[i].schemaId)
  }

  ghost predicate SchemasRelated(related: Relation, s: Snapshot, newer: Int64, older: Int64) {
    newer in s.schemas && older in s.schemas && related(s.schemas[newer], s.schemas[older])
  }

  /** Every registration in the subject meets a transitive level outside import mode. */
  ghost predicate AlwaysTransitive(s: Snapshot, check: Checker, calls: seq<Call>, subject: string)
    decreases |calls|
  {
    calls != [] ==>
      && (RegistersIn(calls[0].command, subject) ==>
            !EffectiveMode(s, subject).Import? && ChecksAll(EffectiveLevel(s, subject)))
      && AlwaysTransitive(Execute(s, check, calls[0].command, calls[0].commit).0, check, calls[1..], subject)
  }

  lemma CandidateIsRelated(related: Relation, s: Snapshot, check: Checker, c: Command, i: nat)
    requires Validate(s) && Enforces(related, check) && c.Register? && PlanRegister(s, check, c).Proposed?
    requires !EffectiveMode(s, c.subject).Import? && ChecksAll(EffectiveLevel(s, c.subject))
    requires i < |ItemsOf(s, c.subject)| && ItemsOf(s, c.subject)[i].Active()
    ensures ItemsOf(s, c.subject)[i].schemaId in s.schemas
    ensures related(Candidate(s, c), s.schemas[ItemsOf(s, c.subject)[i].schemaId])
  {
    hide Validate, Lookup, VersionsIn, ReferenceProblem, CompatibilitySchemas, FindActiveId;
    var items := ItemsOf(s, c.subject);
    ComparedSchemas(s, c.subject);
    LookupActive(s, c.subject, i);
    var versions := VersionsIn(items, false);
    assert HasVisible(items, items[i].version, false) && items[i].version in versions;
    var k :| 0 <= k < |versions| && versions[k] == items[i].version;
    var previous := CompatibilitySchemas(s, c.subject);
    assert IsActiveSchema(s, c.subject, versions[k], previous[k]);
    SameVersionSameSchema(s, c.subject, i, previous[k]);
    assert check(s, EffectiveLevel(s, c.subject), Candidate(s, c), previous);
  }

  lemma SameVersionSameSchema(s: Snapshot, subject: string, i: nat, schema: Schema)
    requires Validate(s) && i < |ItemsOf(s, subject)| && ItemsOf(s, subject)[i].schemaId in s.schemas
    requires IsActiveSchema(s, subject, ItemsOf(s, subject)[i].version, schema)
    ensures s.schemas[ItemsOf(s, subject)[i].schemaId] == schema
  {
    assert ValidItems(s, subject, s.subjects[subject]);
  }

  lemma StepKeepsRelated(
    related: Relation, s: Snapshot, check: Checker, call: Call, subject: string, refsOf: string -> seq<Reference>)
    requires Inv(s, refsOf) && WellIdentified(call.command, refsOf) && Enforces(related, check)
    requires PairsRelated(related, s, ItemsOf(s, subject))
    requires RegistersIn(call.command, subject) ==>
      !EffectiveMode(s, subject).Import? && ChecksAll(EffectiveLevel(s, subject))
    ensures var t := Execute(s, check, call.command, call.commit).0;
      PairsRelated(related, t, ItemsOf(t, subject))
  {
    hide Inv, Extends, Apply, PlanCommand, Enforces, ChecksAll, BothActive, PairsRelated;
    var c := call.command;
    var t := Execute(s, check, c, call.commit).0;
    ExecuteKeepsInv(s, check, c, call.commit, refsOf);
    if t != s {
      InvValidates(s, refsOf);
      ItemsOutcome(s, check, c, t, subject);
      if RegistersIn(c, subject) {
        RegisterKeepsRelated(related, s, check, c, t, refsOf);
      } else {
        SameLengthKeepsRelated(related, s, t, subject);
      }
    }
  }

  lemma KeptSchema(s: Snapshot, t: Snapshot, subject: string, i: nat)
    requires Validate(s) && Extends(s, t) && i < |ItemsOf(s, subject)|
    ensures i < |ItemsOf(t, subject)| && ItemsOf(t, subject)[i].version == ItemsOf(s, subject)[i].version
    ensures ItemsOf(t, subject)[i].Active() ==> ItemsOf(s, subject)[i].Active()
    ensures ItemsOf(s, subject)[i].schemaId in s.schemas && ItemsOf(t, subject)[i].schemaId in t.schemas
    ensures t.schemas[ItemsOf(t, subject)[i].schemaId] == s.schemas[ItemsOf(s, subject)[i].schemaId]
  {
    var a, b := ItemsOf(s, subject)[i], ItemsOf(t, subject)[i];
    assert ItemLater(a, b);
    assert b.Fixed().schemaId == a.schemaId && b.Fixed().version == a.version;
    assert ValidItem(s, subject, s.subjects[subject][i]);
  }

  lemma SameLengthKeepsRelated(related: Relation, s: Snapshot, t: Snapshot, subject: string)
    requires Validate(s) && Extends(s, t) && |ItemsOf(t, subject)| == |ItemsOf(s, subject)|
    requires PairsRelated(related, s, ItemsOf(s, subject))
    ensures PairsRelated(related, t, ItemsOf(t, subject))
  {
    hide Validate, Extends;
    var xs, ys := ItemsOf(s, subject), ItemsOf(t, subject);
    forall i, j | 0 <= i < |ys| && 0 <= j < |ys| && BothActive(ys[i], ys[j])
      ensures SchemasRelated(related, t, ys[j].schemaId, ys[i].schemaId)
    {
      KeptSchema(s, t, subject, i);
      KeptSchema(s, t, subject, j);
      assert BothActive(xs[i], xs[j]);
    }
  }

  lemma RegisterKeepsRelated(
    related: Relation, s: Snapshot, check: Checker, c: Command, t: Snapshot, refsOf: string -> seq<Reference>)
    requires Inv(s, refsOf) && WellIdentified(c, refsOf) && Enforces(related, check) && c.Register?
    requires !EffectiveMode(s, c.subject).Import? && ChecksAll(EffectiveLevel(s, c.subject))
    requires PlanCommand(s, check, c).Proposed? && Apply(s, PlanCommand(s, check, c).envelope) == Ok(t)
    requires Extends(s, t) && PairsRelated(related, s, ItemsOf(s, c.subject))
    ensures PairsRelated(related, t, ItemsOf(t, c.subject))
  {
    hide Inv, Extends, Apply, Enforces, ChecksAll, ReferenceProblem, CompatibilitySchemas, FindActiveId;
    InvValidates(s, refsOf);
    ItemsOutcome(s, check, c, t, c.subject);
    NewVersionOnTop(s, check, c, t, refsOf);
    ChosenCandidate(s, check, c, refsOf);
    var xs, ys := ItemsOf(s, c.subject), ItemsOf(t, c.subject);
    forall i, j | 0 <= i < |ys| && 0 <= j < |ys| && BothActive(ys[i], ys[j])
      ensures SchemasRelated(related, t, ys[j].schemaId, ys[i].schemaId)
    {
      assert i < |xs|;
      KeptSchema(s, t, c.subject, i);
      if j < |xs| {
        KeptSchema(s, t, c.subject, j);
        assert BothActive(xs[i], xs[j]);
      } else {
        CandidateIsRelated(related, s, check, c, i);
      }
    }
  }

  lemma ChosenCandidate(s: Snapshot, check: Checker, c: Command, refsOf: string -> seq<Reference>)
    requires Inv(s, refsOf) && c.Register?
    ensures Candidate(s, c).id == ChosenId(s, c)
  {
  }

  lemma {:induction false} RunKeepsRelated(
    related: Relation, s: Snapshot, check: Checker, calls: seq<Call>, subject: string, refsOf: string -> seq<Reference>)
    requires Inv(s, refsOf) && AllWellIdentified(calls, refsOf) && Enforces(related, check)
    requires PairsRelated(related, s, ItemsOf(s, subject)) && AlwaysTransitive(s, check, calls, subject)
    ensures PairsRelated(related, Run(s, check, calls), ItemsOf(Run(s, check, calls), subject))
    decreases |calls|
  {
    hide Inv, Extends, PairsRelated, Enforces, ChecksAll;
    if calls != [] {
      StepKeepsRelated(related, s, check, calls[0], subject, refsOf);
      ExecuteKeepsInv(s, check, calls[0].command, calls[0].commit, refsOf);
      var next := Execute(s, check, calls[0].command, calls[0].commit).0;
      RunKeepsRelated(related, next, check, calls[1..], subject, refsOf);
    }
  }

  /** Whatever the comparison is, transitive or not: a subject whose registrations all met one of the
      three transitive levels has every newer active version related to every older one. */
  lemma EveryPairIsRelated(
    related: Relation, check: Checker, calls: seq<Call>, subject: string, refsOf: string -> seq<Reference>,
    i: nat, j: nat)
    requires AllWellIdentified(calls, refsOf) && Enforces(related, check)
    requires AlwaysTransitive(EMPTY, check, calls, subject)
    requires i < |ItemsOf(Run(EMPTY, check, calls), subject)| && j < |ItemsOf(Run(EMPTY, check, calls), subject)|
    requires BothActive(ItemsOf(Run(EMPTY, check, calls), subject)[i], ItemsOf(Run(EMPTY, check, calls), subject)[j])
    ensures var t := Run(EMPTY, check, calls);
            var older, newer := ItemsOf(t, subject)[i].schemaId, ItemsOf(t, subject)[j].schemaId;
      older in t.schemas && newer in t.schemas && related(t.schemas[newer], t.schemas[older])
  {
    hide Inv, Run, Enforces, BothActive;
    EmptyInv(refsOf);
    RunKeepsRelated(related, EMPTY, check, calls, subject, refsOf);
  }
}
