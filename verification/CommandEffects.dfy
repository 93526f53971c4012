/** When each command takes effect and what the queries return afterwards
    (internal/domain/machine.go, internal/domain/state.go). */
module CommandEffects {
  import opened Domain
  import opened State
  import opened Commands
  import opened RegistryInvariant
  import opened RegistryRuns
  import opened Deduplication
  import opened StateQueries

  /** The call proposed a transition, and it was applied and committed. */
  ghost predicate TakesEffect(s: Snapshot, check: Checker, c: Command, commit: Envelope -> bool) {
    PlanCommand(s, check, c).Proposed? && Execute(s, check, c, commit).1.Success?
  }

  lemma EffectShape(s: Snapshot, check: Checker, c: Command, commit: Envelope -> bool) returns (u: Snapshot)
    requires TakesEffect(s, check, c, commit)
    ensures var p, t := PlanCommand(s, check, c), Execute(s, check, c, commit).0;
      && Execute(s, check, c, commit).1 == Success(p.result) && Apply(s, p.envelope) == Ok(t)
      && ApplyPayload(s, p.envelope.body.payload) == Some(u) && t == Finish(u, p.envelope.body) && Validate(t)
  {
    hide PlanCommand, Apply;
    var p := PlanCommand(s, check, c);
    u := ApplyShape(s, p.envelope, Apply(s, p.envelope).value);
  }

  // ---- registration ----

  /** An explicit ID does not contradict what the registry knows. */
  ghost predicate IdFits(s: Snapshot, c: Command)
    requires c.Register?
  {
    c.requestedId != 0 ==>
      if c.identity in s.identityToId then c.requestedId == s.identityToId[c.identity] else c.requestedId !in s.schemas
  }

  /** An explicit version is not taken. */
  ghost predicate VersionFits(s: Snapshot, c: Command)
    requires c.Register?
  {
    c.requestedVersion != 0 ==>
      forall i :: 0 <= i < |ItemsOf(s, c.subject)| ==> ItemsOf(s, c.subject)[i].version != c.requestedVersion
  }

  /** The compatibility check passes or does not apply: import mode, no level, nothing to compare with. */
  ghost predicate Compatible(s: Snapshot, check: Checker, c: Command)
    requires c.Register?
  {
    || EffectiveMode(s, c.subject).Import? || EffectiveLevel(s, c.subject).NoCheck?
    || CompatibilitySchemas(s, c.subject) == []
    || check(s, EffectiveLevel(s, c.subject), Candidate(s, c), CompatibilitySchemas(s, c.subject))
  }

  lemma NextVersionIsFree(items: seq<SubjectVersion>)
    requires forall i :: 0 <= i < |items| ==> items[i].version >= 1
    ensures !HasVersion(items, Next64(MaxVersion(items)))
  {
  }

  /** A registration proposes a new version if and only if it is not on record, passes the checks, is
      not a duplicate, its explicit numbers fit, and it is compatible. */
  lemma RegistrationPlannedIff(s: Snapshot, check: Checker, c: Command, refsOf: string -> seq<Reference>)
    requires Inv(s, refsOf) && c.Register?
    ensures PlanCommand(s, check, c).Proposed? <==>
      && Unrecorded(s, c) && Admitted(s, c) && !Duplicate(s, c)
      && IdFits(s, c) && VersionFits(s, c) && Compatible(s, check, c)
  {
    hide ReferenceProblem, FindActiveId, CompatibilitySchemas, MaxVersion, Owned, Lookup;
    var items := ItemsOf(s, c.subject);
    if c.identity in s.identityToId { DuplicateIsFound(s, c); }
    forall i | 0 <= i < |items| ensures items[i].version >= 1 {
      assert ValidItem(s, c.subject, s.subjects[c.subject][i]);
    }
    NextVersionIsFree(items);
    NextIdIsFree(s);
    hide Inv;
    KnownIdMatches(s, c, refsOf);
  }

  /** Why a registration that is not on record is refused. */
  lemma RegistrationRefusedIff(s: Snapshot, check: Checker, c: Command, refsOf: string -> seq<Reference>)
    requires Inv(s, refsOf) && c.Register? && Unrecorded(s, c)
    ensures c.kind.UnknownType? || c.subject == "" || c.identity == "" || c.definition == "" ==>
      PlanCommand(s, check, c) == Refused(Invalid)
    ensures Complete(c) ==>
      (PlanCommand(s, check, c) == Refused(ReadOnlyMode) <==> EffectiveMode(s, c.subject).ReadOnly?)
    ensures PlanCommand(s, check, c) == Refused(Incompatible) <==>
      Admitted(s, c) && !Duplicate(s, c) && IdFits(s, c) && VersionFits(s, c) && !Compatible(s, check, c)
    ensures Admitted(s, c) && !Duplicate(s, c) ==>
      (PlanCommand(s, check, c) == Refused(Conflict) <==> !IdFits(s, c) || !VersionFits(s, c))
  {
    hide ReferenceProblem, FindActiveId, CompatibilitySchemas, MaxVersion, Owned, Lookup;
    var items := ItemsOf(s, c.subject);
    if c.identity in s.identityToId { DuplicateIsFound(s, c); }
    forall i | 0 <= i < |items| ensures items[i].version >= 1 {
      assert ValidItem(s, c.subject, s.subjects[c.subject][i]);
    }
    NextVersionIsFree(items);
    NextIdIsFree(s);
    hide Inv;
    KnownIdMatches(s, c, refsOf);
    ReferenceRefusals(s, c.references);
  }

  /** All fields that a registration needs are there. */
  ghost predicate Complete(c: Command)
    requires c.Register?
  {
    c.subject != "" && c.identity != "" && c.definition != "" && (c.kind.Avro? || c.kind.Protobuf? || c.kind.Json?)
  }

  lemma {:induction false} ReferenceRefusals(s: Snapshot, references: seq<Reference>)
    ensures ReferenceProblem(s, references) in {None, Some(Invalid), Some(NotFound)}
    decreases |references|
  {
    if references != [] { ReferenceRefusals(s, references[1..]); }
  }

  lemma NextIdIsFree(s: Snapshot)
    requires IdsBelowNext(s)
    ensures s.nextSchemaId !in s.schemas && s.nextSchemaId != 0
  {
  }

  lemma KnownIdMatches(s: Snapshot, c: Command, refsOf: string -> seq<Reference>)
    requires Inv(s, refsOf) && c.Register?
    ensures c.identity in s.identityToId ==>
      && s.identityToId[c.identity] in s.schemas && s.identityToId[c.identity] != 0
      && s.schemas[s.identityToId[c.identity]].identity == c.identity
    ensures c.identity !in s.identityToId ==>
      forall id :: id in s.schemas ==> s.schemas[id].identity != c.identity
  {
  }

  /** A registration that takes effect: the answered version is active and looks up the answered schema,
      which has the requested identity and, if that was unknown, all the requested contents; explicit
      numbers are honoured, others are the next ones; no other version and no other schema changes. */
  lemma RegistrationEffect(
    s: Snapshot, check: Checker, c: Command, commit: Envelope -> bool, refsOf: string -> seq<Reference>)
    requires Inv(s, refsOf) && WellIdentified(c, refsOf) && c.Register? && TakesEffect(s, check, c, commit)
    ensures var (t, r) := (Execute(s, check, c, commit).0, Execute(s, check, c, commit).1.result);
      && Lookup(t, c.subject, r.version, false).Some?
      && var (item, schema) := Lookup(t, c.subject, r.version, false).value;
         && item == SubjectVersion(c.subject, r.version, r.schemaId, c.timestamp, s.sequence + 1, false, false)
         && schema.id == r.schemaId && schema.identity == c.identity && r.guid == Some(schema.guid) && r.versions == []
         && t.subjects == s.subjects[c.subject := ItemsOf(s, c.subject) + [item]]
         && t.schemas == s.schemas[r.schemaId := schema]
         && (if c.identity in s.identityToId
             then r.schemaId in s.schemas && schema == s.schemas[r.schemaId]
             else r.schemaId !in s.schemas && schema == Schema(
               r.schemaId, Fingerprint(c.definition, c.references), c.identity, c.kind, c.definition, c.references))
    ensures var r := Execute(s, check, c, commit).1.result;
      && (c.requestedVersion != 0 ==> r.version == c.requestedVersion)
      && (c.requestedVersion == 0 ==> r.version == MaxVersion(ItemsOf(s, c.subject)) + 1)
      && (c.requestedId != 0 ==> r.schemaId == c.requestedId)
      && (c.requestedId == 0 && c.identity !in s.identityToId ==> r.schemaId == s.nextSchemaId)
  {
    hide ReferenceProblem, FindActiveId, CompatibilitySchemas, MaxVersion, Lookup, Validate, Inv, Apply;
    var u := EffectShape(s, check, c, commit);
    var t, r := Execute(s, check, c, commit).0, Execute(s, check, c, commit).1.result;
    SuccessIsInRange(s, check, c, refsOf, t);
    PlannedRegisterFacts(s, check, c, refsOf);
    KnownIdMatches(s, c, refsOf);
    var item := NewItem(s, c);
    var k := |ItemsOf(s, c.subject)|;
    assert ItemsOf(t, c.subject)[k] == item;
    assert Answers(t, c.subject, r.version, false, k);
    LookupIff(t, c.subject, r.version, false);
  }

  /** References pass exactly when each is complete and resolves to an active version. */
  lemma {:induction false} ReferencesPassIff(s: Snapshot, references: seq<Reference>)
    ensures ReferenceProblem(s, references).None? <==>
      forall i :: 0 <= i < |references| ==>
        && references[i].name != "" && references[i].subject != "" && references[i].version >= 1
        && Lookup(s, references[i].subject, references[i].version, false).Some?
    decreases |references|
  {
    if references != [] {
      ReferencesPassIff(s, references[1..]);
      assert forall i :: 1 <= i < |references| ==> references[i] == references[1..][i - 1];
      assert forall i :: 0 <= i < |references[1..]| ==> references[1..][i] == references[i + 1];
    }
  }

  // ---- deletion of a version ----

  /** The one list a deletion works on is the same but for one item's flags. */
  ghost predicate OnlyFlags(xs: seq<SubjectVersion>, ys: seq<SubjectVersion>, k: nat, permanent: bool) {
    k < |xs| && ys == xs[k := xs[k].(deleted := true, permanent := permanent)]
  }

  /** Some active version of some subject has a schema with a reference to this one. */
  ghost predicate ActivelyReferenced(s: Snapshot, subject: string, version: Int64) {
    exists x, i, r :: x in s.subjects && 0 <= i < |s.subjects[x]| && s.subjects[x][i].Active()
      && HasReference(s, s.subjects[x][i].schemaId, r) && r.subject == subject && r.version == version
  }

  ghost predicate HasReference(s: Snapshot, id: Int64, r: Reference) {
    id in s.schemas && r in s.schemas[id].references
  }

  lemma ReferencedIff(s: Snapshot, subject: string, version: Int64)
    ensures IsReferenced(s, subject, version) <==> ActivelyReferenced(s, subject, version)
  {
    if IsReferenced(s, subject, version) {
      var x :| x in s.subjects && ReferencedFrom(s, s.subjects[x], subject, version);
      var i :| 0 <= i < |s.subjects[x]| && s.subjects[x][i].Active()
        && Refers(s, s.subjects[x][i].schemaId, subject, version);
      var refs := s.schemas[s.subjects[x][i].schemaId].references;
      var k :| 0 <= k < |refs| && refs[k].subject == subject && refs[k].version == version;
      assert HasReference(s, s.subjects[x][i].schemaId, refs[k]);
    }
    if ActivelyReferenced(s, subject, version) {
      var x, i, r :| x in s.subjects && 0 <= i < |s.subjects[x]| && s.subjects[x][i].Active()
        && HasReference(s, s.subjects[x][i].schemaId, r) && r.subject == subject && r.version == version;
      var refs := s.schemas[s.subjects[x][i].schemaId].references;
      var k :| 0 <= k < |refs| && refs[k] == r;
      assert Refers(s, s.subjects[x][i].schemaId, subject, version);
      assert ReferencedFrom(s, s.subjects[x], subject, version);
    }
  }

  /** A deletion of a version is proposed if and only if it is not on record, the subject is not
      read-only, and the version is active, or for a permanent deletion soft-deleted and not referenced
      by any active version. */
  lemma DeletionPlannedIff(s: Snapshot, check: Checker, c: Command)
    requires Validate(s) && c.DeleteVersion?
    ensures PlanCommand(s, check, c).Proposed? <==>
      && Unrecorded(s, c) && !EffectiveMode(s, c.subject).ReadOnly?
      && (exists i :: 0 <= i < |ItemsOf(s, c.subject)| && Deletable(s, c, ItemsOf(s, c.subject)[i]))
    ensures Unrecorded(s, c) ==>
      && (PlanCommand(s, check, c) == Refused(ReadOnlyMode) <==> EffectiveMode(s, c.subject).ReadOnly?)
      && (PlanCommand(s, check, c) == Refused(NotFound) <==>
            !EffectiveMode(s, c.subject).ReadOnly? && !exists i :: Answers(s, c.subject, c.version, c.permanent, i))
  {
    hide Validate, Lookup, IsReferenced, ActivelyReferenced;
    ReferencedIff(s, c.subject, c.version);
    LookupIff(s, c.subject, c.version, c.permanent);
    if i :| Answers(s, c.subject, c.version, c.permanent, i) {
      assert Lookup(s, c.subject, c.version, c.permanent).value.0 == ItemsOf(s, c.subject)[i];
    }
    forall i | 0 <= i < |ItemsOf(s, c.subject)| && Deletable(s, c, ItemsOf(s, c.subject)[i])
      ensures Answers(s, c.subject, c.version, c.permanent, i)
    {
    }
  }

  ghost predicate Deletable(s: Snapshot, c: Command, item: SubjectVersion)
    requires c.DeleteVersion?
  {
    && item.version == c.version && !item.permanent
    && (if c.permanent then item.deleted && !ActivelyReferenced(s, c.subject, c.version) else !item.deleted)
  }

  /** After a soft deletion the version is found only when deleted ones are counted in, after a permanent
      one not at all; every other item of every subject, every schema and every setting is unchanged. */
  lemma DeletionEffect(s: Snapshot, check: Checker, c: Command, commit: Envelope -> bool) returns (k: nat)
    requires Validate(s) && c.DeleteVersion? && TakesEffect(s, check, c, commit)
    ensures var t := Execute(s, check, c, commit).0;
      && Lookup(t, c.subject, c.version, false).None?
      && (Lookup(t, c.subject, c.version, true).Some? <==> !c.permanent)
      && k < |ItemsOf(s, c.subject)| && ItemsOf(s, c.subject)[k].version == c.version
      && OnlyFlags(ItemsOf(s, c.subject), ItemsOf(t, c.subject), k, c.permanent)
      && (forall x :: x != c.subject ==> ItemsOf(t, x) == ItemsOf(s, x))
      && t.schemas == s.schemas && t.identityToId == s.identityToId
      && t.subjectLevels == s.subjectLevels && t.subjectModes == s.subjectModes
      && Execute(s, check, c, commit).1.result == Result(0, None, c.version, [])
  {
    hide Validate, Lookup, IsReferenced, Apply;
    var u := EffectShape(s, check, c, commit);
    var t := Execute(s, check, c, commit).0;
    assert PlanCommand(s, check, c).envelope.body.payload == VersionDeleted(c.subject, c.version, c.permanent);
    var xs, ys := ItemsOf(s, c.subject), ItemsOf(t, c.subject);
    k := FindLive(xs, c.version);
    assert OnlyFlags(xs, ys, k, c.permanent);
    LookupIff(t, c.subject, c.version, false);
    LookupIff(t, c.subject, c.version, true);
    UniqueNumber(s, c.subject, k);
    assert !c.permanent ==> Answers(t, c.subject, c.version, true, k);
    forall i, any | Answers(t, c.subject, c.version, any, i) ensures i == k { }
  }

  lemma UniqueNumber(s: Snapshot, subject: string, k: nat)
    requires Validate(s) && k < |ItemsOf(s, subject)|
    ensures forall i :: 0 <= i < |ItemsOf(s, subject)| && i != k ==>
      ItemsOf(s, subject)[i].version != ItemsOf(s, subject)[k].version
  {
    assert ValidItems(s, subject, s.subjects[subject]);
  }

  // ---- deletion of a subject ----

  /** The flags each item of a deleted subject ends with. */
  function Swept(item: SubjectVersion, permanent: bool): SubjectVersion {
    if item.permanent then item
    else if permanent then item.(deleted := true, permanent := true)
    else item.(deleted := true)
  }

  ghost predicate IsSwept(xs: seq<SubjectVersion>, ys: seq<SubjectVersion>, permanent: bool) {
    |ys| == |xs| && forall i :: 0 <= i < |xs| ==> ys[i] == Swept(xs[i], permanent)
  }

  /** After marking some of the versions, exactly those carry their final flags. */
  ghost predicate PartlySwept(xs: seq<SubjectVersion>, ys: seq<SubjectVersion>, done: seq<Int64>, permanent: bool) {
    |ys| == |xs| && forall i :: 0 <= i < |xs| ==>
      ys[i] == if xs[i].version in done && !xs[i].permanent
               then xs[i].(deleted := true, permanent := permanent) else xs[i]
  }

  lemma {:induction false} MarkAllSweeps(
    xs: seq<SubjectVersion>, s: Snapshot, subject: string, done: seq<Int64>, versions: seq<Int64>,
    permanent: bool, t: Snapshot)
    requires UniqueVersions(xs) && PartlySwept(xs, ItemsOf(s, subject), done, permanent)
    requires MarkAll(s, subject, versions, permanent) == Some(t)
    ensures PartlySwept(xs, ItemsOf(t, subject), done + versions, permanent)
    ensures t == s.(subjects := t.subjects) && forall x :: x != subject ==> ItemsOf(t, x) == ItemsOf(s, x)
    decreases |versions|
  {
    hide PartlySwept, MarkDeleted, UniqueVersions;
    if versions == [] {
      assert done + versions == done;
    } else {
      var next := MarkDeleted(s, subject, versions[0], permanent).value;
      MarkSweeps(xs, s, subject, done, versions[0], permanent, next);
      MarkAllSweeps(xs, next, subject, done + [versions[0]], versions[1..], permanent, t);
      assert done + [versions[0]] + versions[1..] == done + versions;
    }
  }

  lemma MarkSweeps(
    xs: seq<SubjectVersion>, s: Snapshot, subject: string, done: seq<Int64>, version: Int64,
    permanent: bool, t: Snapshot)
    requires UniqueVersions(xs) && PartlySwept(xs, ItemsOf(s, subject), done, permanent)
    requires MarkDeleted(s, subject, version, permanent) == Some(t)
    ensures PartlySwept(xs, ItemsOf(t, subject), done + [version], permanent)
    ensures t == s.(subjects := t.subjects) && forall x :: x != subject ==> ItemsOf(t, x) == ItemsOf(s, x)
  {
    var ys, zs := ItemsOf(s, subject), ItemsOf(t, subject);
    var k := FindLive(ys, version);
    assert zs == ys[k := ys[k].(deleted := true, permanent := permanent)];
    assert xs[k].version == version;
    forall i | 0 <= i < |xs| && i != k ensures xs[i].version != version { }
  }

  /** After the deletion of a subject none of its versions is listed any more, with the soft-deleted ones
      counted in if it was permanent; all other subjects, schemas and settings are unchanged. */
  lemma SubjectDeletionEffect(s: Snapshot, check: Checker, c: Command, commit: Envelope -> bool)
    requires Validate(s) && c.DeleteSubject? && TakesEffect(s, check, c, commit)
    ensures var t := Execute(s, check, c, commit).0;
      && VersionsIn(ItemsOf(t, c.subject), false) == []
      && (c.permanent ==> VersionsIn(ItemsOf(t, c.subject), true) == [])
      && IsSwept(ItemsOf(s, c.subject), ItemsOf(t, c.subject), c.permanent)
      && (forall x :: x != c.subject ==> ItemsOf(t, x) == ItemsOf(s, x))
      && t.schemas == s.schemas && t.identityToId == s.identityToId
      && t.subjectLevels == s.subjectLevels && t.subjectModes == s.subjectModes
      && Execute(s, check, c, commit).1.result.versions == VersionsIn(ItemsOf(s, c.subject), c.permanent)
  {
    hide Validate, Lookup, IsReferenced, Apply, VersionsIn, Removable, MarkAll, UniqueVersions;
    var u := EffectShape(s, check, c, commit);
    var t := Execute(s, check, c, commit).0;
    var xs, versions := ItemsOf(s, c.subject), VersionsIn(ItemsOf(s, c.subject), c.permanent);
    assert MarkAll(s, c.subject, versions, c.permanent) == Some(u);
    UniqueItems(s, c.subject);
    MarkAllSweeps(xs, s, c.subject, [], versions, c.permanent, u);
    var ys := ItemsOf(t, c.subject);
    assert [] + versions == versions;
    forall i | 0 <= i < |xs| ensures ys[i] == Swept(xs[i], c.permanent) {
      assert HasVisible(xs, xs[i].version, c.permanent) <==> xs[i].version in versions;
      OnlyVisible(xs, i, c.permanent);
      assert ys[i] == if xs[i].version in versions && !xs[i].permanent
                      then xs[i].(deleted := true, permanent := c.permanent) else xs[i];
    }
    NothingVisible(ys, false);
    if c.permanent { NothingVisible(ys, true); }
  }

  lemma UniqueItems(s: Snapshot, subject: string)
    requires Validate(s)
    ensures UniqueVersions(ItemsOf(s, subject))
  {
    if subject in s.subjects { assert ValidItems(s, subject, s.subjects[subject]); }
  }

  lemma OnlyVisible(xs: seq<SubjectVersion>, i: nat, includeDeleted: bool)
    requires UniqueVersions(xs) && i < |xs|
    ensures HasVisible(xs, xs[i].version, includeDeleted) <==> Visible(xs[i], includeDeleted)
  {
  }

  lemma NothingVisible(items: seq<SubjectVersion>, includeDeleted: bool)
    requires forall i :: 0 <= i < |items| ==> !Visible(items[i], includeDeleted)
    ensures VersionsIn(items, includeDeleted) == []
  {
  }

  /** A deletion of a subject is proposed if and only if it is not on record, the subject is not read-only
      and has a version to delete, and for a permanent one every version not yet gone is soft-deleted and
      not referenced by any active version. */
  lemma SubjectDeletionPlannedIff(s: Snapshot, check: Checker, c: Command)
    requires Validate(s) && c.DeleteSubject?
    ensures PlanCommand(s, check, c).Proposed? <==>
      && Unrecorded(s, c) && !EffectiveMode(s, c.subject).ReadOnly?
      && (exists i :: 0 <= i < |ItemsOf(s, c.subject)| && Visible(ItemsOf(s, c.subject)[i], c.permanent))
      && (c.permanent ==> forall i :: 0 <= i < |ItemsOf(s, c.subject)| && !ItemsOf(s, c.subject)[i].permanent ==>
            ItemsOf(s, c.subject)[i].deleted
            && !ActivelyReferenced(s, c.subject, ItemsOf(s, c.subject)[i].version))
  {
    hide Validate, Lookup, IsReferenced, VersionsIn, ActivelyReferenced;
    forall v ensures IsReferenced(s, c.subject, v) <==> ActivelyReferenced(s, c.subject, v) {
      ReferencedIff(s, c.subject, v);
    }
    var items, versions := ItemsOf(s, c.subject), VersionsIn(ItemsOf(s, c.subject), c.permanent);
    if i :| 0 <= i < |items| && Visible(items[i], c.permanent) {
      assert HasVisible(items, items[i].version, c.permanent) && items[i].version in versions;
    } else {
      NothingVisible(items, c.permanent);
    }
    if versions != [] { assert versions[0] in versions && HasVisible(items, versions[0], c.permanent); }
    if c.permanent {
      forall i | 0 <= i < |items| && !items[i].permanent
        ensures items[i].version in versions
        ensures Removable(s, c.subject, items[i].version) <==>
          items[i].deleted && !IsReferenced(s, c.subject, items[i].version)
      {
        assert Visible(items[i], true) && HasVisible(items, items[i].version, true);
        LookupIff(s, c.subject, items[i].version, true);
        assert Answers(s, c.subject, items[i].version, true, i);
      }
      forall k | 0 <= k < |versions|
        ensures exists i :: 0 <= i < |items| && !items[i].permanent && items[i].version == versions[k]
      {
        assert versions[k] in versions && HasVisible(items, versions[k], true);
      }
    }
  }

  // ---- configuration ----

  /** A setting is proposed if and only if it is not on record, its level or mode is a known one, and only
      a subject's setting is removed; unknown ones are invalid. */
  lemma ConfigurationPlannedIff(s: Snapshot, check: Checker, c: Command)
    requires !c.Register? && !c.DeleteVersion? && !c.DeleteSubject?
    ensures PlanCommand(s, check, c).Proposed? <==>
      && Unrecorded(s, c)
      && (c.SetCompatibility? ==> !c.level.UnknownLevel?) && (c.SetMode? ==> !c.mode.UnknownMode?)
      && (c.DeleteCompatibility? || c.DeleteMode? ==> c.subject != "")
    ensures (c.SetCompatibility? && c.level.UnknownLevel?) || (c.SetMode? && c.mode.UnknownMode?) ==>
      PlanCommand(s, check, c) == Refused(Invalid)
  {
  }

  /** A level or mode that was set is in effect, one that was removed gives way to the global one, and
      nothing else changes. */
  lemma ConfigurationEffect(s: Snapshot, check: Checker, c: Command, commit: Envelope -> bool, x: string)
    requires TakesEffect(s, check, c, commit) && !c.Register? && !c.DeleteVersion? && !c.DeleteSubject?
    ensures var t := Execute(s, check, c, commit).0;
      && t.subjects == s.subjects && t.schemas == s.schemas && t.identityToId == s.identityToId
      && (c.SetCompatibility? && c.subject != "" ==> EffectiveLevel(t, c.subject) == c.level)
      && (c.SetCompatibility? && c.subject == "" && x !in s.subjectLevels ==> EffectiveLevel(t, x) == c.level)
      && (c.DeleteCompatibility? ==> EffectiveLevel(t, c.subject) == s.globalLevel)
      && (c.SetMode? && c.subject != "" ==> EffectiveMode(t, c.subject) == c.mode)
      && (c.SetMode? && c.subject == "" && x !in s.subjectModes ==> EffectiveMode(t, x) == c.mode)
      && (c.DeleteMode? ==> EffectiveMode(t, c.subject) == s.globalMode)
      && (x != c.subject && c.subject != "" ==>
            EffectiveLevel(t, x) == EffectiveLevel(s, x) && EffectiveMode(t, x) == EffectiveMode(s, x))
  {
    hide Validate, Apply, MarkAll, MarkDeleted, RegisterInto;
    var u := EffectShape(s, check, c, commit);
    match c {
      case SetCompatibility(_, subject, level) =>
      case DeleteCompatibility(_, subject) =>
      case SetMode(_, subject, mode) =>
      case DeleteMode(_, subject) =>
    }
  }
}
