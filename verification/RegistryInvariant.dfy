/** What every registry command keeps, and what two states of one run have in common
    (internal/domain/machine.go, internal/domain/state.go).

    `refsOf` stands for the schema identity: the format engines hash a schema's references into it,
    so equal identities carry equal references. */
module RegistryInvariant {
  import opened Domain
  import opened State
  import opened Commands

  /** Identities and IDs are inverse to each other; a schema is stored under its own ID. */
  ghost predicate Bijection(s: Snapshot) {
    && (forall x :: x in s.identityToId ==>
          s.identityToId[x] in s.schemas && s.schemas[s.identityToId[x]].identity == x)
    && (forall id :: id in s.schemas ==>
          && s.schemas[id].id == id
          && s.schemas[id].identity in s.identityToId
          && s.identityToId[s.schemas[id].identity] == id)
  }

  /** The next ID is above every used one; zero, which means "unset" in a command, is never used. */
  ghost predicate IdsBelowNext(s: Snapshot) {
    s.nextSchemaId >= 1 && forall id :: id in s.schemas ==> id != 0 && id < s.nextSchemaId
  }

  ghost predicate OneActive(items: seq<SubjectVersion>) {
    forall i, j :: 0 <= i < j < |items| && items[i].Active() && items[j].Active() ==>
      items[i].schemaId != items[j].schemaId
  }

  ghost predicate Owned(s: Snapshot, id: Int64) {
    exists x, i :: x in s.subjects && 0 <= i < |s.subjects[x]| && s.subjects[x][i].schemaId == id
  }

  /** The referenced version exists and was registered before `bound`. */
  ghost predicate TargetBefore(s: Snapshot, r: Reference, bound: int) {
    exists j :: 0 <= j < |ItemsOf(s, r.subject)|
      && ItemsOf(s, r.subject)[j].version == r.version && ItemsOf(s, r.subject)[j].sequence < bound
  }

  /** The referenced version exists and is not permanently deleted. */
  ghost predicate LiveTarget(s: Snapshot, r: Reference) {
    exists j :: 0 <= j < |ItemsOf(s, r.subject)|
      && ItemsOf(s, r.subject)[j].version == r.version && !ItemsOf(s, r.subject)[j].permanent
  }

  ghost predicate ItemSound(s: Snapshot, item: SubjectVersion) {
    && 1 <= item.sequence <= s.sequence
    && (item.permanent ==> item.deleted)
    && item.schemaId in s.schemas
    && (forall k :: 0 <= k < |s.schemas[item.schemaId].references| ==>
          && TargetBefore(s, s.schemas[item.schemaId].references[k], item.sequence)
          && (item.Active() ==> LiveTarget(s, s.schemas[item.schemaId].references[k])))
  }

  ghost predicate ItemsSound(s: Snapshot, items: seq<SubjectVersion>) {
    OneActive(items) && forall i :: 0 <= i < |items| ==> ItemSound(s, items[i])
  }

  ghost predicate Inv(s: Snapshot, refsOf: string -> seq<Reference>) {
    && s.formatVersion == 1 && Validate(s)
    && Bijection(s)
    && IdsBelowNext(s)
    && (forall id :: id in s.schemas ==> Owned(s, id) && s.schemas[id].references == refsOf(s.schemas[id].identity))
    && (forall x :: x in s.subjects ==> ItemsSound(s, s.subjects[x]))
  }

  ghost predicate WellIdentified(c: Command, refsOf: string -> seq<Reference>) {
    c.Register? ==> c.references == refsOf(c.identity)
  }

  // ---- what a later state keeps of an earlier one ----

  ghost predicate ItemLater(a: SubjectVersion, b: SubjectVersion) {
    a.Fixed() == b.Fixed() && (a.deleted ==> b.deleted) && (a.permanent ==> b.permanent)
  }

  ghost predicate ItemsLater(xs: seq<SubjectVersion>, ys: seq<SubjectVersion>) {
    |xs| <= |ys| && forall i :: 0 <= i < |xs| ==> ItemLater(xs[i], ys[i])
  }

  /** Nothing recorded in `s` is lost or rewritten in `t`: schemas, identities and operation results
      are kept as they are, and a subject version changes only by gaining deletion flags. */
  ghost predicate Extends(s: Snapshot, t: Snapshot) {
    && s.sequence <= t.sequence && s.nextSchemaId <= t.nextSchemaId
    && (forall id :: id in s.schemas ==> id in t.schemas && t.schemas[id] == s.schemas[id])
    && (forall x :: x in s.identityToId ==> x in t.identityToId && t.identityToId[x] == s.identityToId[x])
    && (forall x :: x in s.subjects ==> x in t.subjects && ItemsLater(s.subjects[x], t.subjects[x]))
    && (forall op :: op in s.operations ==> op in t.operations && t.operations[op] == s.operations[op])
  }

  lemma ExtendsTransitive(s: Snapshot, t: Snapshot, u: Snapshot)
    requires Extends(s, t) && Extends(t, u)
    ensures Extends(s, u)
  {
    forall x | x in s.subjects
      ensures x in u.subjects && ItemsLater(s.subjects[x], u.subjects[x])
    {
      forall i | 0 <= i < |s.subjects[x]|
        ensures ItemLater(s.subjects[x][i], u.subjects[x][i])
      {
        assert ItemLater(s.subjects[x][i], t.subjects[x][i]) && ItemLater(t.subjects[x][i], u.subjects[x][i]);
      }
    }
  }

  // ---- deletions ----

  ghost predicate ItemDeletes(s: Snapshot, x: string, a: SubjectVersion, b: SubjectVersion) {
    && ItemLater(a, b)
    && (a != b ==> b.deleted)
    && (b.permanent && !a.permanent ==> a.deleted && !IsReferenced(s, x, a.version))
  }

  ghost predicate ItemsDelete(s: Snapshot, x: string, xs: seq<SubjectVersion>, ys: seq<SubjectVersion>) {
    |xs| == |ys| && forall i :: 0 <= i < |xs| ==> ItemDeletes(s, x, xs[i], ys[i])
  }

  /** `t` is `s` with deletion flags set, permanently only where nothing active refers. */
  ghost predicate Deletes(s: Snapshot, t: Snapshot) {
    && t == s.(subjects := t.subjects)
    && t.subjects.Keys == s.subjects.Keys
    && (forall x :: x in s.subjects ==> ItemsDelete(s, x, s.subjects[x], t.subjects[x]))
  }

  lemma MarkDeletes(s: Snapshot, u: Snapshot, subject: string, version: Int64, permanent: bool, t: Snapshot)
    requires Deletes(s, u) && MarkDeleted(u, subject, version, permanent) == Some(t)
    requires subject in s.subjects && UniqueVersions(s.subjects[subject])
    requires permanent ==> Removable(s, subject, version)
    ensures Deletes(s, t)
  {
    var xs, ys := s.subjects[subject], u.subjects[subject];
    var k := FindLive(ys, version);
    assert ItemDeletes(s, subject, xs[k], ys[k]);
    if permanent {
      var j := FindVisible(xs, version, true);
      assert xs[j].version == version && xs[k].version == version && j == k;
    }
    forall i | 0 <= i < |xs| ensures ItemDeletes(s, subject, xs[i], t.subjects[subject][i]) {
      assert ItemDeletes(s, subject, xs[i], ys[i]);
    }
  }

  lemma {:induction false} MarkAllDeletes(
    s: Snapshot, u: Snapshot, subject: string, versions: seq<Int64>, permanent: bool, t: Snapshot)
    requires Deletes(s, u) && MarkAll(u, subject, versions, permanent) == Some(t)
    requires versions != [] ==> subject in s.subjects && UniqueVersions(s.subjects[subject])
    requires permanent ==> forall i :: 0 <= i < |versions| ==> Removable(s, subject, versions[i])
    ensures Deletes(s, t)
    decreases |versions|
  {
    if versions != [] {
      var next := MarkDeleted(u, subject, versions[0], permanent).value;
      MarkDeletes(s, u, subject, versions[0], permanent, next);
      MarkAllDeletes(s, next, subject, versions[1..], permanent, t);
    }
  }

  lemma DeletesKeepTargets(s: Snapshot, t: Snapshot, item: SubjectVersion, r: Reference)
    requires Deletes(s, t)
    ensures TargetBefore(s, r, item.sequence) ==> TargetBefore(t, r, item.sequence)
    ensures LiveTarget(s, r) && IsReferenced(s, r.subject, r.version) ==> LiveTarget(t, r)
  {
    var xs, ys := ItemsOf(s, r.subject), ItemsOf(t, r.subject);
    if TargetBefore(s, r, item.sequence) {
      var j :| 0 <= j < |xs| && xs[j].version == r.version && xs[j].sequence < item.sequence;
      assert ItemDeletes(s, r.subject, xs[j], ys[j]);
      assert ys[j].version == r.version && ys[j].sequence == xs[j].Fixed().sequence;
    }
    if LiveTarget(s, r) && IsReferenced(s, r.subject, r.version) {
      var j :| 0 <= j < |xs| && xs[j].version == r.version && !xs[j].permanent;
      assert ItemDeletes(s, r.subject, xs[j], ys[j]);
      assert ys[j].version == r.version;
    }
  }

  lemma DeletesKeepItem(s: Snapshot, t: Snapshot, x: string, i: nat)
    requires Deletes(s, t) && x in s.subjects && i < |s.subjects[x]|
    requires ItemSound(s, s.subjects[x][i])
    ensures ItemSound(t, t.subjects[x][i])
  {
    var a, b := s.subjects[x][i], t.subjects[x][i];
    assert ItemDeletes(s, x, a, b);
    assert b.sequence == a.Fixed().sequence && b.schemaId == a.Fixed().schemaId;
    var refs := s.schemas[a.schemaId].references;
    forall k | 0 <= k < |refs|
      ensures TargetBefore(t, refs[k], b.sequence) && (b.Active() ==> LiveTarget(t, refs[k]))
    {
      if b.Active() {
        assert a.Active() && Refers(s, a.schemaId, refs[k].subject, refs[k].version);
        assert ReferencedFrom(s, s.subjects[x], refs[k].subject, refs[k].version);
      }
      DeletesKeepTargets(s, t, a, refs[k]);
    }
  }

  lemma DeletesKeepItems(s: Snapshot, t: Snapshot, x: string)
    requires Deletes(s, t) && x in s.subjects && ItemsSound(s, s.subjects[x])
    ensures ItemsSound(t, t.subjects[x]) && ItemsLater(s.subjects[x], t.subjects[x])
  {
    var xs, ys := s.subjects[x], t.subjects[x];
    forall i | 0 <= i < |ys|
      ensures ItemSound(t, ys[i]) && ItemDeletes(s, x, xs[i], ys[i]) && ys[i].schemaId == xs[i].schemaId
    {
      assert ItemDeletes(s, x, xs[i], ys[i]);
      assert ys[i].Fixed().schemaId == xs[i].schemaId;
      DeletesKeepItem(s, t, x, i);
    }
  }

  lemma DeletesKeepOwner(s: Snapshot, t: Snapshot, id: Int64)
    requires Deletes(s, t) && Owned(s, id)
    ensures Owned(t, id)
  {
    var x, i :| x in s.subjects && 0 <= i < |s.subjects[x]| && s.subjects[x][i].schemaId == id;
    assert ItemDeletes(s, x, s.subjects[x][i], t.subjects[x][i]);
    assert t.subjects[x][i].Fixed().schemaId == id;
  }

  lemma DeletesKeepInv(s: Snapshot, t: Snapshot, refsOf: string -> seq<Reference>)
    requires Inv(s, refsOf) && Deletes(s, t) && Validate(t)
    ensures Inv(t, refsOf) && Extends(s, t)
  {
    forall x | x in t.subjects ensures ItemsSound(t, t.subjects[x]) && ItemsLater(s.subjects[x], t.subjects[x]) {
      DeletesKeepItems(s, t, x);
    }
    forall id | id in t.schemas ensures Owned(t, id) { DeletesKeepOwner(s, t, id); }
  }

  // ---- registrations ----

  ghost predicate RegisterFacts(s: Snapshot, schema: Schema, item: SubjectVersion, refsOf: string -> seq<Reference>) {
    && schema.id == item.schemaId && schema.id != 0
    && (schema.id in s.schemas ==> s.schemas[schema.id] == schema)
    && (schema.id !in s.schemas ==> schema.identity !in s.identityToId)
    && schema.references == refsOf(schema.identity)
    && item.Active() && item.sequence == s.sequence + 1
    && (forall i :: 0 <= i < |ItemsOf(s, item.subject)| && ItemsOf(s, item.subject)[i].Active() ==>
          ItemsOf(s, item.subject)[i].schemaId != schema.id)
    && (forall k :: 0 <= k < |schema.references| ==> LiveTarget(s, schema.references[k]))
  }

  lemma RegisterKeepsTargets(s: Snapshot, schema: Schema, item: SubjectVersion, r: Reference, bound: int)
    ensures TargetBefore(s, r, bound) ==> TargetBefore(RegisterInto(s, schema, item), r, bound)
    ensures LiveTarget(s, r) ==> LiveTarget(RegisterInto(s, schema, item), r)
  {
    var t := RegisterInto(s, schema, item);
    var xs, ys := ItemsOf(s, r.subject), ItemsOf(t, r.subject);
    if TargetBefore(s, r, bound) {
      var j :| 0 <= j < |xs| && xs[j].version == r.version && xs[j].sequence < bound;
      assert ys[j] == xs[j];
    }
    if LiveTarget(s, r) {
      var j :| 0 <= j < |xs| && xs[j].version == r.version && !xs[j].permanent;
      assert ys[j] == xs[j];
    }
  }

  /** The items of every subject after a registration, one by one. */
  lemma RegisterKeepsItems(
    s: Snapshot, schema: Schema, item: SubjectVersion, refsOf: string -> seq<Reference>, t: Snapshot, x: string)
    requires Inv(s, refsOf) && RegisterFacts(s, schema, item, refsOf)
    requires t == RegisterInto(s, schema, item).(sequence := item.sequence)
    requires x in t.subjects
    ensures ItemsSound(t, t.subjects[x])
  {
    var xs, ys := ItemsOf(s, x), t.subjects[x];
    forall i | 0 <= i < |ys| ensures ItemSound(t, ys[i]) {
      var it := ys[i];
      if i < |xs| { assert it == xs[i] && ItemSound(s, xs[i]); } else { assert it == item; }
      var refs := t.schemas[it.schemaId].references;
      forall k | 0 <= k < |refs|
        ensures TargetBefore(t, refs[k], it.sequence) && (it.Active() ==> LiveTarget(t, refs[k]))
      {
        if i == |xs| && x == item.subject { TargetIsOld(s, refsOf, refs[k]); }
        RegisterKeepsTargets(s, schema, item, refs[k], it.sequence);
        assert ItemsOf(t, refs[k].subject) == ItemsOf(RegisterInto(s, schema, item), refs[k].subject);
      }
    }
  }

  lemma TargetIsOld(s: Snapshot, refsOf: string -> seq<Reference>, r: Reference)
    requires Inv(s, refsOf) && LiveTarget(s, r)
    ensures TargetBefore(s, r, s.sequence + 1)
  {
    var xs := ItemsOf(s, r.subject);
    var j :| 0 <= j < |xs| && xs[j].version == r.version && !xs[j].permanent;
    assert ItemSound(s, xs[j]);
  }

  lemma RegisterKeepsOwners(s: Snapshot, schema: Schema, item: SubjectVersion, t: Snapshot, id: Int64)
    requires t.subjects == RegisterInto(s, schema, item).subjects && item.schemaId == schema.id
    requires id == schema.id || Owned(s, id)
    ensures Owned(t, id)
  {
    if id == schema.id {
      assert t.subjects[item.subject][|ItemsOf(s, item.subject)|] == item;
    } else {
      var x, i :| x in s.subjects && 0 <= i < |s.subjects[x]| && s.subjects[x][i].schemaId == id;
      assert t.subjects[x][i] == s.subjects[x][i];
    }
  }

  lemma RegisterKeepsIds(s: Snapshot, schema: Schema, item: SubjectVersion, t: Snapshot)
    requires Bijection(s) && IdsBelowNext(s) && schema.id != 0
    requires schema.id in s.schemas ==> s.schemas[schema.id] == schema
    requires schema.id !in s.schemas ==> schema.identity !in s.identityToId
    requires t.schemas == s.schemas[schema.id := schema] && t.nextSchemaId >= 1
    requires t.identityToId == s.identityToId[schema.identity := schema.id]
    requires t.nextSchemaId == if schema.id >= s.nextSchemaId then Next64(schema.id) else s.nextSchemaId
    ensures Bijection(t) && IdsBelowNext(t) && s.nextSchemaId <= t.nextSchemaId
    ensures forall id :: id in s.schemas ==> id in t.schemas && t.schemas[id] == s.schemas[id]
    ensures forall x :: x in s.identityToId ==> x in t.identityToId && t.identityToId[x] == s.identityToId[x]
  {
  }

  lemma AppendKeepsItems(s: Snapshot, schema: Schema, item: SubjectVersion, x: string)
    requires x in s.subjects
    ensures x in RegisterInto(s, schema, item).subjects
    ensures ItemsLater(s.subjects[x], RegisterInto(s, schema, item).subjects[x])
  {
  }

  lemma RegisterKeepsInv(
    s: Snapshot, schema: Schema, item: SubjectVersion, refsOf: string -> seq<Reference>, t: Snapshot)
    requires Inv(s, refsOf) && RegisterFacts(s, schema, item, refsOf)
    requires t == RegisterInto(s, schema, item).(sequence := item.sequence) && Validate(t)
    ensures Inv(t, refsOf) && Extends(s, t)
  {
    RegisterKeepsIds(s, schema, item, t);
    forall x | x in s.subjects ensures x in t.subjects && ItemsLater(s.subjects[x], t.subjects[x]) {
      AppendKeepsItems(s, schema, item, x);
    }
    forall x | x in t.subjects ensures ItemsSound(t, t.subjects[x]) {
      RegisterKeepsItems(s, schema, item, refsOf, t, x);
    }
    forall id | id in t.schemas ensures Owned(t, id) && t.schemas[id].references == refsOf(t.schemas[id].identity) {
      RegisterKeepsOwners(s, schema, item, t, id);
    }
  }

  // ---- one command ----

  lemma ReferencesAreLive(s: Snapshot, references: seq<Reference>)
    requires ReferenceProblem(s, references).None?
    ensures forall k :: 0 <= k < |references| ==> LiveTarget(s, references[k])
  {
    forall k | 0 <= k < |references| ensures LiveTarget(s, references[k]) {
      var r := references[k];
      var items := ItemsOf(s, r.subject);
      var j := FindVisible(items, r.version, false);
      assert Lookup(s, r.subject, r.version, false).Some?;
      assert items[j].version == r.version && !items[j].permanent;
    }
  }

  lemma PlannedRegisterFacts(s: Snapshot, check: Checker, c: Command, refsOf: string -> seq<Reference>)
    requires Inv(s, refsOf) && c.Register? && WellIdentified(c, refsOf)
    requires PlanRegister(s, check, c).Proposed? && s.sequence < MAX_UINT64
    ensures RegisterFacts(s, Candidate(s, c), NewItem(s, c), refsOf)
    ensures PlanRegister(s, check, c).envelope.body.payload == SchemaRegistered(Candidate(s, c), NewItem(s, c))
  {
    hide Lookup, ReferenceProblem, CompatibilitySchemas, LiveTarget, MaxVersion, Owned;
    ReferencesAreLive(s, c.references);
    var id := ChosenId(s, c);
    if c.identity in s.identityToId {
      assert id == s.identityToId[c.identity];
      assert FindActiveId(ItemsOf(s, c.subject), id) == |ItemsOf(s, c.subject)|;
    } else {
      assert id !in s.schemas;
      forall i | 0 <= i < |ItemsOf(s, c.subject)| ensures ItemsOf(s, c.subject)[i].schemaId != id {
        assert ItemSound(s, ItemsOf(s, c.subject)[i]);
      }
    }
  }

  lemma RecordingKeepsInv(s: Snapshot, t: Snapshot, op: string, result: Result, refsOf: string -> seq<Reference>)
    requires Inv(t, refsOf) && Extends(s, t)
    requires t.operations == s.operations && op !in s.operations
    ensures Inv(t.(operations := t.operations[op := result]), refsOf)
    ensures Extends(s, t.(operations := t.operations[op := result]))
  {
    var v := t.(operations := t.operations[op := result]);
    assert Validate(t) && t.formatVersion == 1;
    hide Inv, Validate, ItemsLater;
    SameValidity(t, v);
    SameCoreKeepsInv(t, v, refsOf);
  }

  /** The invariant reads only the schemas, the subjects and the counters. */
  lemma SameCoreKeepsInv(s: Snapshot, t: Snapshot, refsOf: string -> seq<Reference>)
    requires Inv(s, refsOf) && Validate(t) && s.sequence <= t.sequence
    requires t.formatVersion == 1 && t.nextSchemaId == s.nextSchemaId
    requires t.schemas == s.schemas && t.identityToId == s.identityToId && t.subjects == s.subjects
    ensures Inv(t, refsOf)
  {
    forall x | x in t.subjects ensures ItemsSound(t, t.subjects[x]) {
      forall i | 0 <= i < |t.subjects[x]| ensures ItemSound(t, t.subjects[x][i]) {
        var it := t.subjects[x][i];
        assert ItemSound(s, it);
        var refs := s.schemas[it.schemaId].references;
        forall k | 0 <= k < |refs|
          ensures TargetBefore(t, refs[k], it.sequence) && (it.Active() ==> LiveTarget(t, refs[k]))
        {
          assert ItemsOf(s, refs[k].subject) == ItemsOf(t, refs[k].subject);
        }
      }
    }
    forall id | id in t.schemas ensures Owned(t, id) { assert Owned(s, id); }
  }

  lemma DeletionKeepsInv(s: Snapshot, u: Snapshot, refsOf: string -> seq<Reference>, t: Snapshot)
    requires Inv(s, refsOf) && Deletes(s, u) && Validate(t) && t.sequence > s.sequence
    requires t == u.(sequence := t.sequence)
    ensures Inv(t, refsOf) && Extends(s, t) && t.operations == s.operations
  {
    SameValidity(t, u);
    DeletesKeepInv(s, u, refsOf);
    SameCoreKeepsInv(u, t, refsOf);
  }

  lemma DeletesNothing(s: Snapshot)
    ensures Deletes(s, s)
  {
  }

  lemma SubjectDeletionDeletes(s: Snapshot, c: Command, u: Snapshot)
    requires Validate(s) && c.DeleteSubject? && PlanDeleteSubject(s, c).Proposed?
    requires ApplyPayload(s, PlanDeleteSubject(s, c).envelope.body.payload) == Some(u)
    ensures Deletes(s, u)
  {
    var versions := VersionsIn(ItemsOf(s, c.subject), c.permanent);
    assert versions[0] in versions;
    assert c.subject in s.subjects && ValidItems(s, c.subject, s.subjects[c.subject]);
    assert MarkAll(s, c.subject, versions, c.permanent) == Some(u);
    DeletesNothing(s);
    MarkAllDeletes(s, s, c.subject, versions, c.permanent, u);
  }

  lemma VersionDeletionDeletes(s: Snapshot, c: Command, u: Snapshot)
    requires Validate(s) && c.DeleteVersion? && PlanDeleteVersion(s, c).Proposed?
    requires ApplyPayload(s, PlanDeleteVersion(s, c).envelope.body.payload) == Some(u)
    ensures Deletes(s, u)
  {
    assert c.subject in s.subjects && ValidItems(s, c.subject, s.subjects[c.subject]);
    assert MarkDeleted(s, c.subject, c.version, c.permanent) == Some(u);
    DeletesNothing(s);
    MarkDeletes(s, s, c.subject, c.version, c.permanent, u);
  }

  lemma ConfigurationKeepsInv(s: Snapshot, c: Command, refsOf: string -> seq<Reference>, u: Snapshot, t: Snapshot)
    requires Inv(s, refsOf) && !c.Register? && !c.DeleteVersion? && !c.DeleteSubject?
    requires ApplyPayload(s, SimplePayload(c)) == Some(u) && Validate(t) && t.sequence > s.sequence
    requires t == u.(sequence := t.sequence)
    ensures Inv(t, refsOf) && Extends(s, t) && t.operations == s.operations
  {
    ConfigurationKeepsCore(s, c, u);
    SameCoreKeepsInv(s, t, refsOf);
    forall x | x in s.subjects ensures ItemsLater(s.subjects[x], t.subjects[x]) { }
  }

  lemma ConfigurationKeepsCore(s: Snapshot, c: Command, u: Snapshot)
    requires !c.Register? && !c.DeleteVersion? && !c.DeleteSubject?
    requires ApplyPayload(s, SimplePayload(c)) == Some(u)
    ensures u.formatVersion == s.formatVersion && u.nextSchemaId == s.nextSchemaId
    ensures u.schemas == s.schemas && u.identityToId == s.identityToId && u.subjects == s.subjects
    ensures u.operations == s.operations
  {
    hide MarkAll, MarkDeleted, RegisterInto;
    match c {
      case SetCompatibility(_, subject, level) =>
      case DeleteCompatibility(_, subject) =>
      case SetMode(_, subject, mode) =>
      case DeleteMode(_, subject) =>
    }
  }

  /** The state a payload leads to, before the operation result is recorded. */
  lemma PayloadKeepsInv(
    s: Snapshot, check: Checker, c: Command, refsOf: string -> seq<Reference>, u: Snapshot, t: Snapshot)
    requires Inv(s, refsOf) && WellIdentified(c, refsOf) && s.sequence < MAX_UINT64
    requires PlanCommand(s, check, c).Proposed?
    requires ApplyPayload(s, PlanCommand(s, check, c).envelope.body.payload) == Some(u)
    requires t == u.(sequence := s.sequence + 1) && Validate(t)
    ensures Inv(t, refsOf) && Extends(s, t) && t.operations == s.operations
  {
    if c.Register? {
      PlannedRegisterFacts(s, check, c, refsOf);
      RegisterKeepsInv(s, Candidate(s, c), NewItem(s, c), refsOf, t);
    } else if c.DeleteVersion? {
      VersionDeletionDeletes(s, c, u);
      DeletionKeepsInv(s, u, refsOf, t);
    } else if c.DeleteSubject? {
      SubjectDeletionDeletes(s, c, u);
      DeletionKeepsInv(s, u, refsOf, t);
    } else {
      ConfigurationKeepsInv(s, c, refsOf, u, t);
    }
  }

  /** A successful transition is its payload's effect, then the bookkeeping. */
  lemma ApplyShape(s: Snapshot, e: Envelope, t: Snapshot) returns (u: Snapshot)
    requires Apply(s, e) == Ok(t)
    ensures s.sequence < MAX_UINT64 && e.Seq() == s.sequence + 1
    ensures ApplyPayload(s, e.body.payload) == Some(u) && t == Finish(u, e.body)
    ensures Validate(u.(sequence := s.sequence + 1))
  {
    u := ApplyPayload(s, e.body.payload).value;
    SameValidity(t, u.(sequence := s.sequence + 1));
  }

  /** One planned transition keeps the invariant and loses nothing. */
  lemma StepKeepsInv(s: Snapshot, check: Checker, c: Command, refsOf: string -> seq<Reference>, t: Snapshot)
    requires Inv(s, refsOf) && WellIdentified(c, refsOf)
    requires PlanCommand(s, check, c).Proposed? && Apply(s, PlanCommand(s, check, c).envelope) == Ok(t)
    ensures Inv(t, refsOf) && Extends(s, t)
  {
    var p := PlanCommand(s, check, c);
    var u := ApplyShape(s, p.envelope, t);
    var v := u.(sequence := s.sequence + 1);
    PayloadKeepsInv(s, check, c, refsOf, u, v);
    if c.op != "" {
      RecordingKeepsInv(s, v, c.op, p.result, refsOf);
    }
    assert t == if c.op != "" then v.(operations := v.operations[c.op := p.result]) else v;
  }

  lemma SameValidity(t: Snapshot, v: Snapshot)
    requires Validate(t)
    requires v.nextSchemaId == t.nextSchemaId && v.globalLevel == t.globalLevel && v.globalMode == t.globalMode
    requires t.schemas == v.schemas && t.identityToId == v.identityToId && t.subjects == v.subjects
    ensures Validate(v)
  {
    forall x | x in v.subjects ensures ValidItems(v, x, v.subjects[x]) {
      forall i | 0 <= i < |v.subjects[x]| ensures ValidItem(v, x, v.subjects[x][i]) {
        assert ValidItem(t, x, t.subjects[x][i]);
      }
    }
  }
}
