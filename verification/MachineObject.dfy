/** The command serialiser as the object it is in internal/domain/machine.go: it holds one state,
    plans with loops over it, and replaces it after a commit. Each method is proved against the
    functions of `Commands`. The mutex makes every call one atomic step. */
module MachineObject {
  import opened Domain
  import opened State
  import opened Commands

  class Machine {
    var state: Snapshot
    const check: Checker

    constructor (state: Snapshot, check: Checker)
      ensures this.state == state && this.check == check
    {
      this.state := state;
      this.check := check;
    }

    method NextVersion(items: seq<SubjectVersion>) returns (version: Int64)
      ensures version == Next64(MaxVersion(items))
    {
      var maximum: Int64 := 0;
      for i := 0 to |items|
        invariant maximum == MaxVersion(items[..i])
      {
        assert items[..i + 1][..i] == items[..i];
        if items[i].version > maximum { maximum := items[i].version; }
      }
      assert items[..|items|] == items;
      version := Next64(maximum);
    }

    method CheckReferences(references: seq<Reference>) returns (problem: Option<ErrorCategory>)
      ensures problem == ReferenceProblem(state, references)
    {
      for i := 0 to |references|
        invariant ReferenceProblem(state, references) == ReferenceProblem(state, references[i..])
      {
        var reference := references[i];
        assert references[i..][1..] == references[i + 1..];
        if reference.name == "" || reference.subject == "" || reference.version < 1 { return Some(Invalid); }
        if Lookup(state, reference.subject, reference.version, false).None? { return Some(NotFound); }
      }
      problem := None;
    }

    method FindActive(items: seq<SubjectVersion>, id: Int64) returns (k: nat)
      ensures k == FindActiveId(items, id)
    {
      k := 0;
      while k < |items|
        invariant k <= |items|
        invariant FindActiveId(items, id) == k + FindActiveId(items[k..], id)
      {
        assert items[k..][1..] == items[k + 1..];
        if items[k].schemaId == id && items[k].Active() { return; }
        k := k + 1;
      }
    }

    method VersionTaken(items: seq<SubjectVersion>, version: Int64) returns (taken: bool)
      ensures taken <==> HasVersion(items, version)
    {
      for i := 0 to |items|
        invariant !HasVersion(items[..i], version)
      {
        if items[i].version == version { return true; }
      }
      assert items[..|items|] == items;
      taken := false;
    }

    method GatherCompatibilitySchemas(subject: string) returns (result: seq<Schema>)
      ensures result == CompatibilitySchemas(state, subject)
    {
      var versions := VersionsIn(ItemsOf(state, subject), false);
      if versions == [] { return []; }
      if !EffectiveLevel(state, subject).Transitive() { versions := versions[|versions| - 1..]; }
      result := [];
      for i := 0 to |versions|
        invariant result == SchemasAt(state, subject, versions[..i])
      {
        assert versions[..i + 1][..i] == versions[..i];
        var found := Lookup(state, subject, versions[i], false);
        if found.Some? { result := result + [found.value.1]; }
      }
      assert versions[..|versions|] == versions;
    }

    method PlanVersion(c: Command) returns (p: Plan)
      requires c.Register?
      ensures p == PlanNewVersion(state, check, c)
    {
      hide MaxVersion, CompatibilitySchemas, HasVersion;
      var id := c.requestedId;
      if c.identity in state.identityToId {
        if id != 0 && id != state.identityToId[c.identity] { return Refused(Conflict); }
        id := state.identityToId[c.identity];
      }
      if id == 0 { id := state.nextSchemaId; }
      if id in state.schemas && state.schemas[id].identity != c.identity { return Refused(Conflict); }
      var items := ItemsOf(state, c.subject);
      var version := c.requestedVersion;
      if version == 0 { version := NextVersion(items); }
      var taken := VersionTaken(items, version);
      if taken { return Refused(Conflict); }
      var candidate := Schema(id, Fingerprint(c.definition, c.references), c.identity, c.kind, c.definition,
          c.references);
      if id in state.schemas { candidate := state.schemas[id]; }
      var previous := GatherCompatibilitySchemas(c.subject);
      var level := EffectiveLevel(state, c.subject);
      if EffectiveMode(state, c.subject) != Import && level != NoCheck && |previous| > 0 {
        if !check(state, level, candidate, previous) { return Refused(Incompatible); }
      }
      var result := Result(id, Some(candidate.guid), version, []);
      var item := SubjectVersion(c.subject, version, id, c.timestamp, NextU64(state.sequence), false, false);
      p := Proposed(NewEnvelope(NextU64(state.sequence), c.op, SchemaRegistered(candidate, item), result), result);
    }

    method PlanRegistration(c: Command) returns (p: Plan)
      requires c.Register?
      ensures p == PlanRegister(state, check, c)
    {
      if c.subject == "" || c.identity == "" || c.definition == "" || !ValidSchemaType(c.kind) {
        return Refused(Invalid);
      }
      var mode := EffectiveMode(state, c.subject);
      if mode == ReadOnly { return Refused(ReadOnlyMode); }
      if (c.requestedId != 0 || c.requestedVersion != 0) && mode != Import { return Refused(Conflict); }
      var problem := CheckReferences(c.references);
      if problem.Some? { return Refused(problem.value); }
      if c.identity in state.identityToId {
        var id, items := state.identityToId[c.identity], ItemsOf(state, c.subject);
        var k := FindActive(items, id);
        if k < |items| {
          return Deduplicated(
            Result(id, if id in state.schemas then Some(state.schemas[id].guid) else None, items[k].version, []));
        }
      }
      p := PlanVersion(c);
    }

    /** Scans every owner's active versions; map iteration order is arbitrary. */
    method Referenced(subject: string, version: Int64) returns (found: bool)
      ensures found <==> IsReferenced(state, subject, version)
    {
      var owners := state.subjects.Keys;
      while owners != {}
        invariant owners <= state.subjects.Keys
        invariant forall o :: o in state.subjects && o !in owners ==>
                    !ReferencedFrom(state, state.subjects[o], subject, version)
      {
        var owner :| owner in owners;
        var items := state.subjects[owner];
        for i := 0 to |items|
          invariant forall j :: 0 <= j < i ==>
            !(items[j].Active() && Refers(state, items[j].schemaId, subject, version))
        {
          if items[i].Active() && Refers(state, items[i].schemaId, subject, version) { return true; }
        }
        owners := owners - {owner};
      }
      found := false;
    }

    method PlanSubjectDeletion(c: Command) returns (p: Plan)
      requires c.DeleteSubject?
      ensures p == PlanDeleteSubject(state, c)
    {
      if EffectiveMode(state, c.subject) == ReadOnly { return Refused(ReadOnlyMode); }
      var versions := VersionsIn(ItemsOf(state, c.subject), c.permanent);
      if versions == [] { return Refused(NotFound); }
      if c.permanent {
        for i := 0 to |versions|
          invariant forall j :: 0 <= j < i ==> Removable(state, c.subject, versions[j])
        {
          var item := Lookup(state, c.subject, versions[i], true);
          if item.None? || !item.value.0.deleted { return Refused(Conflict); }
          var referenced := Referenced(c.subject, versions[i]);
          if referenced { return Refused(Conflict); }
        }
      }
      var result := Result(0, None, 0, versions);
      p := Proposed(NewEnvelope(NextU64(state.sequence), c.op, SubjectDeleted(c.subject, versions, c.permanent),
          result), result);
    }

    /** Plans and runs one command; the state changes only after a successful commit. */
    method Run(c: Command, commit: Envelope -> bool) returns (a: Answer)
      modifies this
      ensures (state, a) == Execute(old(state), check, c, commit)
    {
      if !WellFormed(c) { return Failure(Invalid); }
      if c.op != "" && c.op in state.operations {
        return Success(if c.Register? || c.DeleteVersion? || c.DeleteSubject? then state.operations[c.op]
            else NO_RESULT);
      }
      var p: Plan;
      if c.Register? { p := PlanRegistration(c); }
      else if c.DeleteSubject? { p := PlanSubjectDeletion(c); }
      else { p := PlanCommand(state, check, c); }
      match p {
        case Replayed(result) => a := Success(result);
        case Deduplicated(result) => a := Success(result);
        case Refused(category) => a := Failure(category);
        case Proposed(e, result) =>
          var next := Apply(state, e);
          if next.Err? { return Failure(next.category); }
          if !commit(e) { return Failure(StorageFailure); }
          state := next.value;
          a := Success(result);
      }
    }

    /** Advances a follower from a durable envelope; an old one is ignored. */
    method Advance(e: Envelope) returns (ok: bool)
      modifies this
      ensures ok == Commands.ApplyCommitted(old(state), e).Ok?
      ensures state == if ok then Commands.ApplyCommitted(old(state), e).value else old(state)
    {
      if e.Seq() <= state.sequence { return true; }
      var next := Apply(state, e);
      if next.Err? { return false; }
      state := next.value;
      ok := true;
    }
  }
}
