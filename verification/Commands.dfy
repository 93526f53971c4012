/** What each registry command decides about a state (internal/domain/machine.go).

    A command either answers at once, is refused, or proposes one envelope for the durable log.
    The compatibility callback is a parameter; the committer's verdict is a parameter too. */
module Commands {
  import opened Domain
  import opened State

  type Checker = (Snapshot, Level, Schema, seq<Schema>) -> bool

  datatype Plan =
    | Replayed(result: Result)      // the operation ID was recorded earlier
    | Deduplicated(result: Result)  // the subject already has an active version with this identity
    | Refused(category: ErrorCategory)
    | Proposed(envelope: Envelope, result: Result)

  datatype Answer = Success(result: Result) | Failure(category: ErrorCategory)

  /** The first unusable reference decides the refusal. */
  function ReferenceProblem(s: Snapshot, references: seq<Reference>): (r: Option<ErrorCategory>)
    ensures r.None? ==> forall i :: 0 <= i < |references| ==>
              Lookup(s, references[i].subject, references[i].version, false).Some?
  {
    if references == [] then None
    else
      var f := references[0];
      if f.name == "" || f.subject == "" || f.version < 1 then Some(Invalid)
      else if Lookup(s, f.subject, f.version, false).None? then Some(NotFound)
      else
        assert forall i :: 1 <= i < |references| ==> references[i] == references[1..][i - 1];
        ReferenceProblem(s, references[1..])
  }

  function FindActiveId(items: seq<SubjectVersion>, id: Int64): (k: nat)
    ensures k <= |items|
    ensures forall j :: 0 <= j < k ==> items[j].schemaId != id || !items[j].Active()
    ensures k < |items| ==> items[k].schemaId == id && items[k].Active()
  {
    if items == [] then 0
    else if items[0].schemaId == id && items[0].Active() then 0
    else 1 + FindActiveId(items[1..], id)
  }

  /** The highest version ever used in the subject, at least zero. */
  function MaxVersion(items: seq<SubjectVersion>): (m: Int64)
    ensures m >= 0
    ensures forall i :: 0 <= i < |items| ==> items[i].version <= m
    ensures m > 0 ==> exists i :: 0 <= i < |items| && items[i].version == m
  {
    if items == [] then 0
    else
      var n := |items| - 1;
      var m := MaxVersion(items[..n]);
      if items[n].version > m then items[n].version else m
  }

  predicate HasVersion(items: seq<SubjectVersion>, version: Int64) {
    exists i :: 0 <= i < |items| && items[i].version == version
  }

  function SchemasAt(s: Snapshot, subject: string, versions: seq<Int64>): (r: seq<Schema>)
  {
    if versions == [] then []
    else
      var n := |versions| - 1;
      var rest := SchemasAt(s, subject, versions[..n]);
      match Lookup(s, subject, versions[n], false)
      case None => rest
      case Some(found) => rest + [found.1]
  }

  /** The schemas a candidate is compared with: every active one, or only the newest. */
  function CompatibilitySchemas(s: Snapshot, subject: string): (r: seq<Schema>)
  {
    var versions := VersionsIn(ItemsOf(s, subject), false);
    if versions == [] then []
    else if EffectiveLevel(s, subject).Transitive() then SchemasAt(s, subject, versions)
    else SchemasAt(s, subject, versions[|versions| - 1..])
  }

  function ChosenId(s: Snapshot, c: Command): Int64
    requires c.Register?
  {
    var id := if c.identity in s.identityToId then s.identityToId[c.identity] else c.requestedId;
    if id == 0 then s.nextSchemaId else id
  }

  function ChosenVersion(s: Snapshot, c: Command): Int64
    requires c.Register?
  {
    if c.requestedVersion == 0 then Next64(MaxVersion(ItemsOf(s, c.subject))) else c.requestedVersion
  }

  function Candidate(s: Snapshot, c: Command): Schema
    requires c.Register?
  {
    var id := ChosenId(s, c);
    if id in s.schemas then s.schemas[id]
    else Schema(id, Fingerprint(c.definition, c.references), c.identity, c.kind, c.definition, c.references)
  }

  function NewItem(s: Snapshot, c: Command): SubjectVersion
    requires c.Register?
  {
    SubjectVersion(c.subject, ChosenVersion(s, c), ChosenId(s, c), c.timestamp, NextU64(s.sequence), false, false)
  }

  function PlanNewVersion(s: Snapshot, check: Checker, c: Command): (p: Plan)
    requires c.Register?
  {
    if c.identity in s.identityToId && c.requestedId != 0 && c.requestedId != s.identityToId[c.identity] then
      Refused(Conflict)
    else
      var id := ChosenId(s, c);
      if id in s.schemas && s.schemas[id].identity != c.identity then Refused(Conflict)
      else if HasVersion(ItemsOf(s, c.subject), ChosenVersion(s, c)) then Refused(Conflict)
      else
        var candidate := Candidate(s, c);
        var previous := CompatibilitySchemas(s, c.subject);
        var level := EffectiveLevel(s, c.subject);
        if !EffectiveMode(s, c.subject).Import? && !level.NoCheck? && |previous| > 0
           && !check(s, level, candidate, previous)
        then Refused(Incompatible)
        else
          var result := Result(id, Some(candidate.guid), ChosenVersion(s, c), []);
          Proposed(NewEnvelope(NextU64(s.sequence), c.op, SchemaRegistered(candidate, NewItem(s, c)), result), result)
  }

  function PlanRegister(s: Snapshot, check: Checker, c: Command): (p: Plan)
    requires c.Register?
  {
    var mode := EffectiveMode(s, c.subject);
    if c.subject == "" || c.identity == "" || c.definition == "" || !ValidSchemaType(c.kind) then Refused(Invalid)
    else if mode.ReadOnly? then Refused(ReadOnlyMode)
    else if (c.requestedId != 0 || c.requestedVersion != 0) && !mode.Import? then Refused(Conflict)
    else
      var problem := ReferenceProblem(s, c.references);
      var items := ItemsOf(s, c.subject);
      if problem.Some? then Refused(problem.value)
      else if c.identity in s.identityToId && FindActiveId(items, s.identityToId[c.identity]) < |items| then
        var id := s.identityToId[c.identity];
        Deduplicated(Result(id, if id in s.schemas then Some(s.schemas[id].guid) else None,
                            items[FindActiveId(items, id)].version, []))
      else PlanNewVersion(s, check, c)
  }

  function PlanDeleteVersion(s: Snapshot, c: Command): (p: Plan)
    requires c.DeleteVersion?
  {
    if EffectiveMode(s, c.subject).ReadOnly? then Refused(ReadOnlyMode)
    else match Lookup(s, c.subject, c.version, c.permanent)
      case None => Refused(NotFound)
      case Some(found) =>
        if c.permanent && !found.0.deleted then Refused(Conflict)
        else if c.permanent && IsReferenced(s, c.subject, c.version) then Refused(Conflict)
        else
          var result := Result(0, None, c.version, []);
          Proposed(NewEnvelope(NextU64(s.sequence), c.op, VersionDeleted(c.subject, c.version, c.permanent), result),
              result)
  }

  /** The version may be removed for good: it is soft-deleted and nothing active references it. */
  predicate Removable(s: Snapshot, subject: string, version: Int64) {
    && Lookup(s, subject, version, true).Some?
    && Lookup(s, subject, version, true).value.0.deleted
    && !IsReferenced(s, subject, version)
  }

  function PlanDeleteSubject(s: Snapshot, c: Command): (p: Plan)
    requires c.DeleteSubject?
  {
    var versions := VersionsIn(ItemsOf(s, c.subject), c.permanent);
    if EffectiveMode(s, c.subject).ReadOnly? then Refused(ReadOnlyMode)
    else if versions == [] then Refused(NotFound)
    else if c.permanent && exists i :: 0 <= i < |versions| && !Removable(s, c.subject, versions[i])
    then Refused(Conflict)
    else
      var result := Result(0, None, 0, versions);
      Proposed(NewEnvelope(NextU64(s.sequence), c.op, SubjectDeleted(c.subject, versions, c.permanent), result), result)
  }

  function SimplePayload(c: Command): (p: Payload)
    requires !c.Register? && !c.DeleteVersion? && !c.DeleteSubject?
    ensures !p.Missing? && !p.SchemaRegistered? && !p.VersionDeleted? && !p.SubjectDeleted?
  {
    match c
    case SetCompatibility(_, subject, level) => CompatibilitySet(subject, level)
    case DeleteCompatibility(_, subject) => CompatibilityDeleted(subject)
    case SetMode(_, subject, mode) => ModeSet(subject, mode)
    case DeleteMode(_, subject) => ModeDeleted(subject)
  }

  /** The argument check that configuration commands make before looking at the state. */
  predicate WellFormed(c: Command) {
    match c
    case SetCompatibility(_, _, level) => level.Valid()
    case DeleteCompatibility(_, subject) => subject != ""
    case SetMode(_, _, mode) => mode.Valid()
    case DeleteMode(_, subject) => subject != ""
    case _ => true
  }

  function PlanCommand(s: Snapshot, check: Checker, c: Command): (p: Plan)
    ensures p.Proposed? ==> p.envelope.body.op == c.op && p.envelope.Seq() == NextU64(s.sequence)
                            && p.envelope.body.result == p.result
    ensures p.Proposed? && c.op != "" ==> c.op !in s.operations
    ensures p.Replayed? ==> c.op != "" && c.op in s.operations
    ensures p.Replayed? && (c.Register? || c.DeleteVersion? || c.DeleteSubject?) ==> p.result == s.operations[c.op]
  {
    if !WellFormed(c) then Refused(Invalid)
    else if c.op != "" && c.op in s.operations then
      Replayed(if c.Register? || c.DeleteVersion? || c.DeleteSubject? then s.operations[c.op] else NO_RESULT)
    else match c
      case Register(_, _, _, _, _, _, _, _, _) => PlanRegister(s, check, c)
      case DeleteVersion(_, _, _, _) => PlanDeleteVersion(s, c)
      case DeleteSubject(_, _, _) => PlanDeleteSubject(s, c)
      case _ => Proposed(NewEnvelope(NextU64(s.sequence), c.op, SimplePayload(c), NO_RESULT), NO_RESULT)
  }

  /** Dry-run the transition, commit it durably, then publish the new state. */
  function CommitApply(s: Snapshot, e: Envelope, result: Result, committed: bool): (r: (Snapshot, Answer))
    ensures r.0 == s || Apply(s, e) == Ok(r.0)
  {
    match Apply(s, e)
    case Err(category) => (s, Failure(category))
    case Ok(next) => if committed then (next, Success(result)) else (s, Failure(StorageFailure))
  }

  /** One command against a committer that accepts exactly the envelopes `commit` accepts. */
  function Execute(s: Snapshot, check: Checker, c: Command, commit: Envelope -> bool): (r: (Snapshot, Answer))
  {
    match PlanCommand(s, check, c)
    case Replayed(result) => (s, Success(result))
    case Deduplicated(result) => (s, Success(result))
    case Refused(category) => (s, Failure(category))
    case Proposed(e, result) => CommitApply(s, e, result, commit(e))
  }

  /** A replica's view of an envelope that is already durable. */
  function ApplyCommitted(s: Snapshot, e: Envelope): (r: Outcome<Snapshot>)
  {
    if e.Seq() <= s.sequence then Ok(s) else Apply(s, e)
  }
}
