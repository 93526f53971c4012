/** The transition function as the code runs it (internal/domain/state.go): Apply clones the
    snapshot and changes the clone in place. Each method is proved against the functions of `State`. */
module StateObject {
  import opened Domain
  import opened State

  class Draft {
    var value: Snapshot

    constructor (value: Snapshot)
      ensures this.value == value
    {
      this.value := value;
    }

    /** Flags the first version of that number which is not gone for good. */
    method MarkDeleted(subject: string, version: Int64, permanent: bool) returns (ok: bool)
      modifies this
      ensures ok == State.MarkDeleted(old(value), subject, version, permanent).Some?
      ensures value == if ok then State.MarkDeleted(old(value), subject, version, permanent).value else old(value)
    {
      var items := ItemsOf(value, subject);
      for i := 0 to |items|
        invariant value == old(value) && FindLive(items, version) == i + FindLive(items[i..], version)
      {
        assert items[i..][1..] == items[i + 1..];
        if items[i].version == version && !items[i].permanent {
          var marked := items[i := items[i].(deleted := true, permanent := permanent)];
          value := value.(subjects := value.subjects[subject := marked]);
          return true;
        }
      }
      ok := false;
    }

    method MarkAll(subject: string, versions: seq<Int64>, permanent: bool) returns (ok: bool)
      modifies this
      ensures ok == State.MarkAll(old(value), subject, versions, permanent).Some?
      ensures ok ==> value == State.MarkAll(old(value), subject, versions, permanent).value
    {
      hide State.MarkDeleted;
      for i := 0 to |versions|
        invariant State.MarkAll(old(value), subject, versions, permanent) ==
            State.MarkAll(value, subject, versions[i..], permanent)
      {
        assert versions[i..][1..] == versions[i + 1..];
        ok := MarkDeleted(subject, versions[i], permanent);
        if !ok { return; }
      }
      ok := true;
    }

    method Register(schema: Schema, item: SubjectVersion) returns (ok: bool)
      modifies this
      ensures ok == ApplyPayload(old(value), SchemaRegistered(schema, item)).Some?
      ensures value == if ok then RegisterInto(old(value), schema, item) else old(value)
    {
      if schema.id in value.schemas && value.schemas[schema.id].identity != schema.identity { return false; }
      value := value.(schemas := value.schemas[schema.id := schema]);
      value := value.(identityToId := value.identityToId[schema.identity := schema.id]);
      value := value.(subjects := value.subjects[item.subject := ItemsOf(value, item.subject) + [item]]);
      if schema.id >= value.nextSchemaId { value := value.(nextSchemaId := Next64(schema.id)); }
      ok := true;
    }

    method Change(payload: Payload) returns (ok: bool)
      modifies this
      ensures ok == ApplyPayload(old(value), payload).Some?
      ensures ok ==> value == ApplyPayload(old(value), payload).value
    {
      hide State.MarkAll, State.MarkDeleted;
      ok := true;
      match payload {
        case SchemaRegistered(schema, item) => ok := Register(schema, item);
        case VersionDeleted(subject, version, permanent) => ok := MarkDeleted(subject, version, permanent);
        case SubjectDeleted(subject, versions, permanent) => ok := MarkAll(subject, versions, permanent);
        case CompatibilitySet(subject, level) =>
          if subject == "" { value := value.(globalLevel := level); }
          else { value := value.(subjectLevels := value.subjectLevels[subject := level]); }
        case CompatibilityDeleted(subject) => value := value.(subjectLevels := value.subjectLevels - {subject});
        case ModeSet(subject, mode) =>
          if subject == "" { value := value.(globalMode := mode); }
          else { value := value.(subjectModes := value.subjectModes[subject := mode]); }
        case ModeDeleted(subject) => value := value.(subjectModes := value.subjectModes - {subject});
        case Missing => ok := false;
        case Undecodable => ok := false;
      }
    }
  }

  /** The original is untouched; the clone becomes the next state only if it validates. */
  method ApplyTo(s: Snapshot, e: Envelope) returns (r: Outcome<Snapshot>)
    ensures r == Apply(s, e)
  {
    hide Validate, ApplyPayload;
    if !e.Valid() || e.Seq() != NextU64(s.sequence) { return Err(Corrupt); }
    var draft := new Draft(s);
    var ok := draft.Change(e.body.payload);
    if !ok { return Err(Corrupt); }
    draft.value := draft.value.(sequence := e.Seq());
    if e.body.op != "" {
      draft.value := draft.value.(operations := draft.value.operations[e.body.op := e.body.result]);
    }
    r := if Validate(draft.value) then Ok(draft.value) else Err(Corrupt);
  }
}
