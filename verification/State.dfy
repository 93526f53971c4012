/** The materialised registry and its transition function (internal/domain/state.go). */
module State {
  import opened Domain

  datatype Snapshot = Snapshot(
    formatVersion: int,
    sequence: Uint64,
    nextSchemaId: Int64,
    schemas: map<Int64, Schema>,
    identityToId: map<string, Int64>,
    subjects: map<string, seq<SubjectVersion>>,
    globalLevel: Level,
    subjectLevels: map<string, Level>,
    globalMode: Mode,
    subjectModes: map<string, Mode>,
    operations: map<string, Result>)

  const EMPTY: Snapshot :=
    Snapshot(1, 0, 1, map[], map[], map[], Backward, map[], ReadWrite, map[], map[])

  function ItemsOf(s: Snapshot, subject: string): (items: seq<SubjectVersion>)
  {
    if subject in s.subjects then s.subjects[subject] else []
  }

  predicate UniqueVersions(items: seq<SubjectVersion>) {
    forall i, j :: 0 <= i < j < |items| ==> items[i].version != items[j].version
  }

  predicate ValidItem(s: Snapshot, subject: string, item: SubjectVersion) {
    item.subject == subject && item.version >= 1 && item.schemaId in s.schemas
  }

  predicate ValidItems(s: Snapshot, subject: string, items: seq<SubjectVersion>) {
    && UniqueVersions(items)
    && forall i :: 0 <= i < |items| ==> ValidItem(s, subject, items[i])
  }

  /** The consistency check that runs after every transition and on every restore. */
  predicate Validate(s: Snapshot) {
    && s.nextSchemaId >= 1 && s.globalLevel.Valid() && s.globalMode.Valid()
    && (forall x :: x in s.identityToId ==>
          s.identityToId[x] in s.schemas && s.schemas[s.identityToId[x]].identity == x)
    && (forall x :: x in s.subjects ==> ValidItems(s, x, s.subjects[x]))
  }

  function Restore(s: Snapshot): (r: Outcome<Snapshot>)
    ensures r.Ok? ==> r.value == s
  {
    if s.formatVersion == 1 && Validate(s) then Ok(s) else Err(Corrupt)
  }

  /** Index of the first item with this version that is not permanently deleted, or the length. */
  function FindLive(items: seq<SubjectVersion>, version: Int64): (k: nat)
    ensures k <= |items|
    ensures forall j :: 0 <= j < k ==> items[j].version != version || items[j].permanent
    ensures k < |items| ==> items[k].version == version && !items[k].permanent
  {
    if items == [] then 0
    else if items[0].version == version && !items[0].permanent then 0
    else 1 + FindLive(items[1..], version)
  }

  function Mark(items: seq<SubjectVersion>, version: Int64, permanent: bool): (r: Option<seq<SubjectVersion>>)
    ensures r.None? <==> forall j :: 0 <= j < |items| ==> items[j].version != version || items[j].permanent
    ensures r.Some? ==> |r.value| == |items|
    ensures r.Some? ==> forall j :: 0 <= j < |items| ==> r.value[j].Fixed() == items[j].Fixed()
  {
    var k := FindLive(items, version);
    if k == |items| then None
    else Some(items[k := items[k].(deleted := true, permanent := permanent)])
  }

  function MarkDeleted(s: Snapshot, subject: string, version: Int64, permanent: bool): (r: Option<Snapshot>)
  {
    match Mark(ItemsOf(s, subject), version, permanent)
    case None => None
    case Some(items) => Some(s.(subjects := s.subjects[subject := items]))
  }

  function MarkAll(s: Snapshot, subject: string, versions: seq<Int64>, permanent: bool): (r: Option<Snapshot>)
    decreases |versions|
  {
    if versions == [] then Some(s)
    else match MarkDeleted(s, subject, versions[0], permanent)
      case None => None
      case Some(next) => MarkAll(next, subject, versions[1..], permanent)
  }

  function RegisterInto(s: Snapshot, schema: Schema, item: SubjectVersion): (r: Snapshot)
  {
    s.(schemas := s.schemas[schema.id := schema],
       identityToId := s.identityToId[schema.identity := schema.id],
       subjects := s.subjects[item.subject := ItemsOf(s, item.subject) + [item]],
       nextSchemaId := if schema.id >= s.nextSchemaId then Next64(schema.id) else s.nextSchemaId)
  }

  function ApplyPayload(s: Snapshot, payload: Payload): (r: Option<Snapshot>)
  {
    match payload
    case SchemaRegistered(schema, item) =>
      if schema.id in s.schemas && s.schemas[schema.id].identity != schema.identity then None
      else Some(RegisterInto(s, schema, item))
    case VersionDeleted(subject, version, permanent) => MarkDeleted(s, subject, version, permanent)
    case SubjectDeleted(subject, versions, permanent) => MarkAll(s, subject, versions, permanent)
    case CompatibilitySet(subject, level) =>
      if subject == "" then Some(s.(globalLevel := level))
      else Some(s.(subjectLevels := s.subjectLevels[subject := level]))
    case CompatibilityDeleted(subject) => Some(s.(subjectLevels := s.subjectLevels - {subject}))
    case ModeSet(subject, mode) =>
      if subject == "" then Some(s.(globalMode := mode))
      else Some(s.(subjectModes := s.subjectModes[subject := mode]))
    case ModeDeleted(subject) => Some(s.(subjectModes := s.subjectModes - {subject}))
    case Missing => None
    case Undecodable => None
  }

  function Finish(s: Snapshot, body: Body): (r: Snapshot)
  {
    s.(sequence := body.sequence,
       operations := if body.op != "" then s.operations[body.op := body.result] else s.operations)
  }

  /** Validates and applies the next transition. */
  function Apply(s: Snapshot, e: Envelope): (r: Outcome<Snapshot>)
    ensures r.Ok? ==> e.Valid() && e.Seq() == s.sequence + 1 == r.value.sequence && Validate(r.value)
  {
    if !e.Valid() || e.Seq() != NextU64(s.sequence) then Err(Corrupt)
    else match ApplyPayload(s, e.body.payload)
      case None => Err(Corrupt)
      case Some(next) =>
        var done := Finish(next, e.body);
        if Validate(done) then Ok(done) else Err(Corrupt)
  }

  // ---- queries ----

  predicate Visible(item: SubjectVersion, includeDeleted: bool) {
    !item.permanent && (includeDeleted || !item.deleted)
  }

  function FindVisible(items: seq<SubjectVersion>, version: Int64, includeDeleted: bool): (k: nat)
    ensures k <= |items|
    ensures forall j :: 0 <= j < k ==> items[j].version != version || !Visible(items[j], includeDeleted)
    ensures k < |items| ==> items[k].version == version && Visible(items[k], includeDeleted)
  {
    if items == [] then 0
    else if items[0].version == version && Visible(items[0], includeDeleted) then 0
    else 1 + FindVisible(items[1..], version, includeDeleted)
  }

  function Lookup(s: Snapshot, subject: string, version: Int64, includeDeleted: bool)
    : (r: Option<(SubjectVersion, Schema)>)
  {
    var items := ItemsOf(s, subject);
    var k := FindVisible(items, version, includeDeleted);
    if k < |items| && items[k].schemaId in s.schemas then Some((items[k], s.schemas[items[k].schemaId])) else None
  }

  function EffectiveLevel(s: Snapshot, subject: string): Level {
    if subject in s.subjectLevels then s.subjectLevels[subject] else s.globalLevel
  }

  function EffectiveMode(s: Snapshot, subject: string): Mode {
    if subject in s.subjectModes then s.subjectModes[subject] else s.globalMode
  }

  predicate Ascending(xs: seq<Int64>) {
    forall i, j :: 0 <= i < j < |xs| ==> xs[i] <= xs[j]
  }

  function Insert(x: Int64, xs: seq<Int64>): (r: seq<Int64>)
    requires Ascending(xs)
    ensures forall v :: v in r <==> v == x || v in xs
    ensures Ascending(r)
  {
    if xs == [] then [x]
    else if x <= xs[0] then [x] + xs
    else
      var rest := Insert(x, xs[1..]);
      assert forall i :: 0 <= i < |rest| ==> rest[i] in rest;
      [xs[0]] + rest
  }

  /** The visible versions in ascending order. */
  function VersionsIn(items: seq<SubjectVersion>, includeDeleted: bool): (r: seq<Int64>)
    ensures Ascending(r)
    ensures forall v :: v in r <==> HasVisible(items, v, includeDeleted)
  {
    if items == [] then []
    else
      HasVisibleSplit(items, includeDeleted);
      var rest := VersionsIn(items[1..], includeDeleted);
      if Visible(items[0], includeDeleted) then Insert(items[0].version, rest) else rest
  }

  predicate HasVisible(items: seq<SubjectVersion>, v: Int64, includeDeleted: bool) {
    exists i :: 0 <= i < |items| && items[i].version == v && Visible(items[i], includeDeleted)
  }

  lemma HasVisibleSplit(items: seq<SubjectVersion>, includeDeleted: bool)
    requires items != []
    ensures forall v :: HasVisible(items, v, includeDeleted) <==>
        (items[0].version == v && Visible(items[0], includeDeleted)) || HasVisible(items[1..], v, includeDeleted)
  {
    forall v
      ensures HasVisible(items, v, includeDeleted) <==>
        (items[0].version == v && Visible(items[0], includeDeleted)) || HasVisible(items[1..], v, includeDeleted)
    {
      if HasVisible(items, v, includeDeleted) {
        var i :| 0 <= i < |items| && items[i].version == v && Visible(items[i], includeDeleted);
        if i > 0 { assert items[1..][i - 1] == items[i]; }
      }
      if HasVisible(items[1..], v, includeDeleted) {
        var i :| 0 <= i < |items[1..]| && items[1..][i].version == v && Visible(items[1..][i], includeDeleted);
        assert items[i + 1].version == v;
      }
    }
  }

  predicate Refers(s: Snapshot, id: Int64, subject: string, version: Int64) {
    && id in s.schemas
    && exists i :: 0 <= i < |s.schemas[id].references|
         && s.schemas[id].references[i].subject == subject && s.schemas[id].references[i].version == version
  }

  /** Some active subject version references the target: the code's ReferencedBy is not empty. */
  predicate IsReferenced(s: Snapshot, subject: string, version: Int64) {
    exists owner :: owner in s.subjects && ReferencedFrom(s, s.subjects[owner], subject, version)
  }

  predicate ReferencedFrom(s: Snapshot, items: seq<SubjectVersion>, subject: string, version: Int64) {
    exists i :: 0 <= i < |items| && items[i].Active() && Refers(s, items[i].schemaId, subject, version)
  }
}
