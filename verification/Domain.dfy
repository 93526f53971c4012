/** The registry's values: schemas, subject versions, commands and the durable
    transition envelope (internal/domain/types.go and internal/domain/transition.go).

    A JSON payload is a datatype value here, and a digest is a free constructor applied to
    the hashed value, so two digests agree exactly when the hashed values agree. */
module Domain {

  const MAX_INT64: int := 0x7FFF_FFFF_FFFF_FFFF
  const MIN_INT64: int := -0x8000_0000_0000_0000
  const MAX_UINT64: int := 0xFFFF_FFFF_FFFF_FFFF

  type Int64 = x: int | -0x8000_0000_0000_0000 <= x <= 0x7FFF_FFFF_FFFF_FFFF
  type Uint64 = x: int | 0 <= x <= 0xFFFF_FFFF_FFFF_FFFF

  /** Signed 64-bit increment with Go's wrap-around. */
  function Next64(x: Int64): (r: Int64)
    ensures x < MAX_INT64 ==> r == x + 1
    ensures x == MAX_INT64 ==> r < 1
  {
    if x == MAX_INT64 then MIN_INT64 else x + 1
  }

  /** Unsigned 64-bit increment with Go's wrap-around. */
  function NextU64(x: Uint64): (r: Uint64)
    ensures r != 0 ==> r == x + 1
    ensures r == 0 <==> x == MAX_UINT64
  {
    if x == MAX_UINT64 then 0 else x + 1
  }

  datatype Option<+T> = None | Some(value: T)

  datatype ErrorCategory =
    Invalid | NotFound | Conflict | Incompatible | ReadOnlyMode | StorageFailure | Corrupt

  datatype Outcome<+T> = Ok(value: T) | Err(category: ErrorCategory)

  datatype SchemaType = Avro | Protobuf | Json | UnknownType(name: string)

  predicate ValidSchemaType(t: SchemaType) { !t.UnknownType? }

  datatype Level =
    | NoCheck | Backward | BackwardTransitive | Forward | ForwardTransitive | Full | FullTransitive
    | UnknownLevel(name: string)
  {
    predicate Valid() { !UnknownLevel? }
    predicate Transitive() { BackwardTransitive? || ForwardTransitive? || FullTransitive? }
  }

  datatype Mode = ReadWrite | ReadOnly | Import | UnknownMode(name: string) {
    predicate Valid() { !UnknownMode? }
  }

  datatype Reference = Reference(name: string, subject: string, version: Int64)

  /** The fingerprint of a definition and its references; only ever compared for equality. */
  datatype Guid = Fingerprint(definition: string, references: seq<Reference>)

  datatype Schema = Schema(
    id: Int64, guid: Guid, identity: string, kind: SchemaType, definition: string, references: seq<Reference>)

  datatype SubjectVersion = SubjectVersion(
    subject: string, version: Int64, schemaId: Int64, timestamp: Int64, sequence: Uint64,
    deleted: bool, permanent: bool)
  {
    predicate Active() { !deleted && !permanent }

    /** What a subject version keeps for ever: everything but the two deletion flags. */
    function Fixed(): SubjectVersion { this.(deleted := false, permanent := false) }
  }

  datatype Result = Result(schemaId: Int64, guid: Option<Guid>, version: Int64, versions: seq<Int64>)

  const NO_RESULT := Result(0, None, 0, [])

  datatype Command =
    | Register(op: string, subject: string, identity: string, kind: SchemaType, definition: string,
               references: seq<Reference>, requestedId: Int64, requestedVersion: Int64, timestamp: Int64)
    | DeleteVersion(op: string, subject: string, version: Int64, permanent: bool)
    | DeleteSubject(op: string, subject: string, permanent: bool)
    | SetCompatibility(op: string, subject: string, level: Level)
    | DeleteCompatibility(op: string, subject: string)
    | SetMode(op: string, subject: string, mode: Mode)
    | DeleteMode(op: string, subject: string)

  /** `Missing` is an absent kind or empty payload; `Undecodable` is an unknown kind or a payload
      whose JSON does not decode. */
  datatype Payload =
    | SchemaRegistered(schema: Schema, item: SubjectVersion)
    | VersionDeleted(subject: string, version: Int64, permanent: bool)
    | SubjectDeleted(subject: string, versions: seq<Int64>, permanent: bool)
    | CompatibilitySet(subject: string, level: Level)
    | CompatibilityDeleted(subject: string)
    | ModeSet(subject: string, mode: Mode)
    | ModeDeleted(subject: string)
    | Missing
    | Undecodable

  datatype Body = Body(version: int, sequence: Uint64, op: string, payload: Payload, result: Result)

  datatype Digest = Sha256(body: Body)

  datatype Envelope = Envelope(body: Body, checksum: Digest) {
    function Seq(): Uint64 { body.sequence }

    predicate Valid() {
      && body.version == 1
      && body.sequence != 0
      && !body.payload.Missing?
      && checksum == Sha256(body)
    }
  }

  function NewEnvelope(sequence: Uint64, op: string, payload: Payload, result: Result): (e: Envelope)
    ensures e.Valid() <==> sequence != 0 && !payload.Missing?
  {
    var body := Body(1, sequence, op, payload, result);
    Envelope(body, Sha256(body))
  }
}
