/** A run that meets the hypotheses of `SubjectHistory` in the forward direction: the subject's level
    is set to FORWARD, then two versions are registered in it, the second narrower than the first. */
module ForwardHistory {
  import opened Domain
  import opened State
  import opened Commands
  import opened RegistryRuns
  import opened JsonSchema
  import opened JsonCompatibility
  import opened SubjectHistory

  function Root(definition: string): Doc {
    ObjectDoc(Some(if definition == "wide" then {StringType, NullType} else {StringType}), {}, map[], Absent)
  }

  const MEANING := Meaning(x => [], x => Json, x => x, Root)

  predicate JsonVerdict(level: Level, candidate: Native, previous: seq<Native>) {
    candidate.JsonNative?
    && forall i :: 0 <= i < |previous| ==> previous[i].JsonNative? && Agrees(level, candidate.doc, previous[i].doc)
  }

  const ENGINE := Engine((s, x: Schema) => Some(JsonNative(Root(x.definition))),
                         (level, candidate, previous) => Ok(JsonVerdict(level, candidate, previous)))

  const CHECK: Checker := CheckerOf(map[Json := ENGINE])

  function Always(e: Envelope): bool { true }

  function Registration(definition: string): Command {
    Register("", "s", definition, Json, definition, [], 0, 0, 0)
  }

  const CALLS: seq<Call> :=
    [Call(SetCompatibility("", "s", Forward), Always), Call(Registration("wide"), Always),
        Call(Registration("narrow"), Always)]

  // ---- the states of the run ----

  function SchemaOf(id: Int64, definition: string): Schema {
    Schema(id, Fingerprint(definition, []), definition, Json, definition, [])
  }

  function ItemOf(id: Int64, sequence: Uint64): SubjectVersion {
    SubjectVersion("s", id, id, 0, sequence, false, false)
  }

  const LEVELLED := EMPTY.(sequence := 1, subjectLevels := map["s" := Forward])

  const ONE := LEVELLED.(
    sequence := 2, nextSchemaId := 2, schemas := map[1 := SchemaOf(1, "wide")], identityToId := map["wide" := 1],
    subjects := map["s" := [ItemOf(1, 2)]])

  const TWO := LEVELLED.(
    sequence := 3, nextSchemaId := 3, schemas := map[1 := SchemaOf(1, "wide"), 2 := SchemaOf(2, "narrow")],
    identityToId := map["wide" := 1, "narrow" := 2], subjects := map["s" := [ItemOf(1, 2), ItemOf(2, 3)]])

  lemma StatesAreValid()
    ensures Validate(LEVELLED) && Validate(ONE) && Validate(TWO)
  {
    assert ValidItem(ONE, "s", ONE.subjects["s"][0]);
    assert ValidItem(TWO, "s", TWO.subjects["s"][0]) && ValidItem(TWO, "s", TWO.subjects["s"][1]);
  }

  lemma SetsLevel()
    ensures Execute(EMPTY, CHECK, SetCompatibility("", "s", Forward), Always).0 == LEVELLED
  {
    hide Validate;
    StatesAreValid();
  }

  lemma RegistersFirst()
    ensures Execute(LEVELLED, CHECK, Registration("wide"), Always).0 == ONE
  {
    hide Validate;
    StatesAreValid();
    var c := Registration("wide");
    assert ItemsOf(LEVELLED, "s") == [] && MaxVersion([]) == 0 && VersionsIn([], false) == [];
    var p := PlanCommand(LEVELLED, CHECK, c);
    assert p.Proposed? && p.envelope.body.payload == SchemaRegistered(SchemaOf(1, "wide"), ItemOf(1, 2));
    var t := Finish(RegisterInto(LEVELLED, SchemaOf(1, "wide"), ItemOf(1, 2)), p.envelope.body);
    assert [] + [ItemOf(1, 2)] == [ItemOf(1, 2)];
    assert t.subjects == ONE.subjects && t.schemas == ONE.schemas && t.identityToId == ONE.identityToId;
    assert t == ONE;
  }

  lemma ComparedWithFirst()
    ensures CompatibilitySchemas(ONE, "s") == [SchemaOf(1, "wide")]
  {
    var items := [ItemOf(1, 2)];
    assert ItemsOf(ONE, "s") == items && items[1..] == [] && VersionsIn(items[1..], false) == [];
    assert VersionsIn(items, false) == [1];
    assert FindVisible(items, 1, false) == 0 && Lookup(ONE, "s", 1, false) == Some((ItemOf(1, 2), SchemaOf(1, "wide")));
    var versions: seq<Int64> := [1];
    assert versions[|versions| - 1..] == versions && versions[..0] == [];
    assert SchemasAt(ONE, "s", versions) == SchemasAt(ONE, "s", versions[..0]) + [SchemaOf(1, "wide")];
  }

  lemma SecondIsAccepted()
    ensures CHECK(ONE, Forward, SchemaOf(2, "narrow"), [SchemaOf(1, "wide")])
  {
    var previous := [SchemaOf(1, "wide")];
    assert AllParse(ENGINE, ONE, previous);
    var natives := ParseAll(ENGINE, ONE, previous);
    assert natives == [JsonNative(Root("wide"))];
    assert Accepts(Root("wide"), Root("narrow"));
    assert JsonVerdict(Forward, JsonNative(Root("narrow")), natives);
  }

  lemma RegistersSecond()
    ensures Execute(ONE, CHECK, Registration("narrow"), Always).0 == TWO
  {
    hide Validate, CHECK, CompatibilitySchemas;
    StatesAreValid();
    ComparedWithFirst();
    SecondIsAccepted();
    var c := Registration("narrow");
    var items := [ItemOf(1, 2)];
    assert ItemsOf(ONE, "s") == items && items[..0] == [] && MaxVersion(items[..0]) == 0 && MaxVersion(items) == 1;
    assert ChosenId(ONE, c) == 2 && ChosenVersion(ONE, c) == 2 && Candidate(ONE, c) == SchemaOf(2, "narrow");
    var p := PlanCommand(ONE, CHECK, c);
    assert p.Proposed? && p.envelope.body.payload == SchemaRegistered(SchemaOf(2, "narrow"), ItemOf(2, 3));
    var t := Finish(RegisterInto(ONE, SchemaOf(2, "narrow"), ItemOf(2, 3)), p.envelope.body);
    assert items + [ItemOf(2, 3)] == [ItemOf(1, 2), ItemOf(2, 3)];
    assert t.subjects == TWO.subjects && t.schemas == TWO.schemas && t.identityToId == TWO.identityToId;
    assert t == TWO;
  }

  lemma EngineIsJson()
    ensures ChecksJson(MEANING, CHECK)
  {
    hide Agrees;
    assert IsJsonEngine(MEANING, ENGINE);
    EnginesCheckJson(MEANING, map[Json := ENGINE]);
  }

  /** Every hypothesis of `EveryPairIsCompatible` and `NewDataStaysReadable` holds of this run, the
      backward guard does not, and it ends with two active versions. */
  lemma ForwardRun()
    ensures ChecksJson(MEANING, CHECK) && AlwaysGuarded(true, EMPTY, CHECK, CALLS, "s")
    ensures !AlwaysGuarded(false, EMPTY, CHECK, CALLS, "s")
    ensures forall k :: 0 <= k < |CALLS| ==>
      Faithful(MEANING, CALLS[k].command) && TypedCommand(MEANING, CALLS[k].command, "s")
    ensures Run(EMPTY, CHECK, CALLS) == TWO && BothActive(ItemsOf(TWO, "s")[0], ItemsOf(TWO, "s")[1])
  {
    hide CHECK, Execute;
    EngineIsJson();
    SetsLevel();
    RegistersFirst();
    RegistersSecond();
    assert CALLS[1..] == [CALLS[1], CALLS[2]] && CALLS[1..][1..] == [CALLS[2]] && [CALLS[2]][1..] == [];
    assert Run(ONE, CHECK, [CALLS[2]]) == TWO;
    assert Run(LEVELLED, CHECK, [CALLS[1], CALLS[2]]) == TWO;
    assert AlwaysGuarded(true, ONE, CHECK, [CALLS[2]], "s");
    assert AlwaysGuarded(true, LEVELLED, CHECK, [CALLS[1], CALLS[2]], "s");
  }
}
