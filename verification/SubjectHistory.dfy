/** What a subject's compatibility level keeps true of all its active versions
    (internal/domain/machine.go, internal/app/app.go, internal/formats/jsonschema/engine.go). */
module SubjectHistory {
  import opened Domain
  import opened State
  import opened Commands
  import opened RegistryInvariant
  import opened RegistryRuns
  import opened JsonSchema
  import opened JsonCompatibility

  // ---- the compatibility callback ----

  /** A schema as its engine parsed it; only the JSON engine's form is looked into here. */
  datatype Native = JsonNative(doc: Doc) | OtherNative(raw: string)

  /** A format engine: it parses with the given state as the resolver, and compares. */
  datatype Engine = Engine(
    parse: (Snapshot, Schema) -> Option<Native>, compatible: (Level, Native, seq<Native>) -> Outcome<bool>)

  type Engines = map<SchemaType, Engine>

  predicate AllParse(e: Engine, s: Snapshot, schemas: seq<Schema>) {
    forall i :: 0 <= i < |schemas| ==> e.parse(s, schemas[i]).Some?
  }

  function ParseAll(e: Engine, s: Snapshot, schemas: seq<Schema>): (r: seq<Native>)
    requires AllParse(e, s, schemas)
    ensures |r| == |schemas|
    ensures forall i :: 0 <= i < |r| ==> e.parse(s, schemas[i]) == Some(r[i])
  {
    seq(|schemas|, i requires 0 <= i < |schemas| => e.parse(s, schemas[i]).value)
  }

  /** The callback says yes: there is an engine for the candidate's type, it parses everything, and
      it reports no problem. */
  predicate Verdict(engines: Engines, s: Snapshot, level: Level, candidate: Schema, previous: seq<Schema>) {
    && candidate.kind in engines
    && var e := engines[candidate.kind];
       && e.parse(s, candidate).Some? && AllParse(e, s, previous)
       && e.compatible(level, e.parse(s, candidate).value, ParseAll(e, s, previous)) == Ok(true)
  }

  function CheckerOf(engines: Engines): Checker {
    (s, level, candidate, previous) => Verdict(engines, s, level, candidate, previous)
  }

  method CheckCompatibility(engines: Engines, s: Snapshot, level: Level, candidate: Schema, previous: seq<Schema>)
    returns (compatible: bool)
    ensures compatible <==> Verdict(engines, s, level, candidate, previous)
  {
    if candidate.kind !in engines { return false; }
    var engine := engines[candidate.kind];
    var parsed := engine.parse(s, candidate);
    if parsed.None? { return false; }
    var natives: seq<Native> := [];
    for i := 0 to |previous|
      invariant |natives| == i
      invariant forall j :: 0 <= j < i ==> engine.parse(s, previous[j]) == Some(natives[j])
    {
      var native := engine.parse(s, previous[i]);
      if native.None? { return false; }
      natives := natives + [native.value];
    }
    assert natives == ParseAll(engine, s, previous);
    compatible := engine.compatible(level, parsed.value, natives) == Ok(true);
  }

  /** What identities stand for. Every engine hashes the schema type and the references into the
      identity, and the JSON engine hashes the definition too; `root` decodes a JSON definition. */
  datatype Meaning = Meaning(
    refsOf: string -> seq<Reference>, kindOf: string -> SchemaType, definitionOf: string -> string, root: string -> Doc)

  ghost predicate Faithful(m: Meaning, c: Command) {
    && WellIdentified(c, m.refsOf)
    && (c.Register? ==> c.kind == m.kindOf(c.identity))
    && (c.Register? && c.kind.Json? ==> c.definition == m.definitionOf(c.identity))
  }

  /** On JSON candidates the callback accepts only what the JSON engine accepts. */
  ghost predicate ChecksJson(m: Meaning, check: Checker) {
    forall s, level, candidate: Schema, previous: seq<Schema> ::
      candidate.kind.Json? && check(s, level, candidate, previous) ==>
        forall i :: 0 <= i < |previous| ==> Agrees(level, m.root(candidate.definition), m.root(previous[i].definition))
  }

  /** The engine decodes what it parses, and says yes only where the JSON comparison does: the
      contract of `Compatible`. */
  ghost predicate IsJsonEngine(m: Meaning, e: Engine) {
    && (forall s, x :: e.parse(s, x).Some? ==> e.parse(s, x).value == JsonNative(m.root(x.definition)))
    && (forall level, candidate: Doc, previous: seq<Native> ::
          e.compatible(level, JsonNative(candidate), previous) == Ok(true) ==>
            forall i :: 0 <= i < |previous| && previous[i].JsonNative? ==> Agrees(level, candidate, previous[i].doc))
  }

  /** The callback built from the engines is such a callback, whatever the other engines do. */
  lemma EnginesCheckJson(m: Meaning, engines: Engines)
    requires Json in engines ==> IsJsonEngine(m, engines[Json])
    ensures ChecksJson(m, CheckerOf(engines))
  {
    hide Agrees;
    forall s, level, candidate: Schema, previous: seq<Schema>, i |
      candidate.kind.Json? && Verdict(engines, s, level, candidate, previous) && 0 <= i < |previous|
      ensures Agrees(level, m.root(candidate.definition), m.root(previous[i].definition))
    {
      var e := engines[Json];
      var natives := ParseAll(e, s, previous);
      assert e.compatible(level, JsonNative(m.root(candidate.definition)), natives) == Ok(true);
      assert natives[i] == JsonNative(m.root(previous[i].definition));
    }
  }

  // ---- one subject ----

  /** `forward` asks that old readers read new data; otherwise new readers read old data. */
  ghost predicate Reads(forward: bool, newer: Doc, older: Doc) {
    if forward then Accepts(older, newer) else Accepts(newer, older)
  }

  predicate Keeps(forward: bool, level: Level) {
    || level.Full? || level.FullTransitive?
    || (if forward then level.Forward? || level.ForwardTransitive? else level.Backward? || level.BackwardTransitive?)
  }

  ghost predicate Guarded(forward: bool, s: Snapshot, subject: string) {
    !EffectiveMode(s, subject).Import? && Keeps(forward, EffectiveLevel(s, subject))
  }

  ghost function DocOf(m: Meaning, s: Snapshot, item: SubjectVersion): Doc
    requires item.schemaId in s.schemas
  {
    m.root(s.schemas[item.schemaId].definition)
  }

  ghost predicate Described(m: Meaning, s: Snapshot) {
    forall id :: id in s.schemas ==>
      && s.schemas[id].kind == m.kindOf(s.schemas[id].identity)
      && (s.schemas[id].kind.Json? ==> s.schemas[id].definition == m.definitionOf(s.schemas[id].identity))
  }

  ghost predicate TypedItems(m: Meaning, s: Snapshot, items: seq<SubjectVersion>) {
    forall i :: 0 <= i < |items| ==> items[i].schemaId in s.schemas && Typed(DocOf(m, s, items[i]))
  }

  predicate BothActive(older: SubjectVersion, newer: SubjectVersion) {
    older.Active() && newer.Active() && older.version < newer.version
  }

  /** Every two active versions are compatible in the direction asked for. */
  ghost predicate AllPairs(m: Meaning, forward: bool, s: Snapshot, items: seq<SubjectVersion>)
    requires TypedItems(m, s, items)
  {
    forall i, j :: 0 <= i < |items| && 0 <= j < |items| && BothActive(items[i], items[j]) ==>
      Reads(forward, DocOf(m, s, items[j]), DocOf(m, s, items[i]))
  }

  ghost predicate HistoryInv(m: Meaning, forward: bool, s: Snapshot, subject: string) {
    && Inv(s, m.refsOf) && Described(m, s)
    && TypedItems(m, s, ItemsOf(s, subject)) && AllPairs(m, forward, s, ItemsOf(s, subject))
  }

  lemma ReadsTransitive(forward: bool, a: Doc, b: Doc, c: Doc)
    requires Reads(forward, a, b) && Reads(forward, b, c) && Typed(b)
    ensures Reads(forward, a, c)
  {
    if forward { AcceptsTransitive(c, b, a); } else { AcceptsTransitive(a, b, c); }
  }

  // ---- which schemas a candidate is compared with ----

  lemma LookupActive(s: Snapshot, subject: string, i: nat)
    requires Validate(s) && i < |ItemsOf(s, subject)| && ItemsOf(s, subject)[i].Active()
    ensures ItemsOf(s, subject)[i].schemaId in s.schemas
    ensures Lookup(s, subject, ItemsOf(s, subject)[i].version, false)
         == Some((ItemsOf(s, subject)[i], s.schemas[ItemsOf(s, subject)[i].schemaId]))
  {
    var items := ItemsOf(s, subject);
    assert ValidItems(s, subject, items) && ValidItem(s, subject, items[i]);
    var k := FindVisible(items, items[i].version, false);
    assert k <= i;
    assert items[k].version == items[i].version;
  }

  lemma {:induction false} SchemaAtListed(s: Snapshot, subject: string, versions: seq<Int64>, v: Int64)
    requires v in versions && Lookup(s, subject, v, false).Some?
    ensures Lookup(s, subject, v, false).value.1 in SchemasAt(s, subject, versions)
    decreases |versions|
  {
    var n := |versions| - 1;
    if versions[n] != v {
      assert versions == versions[..n] + [versions[n]];
      SchemaAtListed(s, subject, versions[..n], v);
    }
  }

  /** Some active version at or above the given one is among the compared schemas; at a transitive
      level the given one itself is. */
  lemma ComparedAtOrAbove(s: Snapshot, subject: string, i: nat) returns (k: nat)
    requires Validate(s) && i < |ItemsOf(s, subject)| && ItemsOf(s, subject)[i].Active()
    ensures k < |ItemsOf(s, subject)| && ItemsOf(s, subject)[k].Active()
    ensures ItemsOf(s, subject)[i].version < ItemsOf(s, subject)[k].version || k == i
    ensures ItemsOf(s, subject)[k].schemaId in s.schemas
    ensures s.schemas[ItemsOf(s, subject)[k].schemaId] in CompatibilitySchemas(s, subject)
    ensures EffectiveLevel(s, subject).Transitive() ==> k == i
  {
    hide Validate, Lookup;
    var items := ItemsOf(s, subject);
    var versions := VersionsIn(items, false);
    assert HasVisible(items, items[i].version, false);
    LookupActive(s, subject, i);
    k := i;
    if EffectiveLevel(s, subject).Transitive() {
      SchemaAtListed(s, subject, versions, items[i].version);
    } else {
      var top := versions[|versions| - 1];
      assert top in versions && HasVisible(items, top, false);
      var j :| 0 <= j < |items| && items[j].version == top && Visible(items[j], false);
      LookupActive(s, subject, j);
      var p :| 0 <= p < |versions| && versions[p] == items[i].version;
      assert versions[p] <= top;
      if items[i].version < top { k := j; }
      assert Lookup(s, subject, items[k].version, false) == Lookup(s, subject, top, false);
      SchemaAtListed(s, subject, versions[|versions| - 1..], top);
    }
  }

  // ---- one registration ----

  lemma CandidateReadsActive(m: Meaning, forward: bool, s: Snapshot, check: Checker, c: Command, i: nat)
    requires HistoryInv(m, forward, s, c.subject) && Guarded(forward, s, c.subject) && ChecksJson(m, check)
    requires c.Register? && PlanRegister(s, check, c).Proposed? && Candidate(s, c).kind.Json?
    requires i < |ItemsOf(s, c.subject)| && ItemsOf(s, c.subject)[i].Active()
    ensures Reads(forward, m.root(Candidate(s, c).definition), DocOf(m, s, ItemsOf(s, c.subject)[i]))
  {
    hide Inv, CompatibilitySchemas, ReferenceProblem, Accepts;
    var items := ItemsOf(s, c.subject);
    InvValidates(s, m.refsOf);
    var k := ComparedAtOrAbove(s, c.subject, i);
    var previous := CompatibilitySchemas(s, c.subject);
    var p :| 0 <= p < |previous| && previous[p] == s.schemas[items[k].schemaId];
    var candidate := Candidate(s, c);
    assert check(s, EffectiveLevel(s, c.subject), candidate, previous);
    assert Agrees(EffectiveLevel(s, c.subject), m.root(candidate.definition), m.root(previous[p].definition));
    assert Reads(forward, m.root(candidate.definition), DocOf(m, s, items[k]));
    if k != i { ReadsTransitive(forward, m.root(candidate.definition), DocOf(m, s, items[k]), DocOf(m, s, items[i])); }
  }

  lemma InvValidates(s: Snapshot, refsOf: string -> seq<Reference>)
    requires Inv(s, refsOf)
    ensures Validate(s)
  {
  }

  // ---- one command ----

  lemma KeptItem(m: Meaning, s: Snapshot, t: Snapshot, subject: string, i: nat)
    requires Extends(s, t) && i < |ItemsOf(s, subject)| && ItemsOf(s, subject)[i].schemaId in s.schemas
    ensures i < |ItemsOf(t, subject)| && ItemLater(ItemsOf(s, subject)[i], ItemsOf(t, subject)[i])
    ensures ItemsOf(t, subject)[i].schemaId in t.schemas
    ensures DocOf(m, t, ItemsOf(t, subject)[i]) == DocOf(m, s, ItemsOf(s, subject)[i])
    ensures ItemsOf(t, subject)[i].version == ItemsOf(s, subject)[i].version
    ensures ItemsOf(t, subject)[i].Active() ==> ItemsOf(s, subject)[i].Active()
  {
    var a, b := ItemsOf(s, subject)[i], ItemsOf(t, subject)[i];
    assert ItemLater(a, b);
    assert b.Fixed().schemaId == a.schemaId && b.Fixed().version == a.version;
  }

  lemma SameLengthKeepsPairs(m: Meaning, forward: bool, s: Snapshot, t: Snapshot, subject: string)
    requires Extends(s, t) && |ItemsOf(t, subject)| == |ItemsOf(s, subject)|
    requires TypedItems(m, s, ItemsOf(s, subject)) && AllPairs(m, forward, s, ItemsOf(s, subject))
    ensures TypedItems(m, t, ItemsOf(t, subject)) && AllPairs(m, forward, t, ItemsOf(t, subject))
  {
    hide Extends, DocOf, Reads, ItemLater;
    forall i | 0 <= i < |ItemsOf(s, subject)|
      ensures ItemsOf(t, subject)[i].schemaId in t.schemas
      ensures DocOf(m, t, ItemsOf(t, subject)[i]) == DocOf(m, s, ItemsOf(s, subject)[i])
      ensures ItemsOf(t, subject)[i].version == ItemsOf(s, subject)[i].version
      ensures ItemsOf(t, subject)[i].Active() ==> ItemsOf(s, subject)[i].Active()
    {
      KeptItem(m, s, t, subject, i);
    }
  }

  /** Appending an item that agrees with every active one, above all of them. */
  lemma AppendKeepsPairs(
    m: Meaning, forward: bool, s: Snapshot, t: Snapshot, items: seq<SubjectVersion>, item: SubjectVersion)
    requires TypedItems(m, s, items) && AllPairs(m, forward, s, items)
    requires forall id :: id in s.schemas ==> id in t.schemas && t.schemas[id] == s.schemas[id]
    requires item.schemaId in t.schemas && Typed(DocOf(m, t, item))
    requires forall i :: 0 <= i < |items| ==> items[i].version < item.version
    requires forall i :: 0 <= i < |items| && items[i].Active() ==>
      Reads(forward, DocOf(m, t, item), DocOf(m, s, items[i]))
    ensures TypedItems(m, t, items + [item]) && AllPairs(m, forward, t, items + [item])
  {
    hide Reads, Typed;
    assert forall i :: 0 <= i < |items| ==> DocOf(m, t, items[i]) == DocOf(m, s, items[i]);
  }

  lemma RegisterKeepsHistory(m: Meaning, forward: bool, s: Snapshot, check: Checker, c: Command, t: Snapshot)
    requires HistoryInv(m, forward, s, c.subject) && Guarded(forward, s, c.subject) && ChecksJson(m, check)
    requires Faithful(m, c) && c.Register? && c.kind.Json? && Typed(m.root(c.definition))
    requires PlanCommand(s, check, c).Proposed? && Apply(s, PlanCommand(s, check, c).envelope) == Ok(t)
    requires Extends(s, t)
    ensures TypedItems(m, t, ItemsOf(t, c.subject)) && AllPairs(m, forward, t, ItemsOf(t, c.subject))
  {
    hide Inv, ReferenceProblem, CompatibilitySchemas, Reads, Typed, Apply;
    var items, candidate, item := ItemsOf(s, c.subject), Candidate(s, c), NewItem(s, c);
    InvValidates(s, m.refsOf);
    ItemsOutcome(s, check, c, t, c.subject);
    NewVersionOnTop(s, check, c, t, m.refsOf);
    CandidateIsFaithful(m, s, check, c);
    forall i | 0 <= i < |items| && items[i].Active()
      ensures Reads(forward, m.root(candidate.definition), DocOf(m, s, items[i]))
    {
      CandidateReadsActive(m, forward, s, check, c, i);
    }
    AppendKeepsPairs(m, forward, s, t, items, item);
  }

  lemma CandidateIsFaithful(m: Meaning, s: Snapshot, check: Checker, c: Command)
    requires Inv(s, m.refsOf) && Described(m, s) && Faithful(m, c) && c.Register? && PlanRegister(s, check, c).Proposed?
    ensures Candidate(s, c).kind == c.kind && Candidate(s, c).identity == c.identity
    ensures c.kind.Json? ==> Candidate(s, c).definition == c.definition
    ensures Candidate(s, c).id == ChosenId(s, c)
  {
    hide ReferenceProblem, CompatibilitySchemas;
  }

  /** Outside import mode the new version is above every version the subject ever had. */
  lemma NewVersionOnTop(s: Snapshot, check: Checker, c: Command, t: Snapshot, refsOf: string -> seq<Reference>)
    requires Inv(s, refsOf) && WellIdentified(c, refsOf) && c.Register? && !EffectiveMode(s, c.subject).Import?
    requires PlanCommand(s, check, c).Proposed? && Apply(s, PlanCommand(s, check, c).envelope) == Ok(t)
    ensures forall i :: 0 <= i < |ItemsOf(s, c.subject)| ==> ItemsOf(s, c.subject)[i].version < NewItem(s, c).version
  {
    hide ReferenceProblem, CompatibilitySchemas, Inv, Apply;
    SuccessIsInRange(s, check, c, refsOf, t);
  }

  lemma DescribedKept(m: Meaning, s: Snapshot, check: Checker, c: Command, t: Snapshot)
    requires Inv(s, m.refsOf) && Described(m, s) && Faithful(m, c)
    requires PlanCommand(s, check, c).Proposed? && Apply(s, PlanCommand(s, check, c).envelope) == Ok(t)
    ensures Described(m, t)
  {
    hide ReferenceProblem, CompatibilitySchemas, Apply, Inv;
    InvValidates(s, m.refsOf);
    ItemsOutcome(s, check, c, t, "");
    if c.Register? { CandidateIsFaithful(m, s, check, c); }
  }

  // ---- runs ----

  /** What is asked of a call about the subject: its registrations are JSON with stated types. */
  ghost predicate TypedCommand(m: Meaning, c: Command, subject: string) {
    c.Register? && c.subject == subject ==> c.kind.Json? && Typed(m.root(c.definition))
  }

  ghost predicate RegistersIn(c: Command, subject: string) { c.Register? && c.subject == subject }

  /** The subject is guarded whenever a call registers in it; in between, level and mode are free. */
  ghost predicate AlwaysGuarded(forward: bool, s: Snapshot, check: Checker, calls: seq<Call>, subject: string)
    decreases |calls|
  {
    calls != [] ==>
      && (RegistersIn(calls[0].command, subject) ==> Guarded(forward, s, subject))
      && AlwaysGuarded(forward, Execute(s, check, calls[0].command, calls[0].commit).0, check, calls[1..], subject)
  }

  lemma StepKeepsHistory(m: Meaning, forward: bool, s: Snapshot, check: Checker, call: Call, subject: string)
    requires HistoryInv(m, forward, s, subject) && ChecksJson(m, check)
    requires RegistersIn(call.command, subject) ==> Guarded(forward, s, subject)
    requires Faithful(m, call.command) && TypedCommand(m, call.command, subject)
    ensures HistoryInv(m, forward, Execute(s, check, call.command, call.commit).0, subject)
  {
    hide Inv, Extends, Apply, PlanCommand, Guarded, ChecksJson, Typed, AllPairs, TypedItems;
    var c := call.command;
    var t := Execute(s, check, c, call.commit).0;
    ExecuteKeepsInv(s, check, c, call.commit, m.refsOf);
    if t != s {
      DescribedKept(m, s, check, c, t);
      if c.Register? && c.subject == subject {
        RegisterKeepsHistory(m, forward, s, check, c, t);
      } else {
        InvValidates(s, m.refsOf);
        ItemsOutcome(s, check, c, t, subject);
        SameLengthKeepsPairs(m, forward, s, t, subject);
      }
    }
  }

  lemma {:induction false} RunKeepsHistory(
    m: Meaning, forward: bool, s: Snapshot, check: Checker, calls: seq<Call>, subject: string)
    requires HistoryInv(m, forward, s, subject) && ChecksJson(m, check)
    requires AlwaysGuarded(forward, s, check, calls, subject)
    requires forall i :: 0 <= i < |calls| ==>
      Faithful(m, calls[i].command) && TypedCommand(m, calls[i].command, subject)
    ensures HistoryInv(m, forward, Run(s, check, calls), subject)
    decreases |calls|
  {
    hide HistoryInv, ChecksJson, Faithful, TypedCommand, Guarded;
    if calls != [] {
      StepKeepsHistory(m, forward, s, check, calls[0], subject);
      RunKeepsHistory(m, forward, Execute(s, check, calls[0].command, calls[0].commit).0, check, calls[1..], subject);
    }
  }

  /** Comparing each candidate with the newest version only is enough: however the subject was
      registered to and soft-deleted from, every two of its active versions are compatible, as a
      transitive level would have checked. */
  lemma EveryPairIsCompatible(
    m: Meaning, forward: bool, check: Checker, calls: seq<Call>, subject: string, i: nat, j: nat)
    requires ChecksJson(m, check) && AlwaysGuarded(forward, EMPTY, check, calls, subject)
    requires forall k :: 0 <= k < |calls| ==>
      Faithful(m, calls[k].command) && TypedCommand(m, calls[k].command, subject)
    requires i < |ItemsOf(Run(EMPTY, check, calls), subject)| && j < |ItemsOf(Run(EMPTY, check, calls), subject)|
    requires BothActive(ItemsOf(Run(EMPTY, check, calls), subject)[i], ItemsOf(Run(EMPTY, check, calls), subject)[j])
    ensures var t := Run(EMPTY, check, calls);
            var older, newer := ItemsOf(t, subject)[i], ItemsOf(t, subject)[j];
      && older.schemaId in t.schemas && newer.schemaId in t.schemas
      && Reads(forward, DocOf(m, t, newer), DocOf(m, t, older))
      && Typed(DocOf(m, t, newer)) && Typed(DocOf(m, t, older))
  {
    hide Inv, Reads, Typed, Run;
    EmptyInv(m.refsOf);
    RunKeepsHistory(m, forward, EMPTY, check, calls, subject);
  }

  /** No object schema in the document gives a schema for additional properties. */
  ghost predicate Plain(d: Doc) {
    d.ObjectDoc? ==> !d.additional.Sub? && forall name :: name in d.properties ==> Plain(d.properties[name])
  }

  lemma {:induction false} PlainReads(reader: Doc, writer: Doc)
    requires Plain(reader)
    ensures PlainReader(reader, writer)
    decreases reader
  {
    if reader.ObjectDoc? && writer.ObjectDoc? {
      forall name | name in reader.properties && name in writer.properties
        ensures PlainReader(reader.properties[name], writer.properties[name])
      {
        PlainReads(reader.properties[name], writer.properties[name]);
      }
    }
  }

  /** In terms of data: under a backward level, every value valid for an active version is valid for
      every newer active version. */
  lemma OldDataStaysReadable(m: Meaning, check: Checker, calls: seq<Call>, subject: string, i: nat, j: nat, v: Value)
    requires ChecksJson(m, check) && AlwaysGuarded(false, EMPTY, check, calls, subject)
    requires forall k :: 0 <= k < |calls| ==>
      Faithful(m, calls[k].command) && TypedCommand(m, calls[k].command, subject)
    requires i < |ItemsOf(Run(EMPTY, check, calls), subject)| && j < |ItemsOf(Run(EMPTY, check, calls), subject)|
    requires BothActive(ItemsOf(Run(EMPTY, check, calls), subject)[i], ItemsOf(Run(EMPTY, check, calls), subject)[j])
    requires var t := Run(EMPTY, check, calls);
             var older, newer := ItemsOf(t, subject)[i], ItemsOf(t, subject)[j];
      && older.schemaId in t.schemas && newer.schemaId in t.schemas
      && Plain(DocOf(m, t, newer)) && Valid(DocOf(m, t, older), v)
    ensures var t := Run(EMPTY, check, calls);
      Valid(DocOf(m, t, ItemsOf(t, subject)[j]), v)
  {
    hide Valid, Accepts, Typed, Plain, Run, ChecksJson, AlwaysGuarded, Faithful, TypedCommand;
    EveryPairIsCompatible(m, false, check, calls, subject, i, j);
    var t := Run(EMPTY, check, calls);
    var newer, older := DocOf(m, t, ItemsOf(t, subject)[j]), DocOf(m, t, ItemsOf(t, subject)[i]);
    PlainReads(newer, older);
    AcceptedMeansIncluded(newer, older);
  }

  /** Under a forward level, every value valid for an active version is valid for every older active
      version. */
  lemma NewDataStaysReadable(m: Meaning, check: Checker, calls: seq<Call>, subject: string, i: nat, j: nat, v: Value)
    requires ChecksJson(m, check) && AlwaysGuarded(true, EMPTY, check, calls, subject)
    requires forall k :: 0 <= k < |calls| ==>
      Faithful(m, calls[k].command) && TypedCommand(m, calls[k].command, subject)
    requires i < |ItemsOf(Run(EMPTY, check, calls), subject)| && j < |ItemsOf(Run(EMPTY, check, calls), subject)|
    requires BothActive(ItemsOf(Run(EMPTY, check, calls), subject)[i], ItemsOf(Run(EMPTY, check, calls), subject)[j])
    requires var t := Run(EMPTY, check, calls);
             var older, newer := ItemsOf(t, subject)[i], ItemsOf(t, subject)[j];
      && older.schemaId in t.schemas && newer.schemaId in t.schemas
      && Plain(DocOf(m, t, older)) && Valid(DocOf(m, t, newer), v)
    ensures var t := Run(EMPTY, check, calls);
      Valid(DocOf(m, t, ItemsOf(t, subject)[i]), v)
  {
    hide Valid, Accepts, Typed, Plain, Run, ChecksJson, AlwaysGuarded, Faithful, TypedCommand;
    EveryPairIsCompatible(m, true, check, calls, subject, i, j);
    var t := Run(EMPTY, check, calls);
    var newer, older := DocOf(m, t, ItemsOf(t, subject)[j]), DocOf(m, t, ItemsOf(t, subject)[i]);
    PlainReads(older, newer);
    AcceptedMeansIncluded(older, newer);
  }
}
