/** Rebuilding a registry from another one's inventory: the values, and what one imported item does
    to the machine (internal/migration/confluent.go). */
module ImportModel {
  import opened Domain
  import opened State
  import opened Commands
  import opened RegistryInvariant
  import opened Layout

  datatype Item = Item(
    subject: string, version: Int64, id: Int64, kind: SchemaType, text: string, references: seq<Reference>,
    timestamp: Int64, deleted: bool)

  datatype Parsed = Parsed(identity: string, kind: SchemaType, definition: string, references: seq<Reference>)

  datatype Source = Source(
    items: seq<Item>, globalLevel: Level, subjectLevels: map<string, Level>,
    globalMode: Mode, subjectModes: map<string, Mode>)

  /** What the format engines make of an item, with the current state as their resolver. */
  type Parser = (Snapshot, Item) -> Option<Parsed>

  // ---- operation IDs ----

  /** Decimal, padded with zeros to six places. */
  function Padded(n: nat): string {
    Print(Digits(n, 10, if DecimalWidth(n) < 6 then 6 else DecimalWidth(n)))
  }

  function OpId(kind: string, n: nat): string {
    "confluent-export-" + kind + "-" + Padded(n)
  }

  lemma {:induction false} FitsWidth(n: nat, w: nat)
    requires DecimalWidth(n) <= w
    ensures n < Pow(10, w)
    decreases w
  {
    if n < 10 {
      if w > 1 { FitsWidth(n, w - 1); }
    } else {
      FitsWidth(n / 10, w - 1);
      assert n / 10 + 1 <= Pow(10, w - 1);
    }
  }

  /** A decimal has no dash, so the text after the last dash is the number. */
  lemma AfterLastDash(p: string, d: string, q: string, e: string)
    requires p + "-" + d == q + "-" + e && '-' !in d && '-' !in e
    ensures d == e
  {
    var a, b := p + "-" + d, q + "-" + e;
    assert a[|p|] == '-' && b[|q|] == '-';
    assert forall k :: |q| < k < |b| ==> b[k] in e;
    assert forall k :: |p| < k < |a| ==> a[k] in d;
    assert a[|p| + 1..] == d && b[|q| + 1..] == e;
  }

  lemma OpIdsDiffer(kind: string, m: nat, other: string, n: nat)
    requires OpId(kind, m) == OpId(other, n)
    ensures m == n
  {
    var wm := if DecimalWidth(m) < 6 then 6 else DecimalWidth(m);
    var wn := if DecimalWidth(n) < 6 then 6 else DecimalWidth(n);
    AfterLastDash("confluent-export-" + kind, Padded(m), "confluent-export-" + other, Padded(n));
    PrintInjective(Digits(m, 10, wm), Digits(n, 10, wn));
    FitsWidth(m, wm);
    FitsWidth(n, wn);
    ValueOfDigits(m, 10, wm);
    ValueOfDigits(n, 10, wn);
  }

  // ---- the inventory ----

  /** What the items mean, and what their identities stand for. */
  datatype Book = Book(items: seq<Item>, parsed: Item -> Parsed, refsOf: string -> seq<Reference>)

  function SourceSchema(b: Book, it: Item): Schema {
    var p := b.parsed(it);
    Schema(it.id, Fingerprint(p.definition, p.references), p.identity, p.kind, p.definition, p.references)
  }

  ghost predicate WellFormedItem(b: Book, it: Item) {
    && 1 <= it.id < MAX_INT64 && 1 <= it.version && it.subject != "" && it.text != "" && ValidSchemaType(it.kind)
    && (forall i :: 0 <= i < |it.references| ==>
          it.references[i].name != "" && it.references[i].subject != "" && it.references[i].version >= 1)
    && var p := b.parsed(it);
       p.identity != "" && p.definition != "" && ValidSchemaType(p.kind)
       && p.references == it.references == b.refsOf(p.identity)
  }

  /** Their IDs and their parsed schemas determine each other. */
  ghost predicate IdsMatch(b: Book, x: Item, y: Item) {
    && (x.id == y.id <==> b.parsed(x).identity == b.parsed(y).identity)
    && (x.id == y.id ==> b.parsed(x) == b.parsed(y))
  }

  ghost predicate IdsAgree(b: Book) {
    forall i, j :: 0 <= i < |b.items| && 0 <= j < |b.items| ==> IdsMatch(b, b.items[i], b.items[j])
  }

  /** Two versions of one subject with one schema: registered, deleted and registered again. */
  ghost predicate Twins(x: Item, y: Item) { x != y && x.subject == y.subject && x.id == y.id }

  ghost predicate NoTwins(items: seq<Item>) {
    forall i, j :: 0 <= i < |items| && 0 <= j < |items| ==> !Twins(items[i], items[j])
  }

  /** Every item is well-formed, and no two claim one subject version. */
  ghost predicate Sensible(b: Book) {
    && (forall i :: 0 <= i < |b.items| ==> WellFormedItem(b, b.items[i]))
    && (forall i, j :: 0 <= i < j < |b.items| ==>
          b.items[i].subject != b.items[j].subject || b.items[i].version != b.items[j].version)
  }

  ghost predicate Coherent(b: Book) { Sensible(b) && IdsAgree(b) }

  ghost predicate Consistent(b: Book) { Coherent(b) && NoTwins(b.items) }

  lemma SensiblePair(b: Book, x: Item, y: Item)
    requires Sensible(b) && x in b.items && y in b.items
    ensures WellFormedItem(b, x)
    ensures x.subject == y.subject && x.version == y.version ==> x == y
  {
    hide WellFormedItem;
  }

  lemma CoherentPair(b: Book, x: Item, y: Item)
    requires Coherent(b) && x in b.items && y in b.items
    ensures WellFormedItem(b, x) && IdsMatch(b, x, y)
    ensures x.subject == y.subject && x.version == y.version ==> x == y
  {
    hide WellFormedItem;
    SensiblePair(b, x, y);
  }

  lemma ConsistentPair(b: Book, x: Item, y: Item)
    requires Consistent(b) && x in b.items && y in b.items
    ensures WellFormedItem(b, x) && IdsMatch(b, x, y) && !Twins(x, y)
    ensures x.subject == y.subject && x.version == y.version ==> x == y
  {
    hide WellFormedItem;
    CoherentPair(b, x, y);
  }

  // ---- what the machine holds ----

  predicate Records(v: SubjectVersion, it: Item, deleted: bool) {
    && v.version == it.version && v.schemaId == it.id && v.timestamp == it.timestamp
    && v.deleted == deleted && !v.permanent
  }

  ghost predicate Holds(s: Snapshot, it: Item, deleted: bool) {
    exists i :: 0 <= i < |ItemsOf(s, it.subject)| && Records(ItemsOf(s, it.subject)[i], it, deleted)
  }

  ghost predicate ComesFrom(b: Book, s: Snapshot, x: string, v: SubjectVersion, done: set<Item>, gone: set<Item>) {
    exists it :: it in done && it.subject == x && Records(v, it, it in gone)
      && it.id in s.schemas && s.schemas[it.id] == SourceSchema(b, it)
  }

  /** The machine holds exactly the items of `done`, those of `gone` soft-deleted. */
  ghost predicate Mirrors(b: Book, s: Snapshot, done: set<Item>, gone: set<Item>) {
    && (forall it :: it in done ==> it in b.items && Holds(s, it, it in gone))
    && (forall x, i :: x in s.subjects && 0 <= i < |s.subjects[x]| ==> ComesFrom(b, s, x, s.subjects[x][i], done, gone))
  }

  ghost predicate OpsUpTo(s: Snapshot, n: nat) {
    forall op :: op in s.operations ==> exists kind: string, k: nat :: k <= n && op == OpId(kind, k)
  }

  /** After `n` operations the machine holds `done`, with `gone` soft-deleted. */
  ghost predicate Loaded(b: Book, s: Snapshot, n: nat, done: set<Item>, gone: set<Item>) {
    Inv(s, b.refsOf) && s.sequence == n && OpsUpTo(s, n) && Mirrors(b, s, done, gone)
  }

  datatype Config = Config(
    globalLevel: Level, subjectLevels: map<string, Level>, globalMode: Mode, subjectModes: map<string, Mode>)

  function ConfigOf(s: Snapshot): Config {
    Config(s.globalLevel, s.subjectLevels, s.globalMode, s.subjectModes)
  }

  /** The configuration until the items are in: the defaults, in import mode. */
  const DURING := Config(Backward, map[], Mode.Import, map[])

  ghost predicate Importing(b: Book, s: Snapshot, n: nat, done: set<Item>, gone: set<Item>) {
    Loaded(b, s, n, done, gone) && ConfigOf(s) == DURING
  }

  predicate ReferencesAvailable(s: Snapshot, references: seq<Reference>) {
    forall i :: 0 <= i < |references| ==> Lookup(s, references[i].subject, references[i].version, false).Some?
  }

  /** Every reference of the item is one of the items in `done`. */
  ghost predicate Ready(done: set<Item>, it: Item) {
    forall i :: 0 <= i < |it.references| ==> Provides(done, it.references[i])
  }

  ghost predicate Provides(done: set<Item>, r: Reference) {
    exists it :: it in done && it.subject == r.subject && it.version == r.version
  }

  lemma LookupProvides(b: Book, s: Snapshot, done: set<Item>, r: Reference)
    requires Validate(s) && Mirrors(b, s, done, {})
    ensures Lookup(s, r.subject, r.version, false).Some? <==> Provides(done, r)
  {
    var items := ItemsOf(s, r.subject);
    var k := FindVisible(items, r.version, false);
    if k < |items| {
      assert ComesFrom(b, s, r.subject, s.subjects[r.subject][k], done, {});
    }
    if Provides(done, r) {
      var it :| it in done && it.subject == r.subject && it.version == r.version;
      assert Holds(s, it, false);
      var i :| 0 <= i < |items| && Records(items[i], it, false);
      assert Visible(items[i], false);
    }
  }

  lemma AvailableIffReady(b: Book, s: Snapshot, done: set<Item>, it: Item)
    requires Validate(s) && Mirrors(b, s, done, {})
    ensures ReferencesAvailable(s, it.references) <==> Ready(done, it)
  {
    hide Lookup, Mirrors, Provides;
    forall i | 0 <= i < |it.references|
      ensures Lookup(s, it.references[i].subject, it.references[i].version, false).Some? <==>
        Provides(done, it.references[i])
    {
      LookupProvides(b, s, done, it.references[i]);
    }
  }

  lemma FreshOp(s: Snapshot, n: nat, kind: string)
    requires OpsUpTo(s, n)
    ensures OpId(kind, n + 1) !in s.operations && OpId(kind, n + 1) != ""
  {
    if OpId(kind, n + 1) in s.operations {
      var other: string, k: nat :| k <= n && OpId(kind, n + 1) == OpId(other, k);
      OpIdsDiffer(kind, n + 1, other, k);
    }
  }

  // ---- registering one item ----

  function ImportCommand(op: string, it: Item, p: Parsed): Command {
    Register(op, it.subject, p.identity, p.kind, p.definition, p.references, it.id, it.version, it.timestamp)
  }

  function ImportedVersion(it: Item, sequence: Uint64): SubjectVersion {
    SubjectVersion(it.subject, it.version, it.id, it.timestamp, sequence, false, false)
  }

  lemma {:induction false} NoReferenceProblem(s: Snapshot, refs: seq<Reference>)
    requires ReferencesAvailable(s, refs)
    requires forall i :: 0 <= i < |refs| ==> refs[i].name != "" && refs[i].subject != "" && refs[i].version >= 1
    ensures ReferenceProblem(s, refs).None?
    decreases |refs|
  {
    if refs != [] {
      assert forall i :: 0 <= i < |refs[1..]| ==> refs[1..][i] == refs[i + 1];
      NoReferenceProblem(s, refs[1..]);
    }
  }

  /** Whatever the machine knows about the item's ID or identity, it knows from an item that agrees. */
  lemma KnownSchema(b: Book, s: Snapshot, done: set<Item>, it: Item)
    requires Coherent(b) && it in b.items && Inv(s, b.refsOf) && Mirrors(b, s, done, {})
    ensures it.id in s.schemas ==> s.schemas[it.id] == SourceSchema(b, it)
    ensures b.parsed(it).identity in s.identityToId ==> s.identityToId[b.parsed(it).identity] == it.id
  {
    var identity := b.parsed(it).identity;
    if it.id in s.schemas {
      var other := OwnerItem(b, s, done, it.id);
      CoherentPair(b, it, other);
    }
    if identity in s.identityToId {
      var id := s.identityToId[identity];
      var other := OwnerItem(b, s, done, id);
      CoherentPair(b, it, other);
    }
  }

  lemma OwnerItem(b: Book, s: Snapshot, done: set<Item>, id: Int64) returns (it: Item)
    requires Inv(s, b.refsOf) && Mirrors(b, s, done, {}) && id in s.schemas
    ensures it in done && it in b.items && it.id == id && s.schemas[id] == SourceSchema(b, it)
  {
    assert Owned(s, id);
    var x, i :| x in s.subjects && 0 <= i < |s.subjects[x]| && s.subjects[x][i].schemaId == id;
    assert ComesFrom(b, s, x, s.subjects[x][i], done, {});
    it :| it in done && it.subject == x && Records(s.subjects[x][i], it, false)
      && it.id in s.schemas && s.schemas[it.id] == SourceSchema(b, it);
  }

  /** The subject has neither the item's version nor its ID yet. */
  lemma NewInSubject(b: Book, s: Snapshot, done: set<Item>, it: Item)
    requires Consistent(b) && it in b.items && it !in done && Mirrors(b, s, done, {})
    ensures !HasVersion(ItemsOf(s, it.subject), it.version)
    ensures forall i :: 0 <= i < |ItemsOf(s, it.subject)| ==> ItemsOf(s, it.subject)[i].schemaId != it.id
  {
    var items := ItemsOf(s, it.subject);
    forall i | 0 <= i < |items| ensures items[i].version != it.version && items[i].schemaId != it.id {
      assert ComesFrom(b, s, it.subject, s.subjects[it.subject][i], done, {});
      var other :| other in done && other.subject == it.subject && Records(items[i], other, false);
      ConsistentPair(b, it, other);
    }
  }

  lemma ImportIsPlanned(b: Book, s: Snapshot, n: nat, done: set<Item>, it: Item, check: Checker)
    requires Consistent(b) && it in b.items && it !in done && Importing(b, s, n, done, {}) && n < MAX_UINT64
    requires ReferencesAvailable(s, it.references)
    ensures var c := ImportCommand(OpId("schema", n + 1), it, b.parsed(it));
      && WellIdentified(c, b.refsOf) && PlanCommand(s, check, c).Proposed? && PlanCommand(s, check, c).envelope.Valid()
      && PlanCommand(s, check, c).envelope.body.payload ==
          SchemaRegistered(SourceSchema(b, it), ImportedVersion(it, n + 1))
  {
    hide Lookup, Inv, Mirrors, FindActiveId, OpId, OpsUpTo, HasVersion, CompatibilitySchemas, ReferencesAvailable;
    ConsistentPair(b, it, it);
    NoReferenceProblem(s, it.references);
    FreshOp(s, n, "schema");
    KnownSchema(b, s, done, it);
    NewInSubject(b, s, done, it);
  }

  lemma AppendIsValid(s: Snapshot, t: Snapshot, schema: Schema, item: SubjectVersion)
    requires Validate(s) && t == RegisterInto(s, schema, item) && t.nextSchemaId >= 1
    requires schema.id == item.schemaId && item.version >= 1 && !HasVersion(ItemsOf(s, item.subject), item.version)
    requires schema.id in s.schemas ==> s.schemas[schema.id] == schema
    ensures Validate(t)
  {
    forall x | x in t.subjects ensures ValidItems(t, x, t.subjects[x]) {
      assert x in s.subjects ==> ValidItems(s, x, s.subjects[x]);
      forall i | 0 <= i < |t.subjects[x]| ensures ValidItem(t, x, t.subjects[x][i]) {
        if i < |ItemsOf(s, x)| { assert ValidItem(s, x, s.subjects[x][i]); }
      }
    }
    forall x | x in t.identityToId
      ensures t.identityToId[x] in t.schemas && t.schemas[t.identityToId[x]].identity == x
    {
    }
  }

  lemma FinishIsValid(s: Snapshot, body: Body)
    requires Validate(s)
    ensures Validate(Finish(s, body))
  {
    SameValidity(s, Finish(s, body));
  }

  lemma ImportApplies(b: Book, s: Snapshot, n: nat, done: set<Item>, it: Item, e: Envelope)
    requires Consistent(b) && it in b.items && it !in done && Importing(b, s, n, done, {}) && n < MAX_UINT64
    requires e.Valid() && e.Seq() == n + 1
    requires e.body.payload == SchemaRegistered(SourceSchema(b, it), ImportedVersion(it, n + 1))
    ensures Apply(s, e) == Ok(Finish(RegisterInto(s, SourceSchema(b, it), ImportedVersion(it, n + 1)), e.body))
  {
    hide Lookup, Mirrors, OpsUpTo, HasVersion, Validate;
    ConsistentPair(b, it, it);
    KnownSchema(b, s, done, it);
    NewInSubject(b, s, done, it);
    var t := RegisterInto(s, SourceSchema(b, it), ImportedVersion(it, n + 1));
    AppendIsValid(s, t, SourceSchema(b, it), ImportedVersion(it, n + 1));
    FinishIsValid(t, e.body);
  }

  lemma OpsGrow(s: Snapshot, n: nat, kind: string, t: Snapshot, result: Result)
    requires OpsUpTo(s, n) && t.operations == s.operations[OpId(kind, n + 1) := result]
    ensures OpsUpTo(t, n + 1)
  {
    hide OpId;
    forall op | op in t.operations ensures exists kind: string, k: nat :: k <= n + 1 && op == OpId(kind, k) {
      if op in s.operations {
        var other: string, k: nat :| k <= n && op == OpId(other, k);
        assert k <= n + 1;
      }
    }
  }

  lemma HeldBefore(s: Snapshot, t: Snapshot, x: string, item: SubjectVersion, o: Item)
    requires Holds(s, o, false) && t.subjects == s.subjects[x := ItemsOf(s, x) + [item]]
    ensures Holds(t, o, false)
  {
    var i :| 0 <= i < |ItemsOf(s, o.subject)| && Records(ItemsOf(s, o.subject)[i], o, false);
    assert ItemsOf(t, o.subject)[i] == ItemsOf(s, o.subject)[i];
  }

  lemma CameBefore(b: Book, s: Snapshot, t: Snapshot, x: string, v: SubjectVersion, done: set<Item>, more: set<Item>)
    requires ComesFrom(b, s, x, v, done, {}) && done <= more
    requires forall id :: id in s.schemas ==> id in t.schemas && t.schemas[id] == s.schemas[id]
    ensures ComesFrom(b, t, x, v, more, {})
  {
    hide SourceSchema, Records;
    var o :| o in done && o.subject == x && Records(v, o, false) && o.id in s.schemas
        && s.schemas[o.id] == SourceSchema(b, o);
    assert o in more;
  }

  lemma MirrorsMore(b: Book, s: Snapshot, done: set<Item>, it: Item, n: Uint64, t: Snapshot)
    requires Mirrors(b, s, done, {}) && it in b.items
    requires t.subjects == s.subjects[it.subject := ItemsOf(s, it.subject) + [ImportedVersion(it, n)]]
    requires t.schemas == s.schemas[it.id := SourceSchema(b, it)]
    requires it.id in s.schemas ==> s.schemas[it.id] == SourceSchema(b, it)
    ensures Mirrors(b, t, done + {it}, {})
  {
    hide SourceSchema, ComesFrom, Holds;
    var more := done + {it};
    assert Records(ImportedVersion(it, n), it, false);
    assert Holds(t, it, false) by { NewlyHeld(t, ItemsOf(s, it.subject), it, n); }
    forall o | o in more ensures o in b.items && Holds(t, o, false) {
      if o in done { HeldBefore(s, t, it.subject, ImportedVersion(it, n), o); }
    }
    forall x, i | x in t.subjects && 0 <= i < |t.subjects[x]| ensures ComesFrom(b, t, x, t.subjects[x][i], more, {}) {
      if i < |ItemsOf(s, x)| {
        CameBefore(b, s, t, x, s.subjects[x][i], done, more);
      } else {
        NewlyCame(b, t, it, n, more);
      }
    }
  }

  lemma NewlyHeld(t: Snapshot, items: seq<SubjectVersion>, it: Item, n: Uint64)
    requires ItemsOf(t, it.subject) == items + [ImportedVersion(it, n)]
    ensures Holds(t, it, false)
  {
    assert Records(ItemsOf(t, it.subject)[|items|], it, false);
  }

  lemma NewlyCame(b: Book, t: Snapshot, it: Item, n: Uint64, more: set<Item>)
    requires it in more && it.id in t.schemas && t.schemas[it.id] == SourceSchema(b, it)
    ensures ComesFrom(b, t, it.subject, ImportedVersion(it, n), more, {})
  {
    assert Records(ImportedVersion(it, n), it, false);
  }

  /** An item whose references are in place imports without error, and the machine then holds it too,
      with its ID, version and timestamp. */
  lemma RegisterImports(
    b: Book, s: Snapshot, n: nat, done: set<Item>, it: Item, check: Checker, commit: Envelope -> bool)
    requires Consistent(b) && it in b.items && it !in done && Importing(b, s, n, done, {}) && n < MAX_UINT64
    requires ReferencesAvailable(s, it.references) && forall e :: commit(e)
    ensures var r := Execute(s, check, ImportCommand(OpId("schema", n + 1), it, b.parsed(it)), commit);
      r.1.Success? && Importing(b, r.0, n + 1, done + {it}, {})
  {
    hide ReferencesAvailable, PlanRegister, OpId, OpsUpTo, Inv, Mirrors, Apply;
    var c := ImportCommand(OpId("schema", n + 1), it, b.parsed(it));
    ImportIsPlanned(b, s, n, done, it, check);
    var p := PlanCommand(s, check, c);
    ImportApplies(b, s, n, done, it, p.envelope);
    var t := Apply(s, p.envelope).value;
    StepKeepsInv(s, check, c, b.refsOf, t);
    FreshOp(s, n, "schema");
    OpsGrow(s, n, "schema", t, p.result);
    KnownSchema(b, s, done, it);
    MirrorsMore(b, s, done, it, n + 1, t);
  }
}
