/** A source with a chain of references, under a parser that follows references through the state as
    the format engines do (internal/formats/protobuf/engine.go, internal/migration/confluent.go). */
module ChainSource {
  import opened Domain
  import opened State
  import opened RegistryInvariant
  import opened ImportModel
  import opened ImportLoop

  // ---- following references in a state that mirrors part of a source ----

  /** Whatever a version refers to is there as well, so nested references resolve without end. */
  lemma NestedReferencesResolve(b: Book, s: Snapshot, done: set<Item>, subject: string, version: Int64)
    requires Inv(s, b.refsOf) && Mirrors(b, s, done, {}) && Lookup(s, subject, version, false).Some?
    ensures ReferencesAvailable(s, Lookup(s, subject, version, false).value.1.references)
  {
    var items := ItemsOf(s, subject);
    var k := FindVisible(items, version, false);
    assert ItemsSound(s, s.subjects[subject]) && ItemSound(s, items[k]);
    assert Validate(s);
    hide Inv, Mirrors, ItemSound, Validate;
    var refs := s.schemas[items[k].schemaId].references;
    forall i | 0 <= i < |refs| ensures Lookup(s, refs[i].subject, refs[i].version, false).Some? {
      assert LiveTarget(s, refs[i]) by { ActiveTargetsLive(s, items[k], i); }
      LiveIsAvailable(b, s, done, refs[i]);
    }
  }

  lemma ActiveTargetsLive(s: Snapshot, item: SubjectVersion, i: nat)
    requires ItemSound(s, item) && item.Active() && i < |s.schemas[item.schemaId].references|
    ensures LiveTarget(s, s.schemas[item.schemaId].references[i])
  {
  }

  lemma LiveIsAvailable(b: Book, s: Snapshot, done: set<Item>, r: Reference)
    requires Validate(s) && Mirrors(b, s, done, {}) && LiveTarget(s, r)
    ensures Lookup(s, r.subject, r.version, false).Some?
  {
    hide Lookup, Validate, SourceSchema;
    var items := ItemsOf(s, r.subject);
    var j :| 0 <= j < |items| && items[j].version == r.version && !items[j].permanent;
    assert ComesFrom(b, s, r.subject, s.subjects[r.subject][j], done, {});
    assert Provides(done, r);
    LookupProvides(b, s, done, r);
  }

  lemma LookupIsSource(b: Book, s: Snapshot, done: set<Item>, x: Item)
    requires Sensible(b) && x in b.items && Mirrors(b, s, done, {})
    requires Lookup(s, x.subject, x.version, false).Some?
    ensures Lookup(s, x.subject, x.version, false).value.1 == SourceSchema(b, x)
  {
    hide Sensible, SourceSchema;
    var items := ItemsOf(s, x.subject);
    var k := FindVisible(items, x.version, false);
    assert ComesFrom(b, s, x.subject, s.subjects[x.subject][k], done, {});
    var it :| it in done && it.subject == x.subject && Records(items[k], it, false)
      && it.id in s.schemas && s.schemas[it.id] == SourceSchema(b, it);
    SensiblePair(b, x, it);
  }

  // ---- the chain ----

  /** The references resolve, and theirs, within a number of levels. */
  predicate Loads(s: Snapshot, refs: seq<Reference>, depth: nat)
    decreases depth
  {
    forall i :: 0 <= i < |refs| ==>
      && depth > 0
      && Lookup(s, refs[i].subject, refs[i].version, false).Some?
      && Loads(s, Lookup(s, refs[i].subject, refs[i].version, false).value.1.references, depth - 1)
  }

  const MAX_DEPTH: nat := 20

  /** The references that a text declares. */
  function Declared(text: string): seq<Reference> {
    if text == "middle" then [Reference("n", "bottom", 1)]
    else if text == "top" then [Reference("n", "middle", 1)]
    else []
  }

  function Meaning(text: string): Parsed { Parsed(text, Protobuf, text, Declared(text)) }

  /** The references must be the declared ones, and loading them must succeed. */
  function Parse(s: Snapshot, it: Item): Option<Parsed> {
    if it.references == Declared(it.text) && Loads(s, it.references, MAX_DEPTH) then Some(Meaning(it.text)) else None
  }

  const BOTTOM := Item("bottom", 1, 1, Protobuf, "bottom", [], 0, false)
  const MIDDLE := Item("middle", 1, 2, Protobuf, "middle", [Reference("n", "bottom", 1)], 0, false)
  const TOP := Item("top", 1, 3, Protobuf, "top", [Reference("n", "middle", 1)], 0, false)
  const CHAIN: Source := Source([TOP, MIDDLE, BOTTOM], Backward, map[], ReadWrite, map[])
  const BOOK := Book([TOP, MIDDLE, BOTTOM], (it: Item) => Meaning(it.text), Declared)

  lemma ChainIsConsistent()
    ensures Sensible(BOOK) && IdsAgree(BOOK) && NoTwins(BOOK.items)
    ensures TOP in BOOK.items && MIDDLE in BOOK.items && BOTTOM in BOOK.items
  {
    assert BOOK.items[0] == TOP && BOOK.items[1] == MIDDLE && BOOK.items[2] == BOTTOM;
    ItemsAreWellFormed();
    assert BOOK.parsed(TOP) == Meaning("top") && BOOK.parsed(MIDDLE) == Meaning("middle");
    assert BOOK.parsed(BOTTOM) == Meaning("bottom");
    hide WellFormedItem, Meaning;
    assert Meaning("top").identity == "top" && Meaning("middle").identity == "middle" by { Identities(); }
    assert Meaning("bottom").identity == "bottom" by { Identities(); }
  }

  lemma Identities()
    ensures Meaning("top").identity == "top" && Meaning("middle").identity == "middle"
    ensures Meaning("bottom").identity == "bottom"
  {
  }

  lemma ItemsAreWellFormed()
    ensures WellFormedItem(BOOK, TOP) && WellFormedItem(BOOK, MIDDLE) && WellFormedItem(BOOK, BOTTOM)
  {
  }

  lemma BottomLoads(s: Snapshot, done: set<Item>, depth: nat)
    requires Mirrors(BOOK, s, done, {}) && ReferencesAvailable(s, MIDDLE.references) && depth > 0
    ensures Loads(s, MIDDLE.references, depth)
  {
    hide Mirrors, Lookup;
    ChainIsConsistent();
    assert Lookup(s, MIDDLE.references[0].subject, MIDDLE.references[0].version, false).Some?;
    LookupIsSource(BOOK, s, done, BOTTOM);
  }

  lemma MiddleLoads(s: Snapshot, done: set<Item>, depth: nat)
    requires Inv(s, BOOK.refsOf) && Mirrors(BOOK, s, done, {}) && ReferencesAvailable(s, TOP.references) && depth > 1
    ensures Loads(s, TOP.references, depth)
  {
    hide Mirrors, Lookup, Inv;
    ChainIsConsistent();
    assert Lookup(s, TOP.references[0].subject, TOP.references[0].version, false).Some?;
    LookupIsSource(BOOK, s, done, MIDDLE);
    NestedReferencesResolve(BOOK, s, done, MIDDLE.subject, MIDDLE.version);
    BottomLoads(s, done, depth - 1);
  }

  lemma ChainParses()
    ensures Parses(BOOK, Parse) && WellParsed(BOOK, Parse)
  {
    hide Mirrors, Inv, ReferencesAvailable;
    forall s, done, it | it in BOOK.items && Inv(s, BOOK.refsOf) && Mirrors(BOOK, s, done, {})
        && ReferencesAvailable(s, it.references)
      ensures Parse(s, it) == Some(BOOK.parsed(it))
    {
      if it == TOP { MiddleLoads(s, done, MAX_DEPTH); }
      if it == MIDDLE { BottomLoads(s, done, MAX_DEPTH); }
    }
  }

  lemma ChainIsImportable()
    ensures Importable(BOOK, All(CHAIN.items))
  {
    ChainIsConsistent();
    forall c: set<Item> | Closed(BOOK, c) ensures All(CHAIN.items) <= c {
      assert Ready(c, BOTTOM) && BOTTOM in c;
      assert Provides(c, MIDDLE.references[0]) && Ready(c, MIDDLE) && MIDDLE in c;
      assert Provides(c, TOP.references[0]) && Ready(c, TOP) && TOP in c;
    }
  }

  /** With such a parser a chain of references meets every hypothesis, so `BuildState` rebuilds it in
      whatever order it comes. */
  lemma ChainIsSensible()
    ensures SensibleSource(CHAIN, BOOK, Parse) && GoodSource(CHAIN, BOOK, Parse)
    ensures NoTwins(CHAIN.items) && IdsAgree(BOOK) && Importable(BOOK, All(CHAIN.items))
  {
    hide Sensible, IdsAgree, NoTwins, Parses, WellParsed, Importable;
    ChainIsConsistent();
    ChainParses();
    ChainIsImportable();
    assert CHAIN.items == BOOK.items;
    SensibleIsGood(CHAIN, BOOK, Parse);
  }
}
