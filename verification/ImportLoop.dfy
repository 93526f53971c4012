/** The dependency-ordered import loop (internal/migration/confluent.go). */
module ImportLoop {
  import opened Domain
  import opened State
  import opened Commands
  import opened RegistryInvariant
  import opened RegistryRuns
  import opened ImportModel
  import opened ImportSteps
  import opened ImportTwins

  /** The import's machine has no durable store behind it. */
  function Accept(e: Envelope): bool { true }

  // ---- what can be imported ----

  /** `c` has every item whose references it has. */
  ghost predicate Closed(b: Book, c: set<Item>) {
    forall it :: it in b.items && Ready(c, it) ==> it in c
  }

  ghost predicate InEveryClosed(b: Book, done: set<Item>) {
    forall c: set<Item> :: Closed(b, c) ==> done <= c
  }

  /** The least fixpoint of "all references imported". */
  ghost predicate Importable(b: Book, done: set<Item>) {
    && (forall it :: it in done ==> it in b.items)
    && Closed(b, done) && InEveryClosed(b, done)
  }

  lemma ImportableIsUnique(b: Book, x: set<Item>, y: set<Item>)
    requires Importable(b, x) && Importable(b, y)
    ensures x == y
  {
    assert x <= y && y <= x;
  }

  lemma ReadyGrows(a: set<Item>, c: set<Item>, it: Item)
    requires Ready(a, it) && a <= c
    ensures Ready(c, it)
  {
    forall i | 0 <= i < |it.references| ensures Provides(c, it.references[i]) { assert Provides(a, it.references[i]); }
  }

  lemma ReadyIsInEveryClosed(b: Book, done: set<Item>, it: Item)
    requires InEveryClosed(b, done) && Ready(done, it) && it in b.items
    ensures InEveryClosed(b, done + {it})
  {
    forall c: set<Item> | Closed(b, c) ensures done + {it} <= c { ReadyGrows(done, c, it); }
  }

  /** The items parse the same way in every sound state that mirrors part of the source: in such a
      state the references of every version resolve too, so an engine can follow them. */
  ghost predicate Parses(b: Book, parse: Parser) {
    forall s, done, it ::
      it in b.items && Inv(s, b.refsOf) && Mirrors(b, s, done, {}) && ReferencesAvailable(s, it.references) ==>
        parse(s, it) == Some(b.parsed(it))
  }

  /** Identities determine references, whatever the state. */
  ghost predicate WellParsed(b: Book, parse: Parser) {
    forall s, it :: parse(s, it).Some? ==> parse(s, it).value.references == b.refsOf(parse(s, it).value.identity)
  }

  ghost predicate Plausible(b: Book, parse: Parser) {
    Consistent(b) && Parses(b, parse) && |b.items| < MAX_UINT64 - 1
  }

  // ---- the pending list ----

  ghost predicate Distinct(rest: seq<Item>) {
    forall i, j :: 0 <= i < j < |rest| ==> rest[i] != rest[j]
  }

  /** Every item is either imported or pending, and not both. */
  ghost predicate Split(b: Book, done: set<Item>, rest: seq<Item>) {
    && (forall it :: it in b.items <==> it in done || it in rest)
    && (forall it :: it in rest ==> it !in done)
    && Distinct(rest)
  }

  lemma SplitMoves(b: Book, done: set<Item>, front: seq<Item>, it: Item, back: seq<Item>)
    requires Split(b, done, front + [it] + back)
    ensures Split(b, done + {it}, front + back)
  {
    var rest := front + [it] + back;
    assert rest[|front|] == it;
    forall x | x in front + back ensures x in rest && x != it {
      var i :| 0 <= i < |front + back| && (front + back)[i] == x;
      var j := if i < |front| then i else i + 1;
      assert rest[j] == x && j != |front|;
    }
    forall x | x in rest ensures x == it || x in front + back {
      var i :| 0 <= i < |rest| && rest[i] == x;
      if i < |front| { assert (front + back)[i] == x; }
      else if i > |front| { assert (front + back)[i - 1] == x; }
    }
    forall i, j | 0 <= i < j < |front + back| ensures (front + back)[i] != (front + back)[j] {
      var p, q := if i < |front| then i else i + 1, if j < |front| then j else j + 1;
      assert rest[p] == (front + back)[i] && rest[q] == (front + back)[j] && p < q;
    }
  }

  lemma {:induction false} CountsOfDistinct(s: seq<Item>)
    ensures Distinct(s) <==> forall x :: multiset(s)[x] <= 1
    decreases |s|
  {
    if s != [] {
      var n := |s| - 1;
      assert s == s[..n] + [s[n]];
      CountsOfDistinct(s[..n]);
      if Distinct(s) {
        assert s[n] !in s[..n];
        assert s[n] !in multiset(s[..n]);
      } else if Distinct(s[..n]) {
        assert s[n] in s[..n];
        assert multiset(s)[s[n]] > 1;
      } else {
        var x :| multiset(s[..n])[x] > 1;
        assert multiset(s)[x] > 1;
      }
    }
  }

  lemma SortKeepsSplit(b: Book, order: seq<Item>)
    requires Consistent(b) && multiset(order) == multiset(b.items)
    ensures Split(b, {}, order) && |order| == |b.items|
  {
    assert |multiset(order)| == |multiset(b.items)|;
    CountsOfDistinct(b.items);
    CountsOfDistinct(order);
    forall it ensures it in b.items <==> it in order { assert it in multiset(order) <==> it in multiset(b.items); }
  }

  datatype Verdict = Waiting | Done | Broken

  class Importer {
    var state: Snapshot
    var operation: nat
    ghost var done: set<Item>
    const parse: Parser
    const check: Checker

    constructor (parse: Parser, check: Checker)
      ensures state == EMPTY && operation == 0 && done == {} && this.parse == parse && this.check == check
    {
      this.parse, this.check := parse, check;
      state, operation, done := EMPTY, 0, {};
    }

    method Submit(c: Command) returns (ok: bool)
      modifies this`state
      ensures state == Execute(old(state), check, c, Accept).0 && ok == Execute(old(state), check, c, Accept).1.Success?
    {
      var (next, answer) := Execute(state, check, c, Accept);
      state := next;
      ok := answer.Success?;
    }

    method NextOperation(kind: string) returns (op: string)
      modifies this`operation
      ensures operation == old(operation) + 1 && op == OpId(kind, operation)
    {
      operation := operation + 1;
      op := OpId(kind, operation);
    }

    method Available(references: seq<Reference>) returns (ok: bool)
      ensures ok <==> ReferencesAvailable(state, references)
    {
      for i := 0 to |references|
        invariant forall j :: 0 <= j < i ==> Lookup(state, references[j].subject, references[j].version, false).Some?
      {
        if Lookup(state, references[i].subject, references[i].version, false).None? { return false; }
      }
      ok := true;
    }

    ghost predicate At(b: Book)
      reads this
    {
      Importing(b, state, operation, done, {})
    }

    method ImportItem(it: Item, ghost b: Book) returns (r: Verdict)
      modifies this`state, this`operation, this`done
      ensures r.Waiting? ==> state == old(state) && operation == old(operation) && done == old(done)
      ensures Plausible(b, parse) && old(At(b)) && old(operation) < MAX_UINT64 && it in b.items && it !in old(done) ==>
        && !r.Broken? && At(b) && (r.Done? <==> Ready(old(done), it))
        && (r.Done? ==> done == old(done) + {it} && operation == old(operation) + 1)
      ensures WellParsed(b, parse) && old(AllActive(state, b.refsOf)) ==> AllActive(state, b.refsOf)
    {
      hide AllActive, Lookup, Ready, ReferencesAvailable, Validate, Mirrors, Inv, Execute, OpsUpTo, OpId, IdsMatch;
      ghost var good := Plausible(b, parse) && At(b) && operation < MAX_UINT64 && it in b.items && it !in done;
      if good {
        InvValid(state, b.refsOf);
        AvailableIffReady(b, state, done, it);
        ConsistentPair(b, it, it);
      }
      var available := Available(it.references);
      if !available { return Waiting; }
      if it.id < 1 || it.version < 1 || it.subject == "" || it.text == "" { return Broken; }
      if !ValidSchemaType(it.kind) { return Broken; }
      var parsed := parse(state, it);
      if parsed.None? { return Broken; }
      if good { RegisterImports(b, state, operation, done, it, check, Accept); }
      var op := NextOperation("schema");
      if WellParsed(b, parse) && AllActive(state, b.refsOf) {
        RegistrationKeepsActive(state, check, ImportCommand(op, it, parsed.value), Accept, b.refsOf);
      }
      var ok := Submit(ImportCommand(op, it, parsed.value));
      if !ok { return Broken; }
      done := done + {it};
      r := Done;
    }

    /** The items of `rest` are pending, the others imported, and only importable ones are. */
    ghost predicate Midway(b: Book, rest: seq<Item>)
      reads this
    {
      At(b) && Split(b, done, rest) && InEveryClosed(b, done) && operation + |rest| == 1 + |b.items|
    }

    /** One pass over the pending items; those that still wait are moved, in place, to the front. */
    method Pass(pending: array<Item>, length: nat, ghost b: Book) returns (kept: nat, ok: bool)
      requires length <= pending.Length
      modifies this`state, this`operation, this`done, pending
      ensures kept <= length
      ensures Plausible(b, parse) && old(Midway(b, pending[..length])) ==> ok && Midway(b, pending[..kept])
      ensures Plausible(b, parse) && old(Midway(b, pending[..length])) && kept == length ==>
        forall i :: 0 <= i < length ==> !Ready(done, pending[i])
      ensures WellParsed(b, parse) && old(AllActive(state, b.refsOf)) ==> AllActive(state, b.refsOf)
    {
      hide AllActive, WellParsed, Importing, Split, InEveryClosed, Ready, Consistent, Parses, Pending;
      ghost var good := Plausible(b, parse) && Midway(b, pending[..length]);
      kept := 0;
      var i := 0;
      WholeList(pending[..], length);
      while i < length
        invariant kept <= i <= length
        invariant good ==> Midway(b, Pending(pending[..], kept, i, length))
        invariant good && kept == i ==> forall j :: 0 <= j < i ==> !Ready(done, pending[j])
        invariant WellParsed(b, parse) && old(AllActive(state, b.refsOf)) ==> AllActive(state, b.refsOf)
      {
        var item := pending[i];
        ghost var list, before := pending[..], done;
        PendingHead(b, done, list, kept, i, length);
        var r := ImportItem(item, b);
        if r.Broken? { return kept, false; }
        if r.Waiting? {
          MovedToFront(list, kept, i, length);
          pending[kept] := item;
          assert pending[..] == list[kept := item];
          kept := kept + 1;
        } else {
          assert pending[..] == list;
          if good {
            PendingMoves(b, before, list, kept, i, length);
            ReadyIsInEveryClosed(b, before, item);
          }
        }
        i := i + 1;
      }
      NothingLeft(pending[..], kept, length);
      ok := true;
    }

    /** The soft deletions of the source, in its order. */
    method Deletions(items: seq<Item>, ghost b: Book) returns (ok: bool)
      modifies this`state, this`operation
      ensures
        old(Loading(b, items)) ==>
          && ok && Importing(b, state, operation, done, Deleted(items)) && operation <= old(operation) + |items|
      ensures old(OnePerId(state, b.refsOf)) ==> OnePerId(state, b.refsOf)
    {
      hide OnePerId, Importing, Consistent, Execute, OpId;
      ghost var good := Loading(b, items);
      assert Deleted(items[..0]) == {};
      for k := 0 to |items|
        invariant good ==> Importing(b, state, operation, done, Deleted(items[..k])) && operation <= old(operation) + k
        invariant old(OnePerId(state, b.refsOf)) ==> OnePerId(state, b.refsOf)
      {
        DeletedNext(items, k);
        if items[k].deleted {
          if good {
            NotYetDeleted(b, items, k);
            DeletionImports(b, state, operation, done, Deleted(items[..k]), items[k], check, Accept);
          }
          var op := NextOperation("delete");
          if OnePerId(state, b.refsOf) {
            OthersKeepOnePerId(state, check, DeletionCommand(op, items[k]), Accept, b.refsOf);
          }
          var submitted := Submit(DeletionCommand(op, items[k]));
          if !submitted { return false; }
        }
      }
      assert items[..|items|] == items;
      ok := true;
    }

    ghost predicate Loading(b: Book, items: seq<Item>)
      reads this
    {
      && Consistent(b) && items == b.items && Importing(b, state, operation, done, {})
      && (forall it :: it in items ==> it in done) && operation + |items| < MAX_UINT64
    }

    /** Every item is imported. */
    ghost predicate Complete(b: Book)
      reads this
    {
      Consistent(b) && At(b) && done == All(b.items) && operation == 1 + |b.items|
    }

    ghost predicate Settled(b: Book, gone: set<Item>)
      reads this
    {
      Loaded(b, state, operation, done, gone)
    }

    /** There are sequences left for so many operations. */
    ghost predicate Roomy(b: Book, gone: set<Item>, more: nat)
      reads this
    {
      Settled(b, gone) && operation + more < MAX_UINT64
    }

    method Configure(kind: string, c: Command, ghost b: Book, ghost gone: set<Item>) returns (ok: bool)
      requires (c.SetCompatibility? || c.SetMode?) && c.op == OpId(kind, operation)
      modifies this`state
      ensures WellFormed(c) && 1 <= operation <= MAX_UINT64 && old(Loaded(b, state, operation - 1, done, gone)) ==>
        ok && Settled(b, gone) && ConfigOf(state) == Configured(old(ConfigOf(state)), c)
      ensures old(AllActive(state, b.refsOf)) ==> AllActive(state, b.refsOf)
      ensures old(OnePerId(state, b.refsOf)) ==> OnePerId(state, b.refsOf)
    {
      hide AllActive, OnePerId, Loaded, Execute, OpId;
      if WellFormed(c) && 1 <= operation <= MAX_UINT64 && Loaded(b, state, operation - 1, done, gone) {
        ConfigurationImports(b, state, operation - 1, done, gone, kind, c, check, Accept);
      }
      if AllActive(state, b.refsOf) { ConfigurationKeepsActive(state, check, c, Accept, b.refsOf); }
      if OnePerId(state, b.refsOf) { OthersKeepOnePerId(state, check, c, Accept, b.refsOf); }
      ok := Submit(c);
    }

    method SetLevels(levels: map<string, Level>, ghost b: Book, ghost gone: set<Item>) returns (ok: bool)
      modifies this`state, this`operation
      ensures ValidLevels(levels) && old(Roomy(b, gone, |levels|)) && old(state).subjectLevels == map[] ==>
        && ok && Settled(b, gone) && operation <= old(operation) + |levels|
        && ConfigOf(state) == old(ConfigOf(state)).(subjectLevels := levels)
      ensures old(OnePerId(state, b.refsOf)) ==> OnePerId(state, b.refsOf)
    {
      hide OnePerId, AllActive, Loaded, OpId;
      var rest := levels.Keys;
      ghost var good := ValidLevels(levels) && Roomy(b, gone, |levels|) && state.subjectLevels == map[];
      ghost var start := ConfigOf(state);
      assert |levels.Keys| == |levels|;
      while rest != {}
        invariant rest <= levels.Keys
        invariant good ==> Settled(b, gone) && operation + |rest| <= old(operation) + |levels|
        invariant old(OnePerId(state, b.refsOf)) ==> OnePerId(state, b.refsOf)
        invariant good ==> ConfigOf(state) == start.(subjectLevels := map x | x in levels && x !in rest :: levels[x])
      {
        var subject :| subject in rest;
        var op := NextOperation("config");
        ok := Configure("config", SetCompatibility(op, subject, levels[subject]), b, gone);
        if !ok { return; }
        rest := rest - {subject};
      }
      ok := true;
    }

    method SetModes(modes: map<string, Mode>, ghost b: Book, ghost gone: set<Item>) returns (ok: bool)
      modifies this`state, this`operation
      ensures ValidModes(modes) && old(Roomy(b, gone, |modes|)) && old(state).subjectModes == map[] ==>
        && ok && Settled(b, gone) && operation <= old(operation) + |modes|
        && ConfigOf(state) == old(ConfigOf(state)).(subjectModes := modes)
      ensures old(OnePerId(state, b.refsOf)) ==> OnePerId(state, b.refsOf)
    {
      hide OnePerId, AllActive, Loaded, OpId;
      var rest := modes.Keys;
      ghost var good := ValidModes(modes) && Roomy(b, gone, |modes|) && state.subjectModes == map[];
      ghost var start := ConfigOf(state);
      assert |modes.Keys| == |modes|;
      while rest != {}
        invariant rest <= modes.Keys
        invariant good ==> Settled(b, gone) && operation + |rest| <= old(operation) + |modes|
        invariant old(OnePerId(state, b.refsOf)) ==> OnePerId(state, b.refsOf)
        invariant good ==> ConfigOf(state) == start.(subjectModes := map x | x in modes && x !in rest :: modes[x])
      {
        var subject :| subject in rest;
        var op := NextOperation("mode");
        ok := Configure("mode", SetMode(op, subject, modes[subject]), b, gone);
        if !ok { return; }
        rest := rest - {subject};
      }
      ok := true;
    }
  }

  ghost predicate ValidLevels(levels: map<string, Level>) {
    forall x :: x in levels ==> x != "" && levels[x].Valid()
  }

  ghost predicate ValidModes(modes: map<string, Mode>) {
    forall x :: x in modes ==> x != "" && modes[x].Valid()
  }

  ghost function Deleted(items: seq<Item>): set<Item> {
    set it | it in items && it.deleted
  }

  lemma DeletedNext(items: seq<Item>, k: nat)
    requires k < |items|
    ensures Deleted(items[..k + 1]) ==
      if items[k].deleted then Deleted(items[..k]) + {items[k]} else Deleted(items[..k])
  {
    assert items[..k + 1] == items[..k] + [items[k]];
  }

  lemma NotYetDeleted(b: Book, items: seq<Item>, k: nat)
    requires Consistent(b) && items == b.items && k < |items|
    ensures items[k] !in Deleted(items[..k])
  {
    assert forall i :: 0 <= i < k ==> items[..k][i] == items[i];
  }

  datatype ImportResult = Imported(state: Snapshot) | Blocked(items: seq<Item>) | Failed

  /** The items are well-formed, parse and claim each subject version once; the configuration is
      valid. Twins, and IDs that disagree about schemas, are not excluded. */
  ghost predicate SensibleSource(source: Source, b: Book, parse: Parser) {
    Sensible(b) && Parses(b, parse) && WellParsed(b, parse) && GoodConfig(source, b)
  }

  ghost predicate GoodSource(source: Source, b: Book, parse: Parser) {
    Plausible(b, parse) && GoodConfig(source, b)
  }

  lemma SensibleIsGood(source: Source, b: Book, parse: Parser)
    requires SensibleSource(source, b, parse) && IdsAgree(b) && NoTwins(source.items)
    ensures GoodSource(source, b, parse)
  {
    hide Sensible, IdsAgree, Parses, WellParsed, NoTwins;
  }

  ghost predicate GoodConfig(source: Source, b: Book) {
    && b.items == source.items
    && source.globalLevel.Valid() && source.globalMode.Valid()
    && ValidLevels(source.subjectLevels) && ValidModes(source.subjectModes)
    && 2 * |source.items| + |source.subjectLevels| + |source.subjectModes| + 4 <= MAX_UINT64
  }

  ghost function All(items: seq<Item>): set<Item> {
    set it | it in items
  }

  /** The registry holds every item with its ID, version, timestamp and deletion flag and nothing
      else, is sound, and has the source's configuration. */
  ghost predicate Rebuilt(source: Source, b: Book, s: Snapshot) {
    && Mirrors(b, s, All(source.items), Deleted(source.items)) && Inv(s, b.refsOf)
    && ConfigOf(s) == Config(source.globalLevel, source.subjectLevels, source.globalMode, source.subjectModes)
  }

  lemma EmptyLoaded(b: Book)
    ensures Loaded(b, EMPTY, 0, {}, {})
  {
    EmptyInv(b.refsOf);
  }

  lemma NothingDone(b: Book)
    ensures InEveryClosed(b, {})
  {
  }

  /** A pass that moved nothing stops with the items outside the least fixpoint. */
  lemma StuckIsImportable(b: Book, done: set<Item>, rest: seq<Item>)
    requires Split(b, done, rest) && InEveryClosed(b, done)
    requires forall i :: 0 <= i < |rest| ==> !Ready(done, rest[i])
    ensures Importable(b, done) && done == All(b.items) - All(rest) && All(rest) <= All(b.items)
    ensures rest == [] ==> done == All(b.items)
  {
  }

  /** Sorting is left to the caller: `order` is any arrangement of the items. On a sensible source the
      import rebuilds the registry if and only if no subject has one schema twice, IDs and schemas
      determine each other and every item is importable; if only the last is missing it does not fail,
      and stops with exactly the items that are not. */
  method BuildState(
    source: Source, order: seq<Item>, parse: Parser, check: Checker, ghost b: Book) returns (r: ImportResult)
    requires multiset(order) == multiset(source.items)
    ensures SensibleSource(source, b, parse) ==>
      (r.Imported? && Rebuilt(source, b, r.state) <==>
          NoTwins(source.items) && IdsAgree(b) && Importable(b, All(source.items)))
    ensures GoodSource(source, b, parse) ==> !r.Failed? && (r.Imported? ==> Rebuilt(source, b, r.state))
    ensures GoodSource(source, b, parse) && r.Blocked? ==>
      r.items != [] && All(r.items) <= All(source.items) && Importable(b, All(source.items) - All(r.items))
  {
    hide Loaded, Split, InEveryClosed, Consistent, Parses, Ready, Importable, OpId, Mirrors, All, AllActive, OnePerId,
      WellParsed, SensibleSource, Rebuilt, NoTwins;
    ghost var good := GoodSource(source, b, parse);
    var importer := new Importer(parse, check);
    EmptyLoaded(b);
    EmptyIsActive(b.refsOf);
    var op := importer.NextOperation("mode");
    var ok := importer.Configure("mode", SetMode(op, "", Mode.Import), b, {});
    if !ok {
      SensibleOutcome(source, b, parse, Failed);
      return Failed;
    }
    assert good ==> importer.At(b);
    var pending := new Item[|order|](i requires 0 <= i < |order| => order[i]);
    var length: nat := |order|;
    assert pending[..length] == order;
    if good {
      SortKeepsSplit(b, order);
      NothingDone(b);
    }
    while length > 0
      invariant length <= pending.Length && fresh(importer) && fresh(pending) && importer.parse == parse
      invariant good ==> importer.Midway(b, pending[..length])
      invariant WellParsed(b, parse) ==> AllActive(importer.state, b.refsOf)
      decreases length
    {
      var kept, fine := importer.Pass(pending, length, b);
      if !fine {
        SensibleOutcome(source, b, parse, Failed);
        return Failed;
      }
      if kept == length {
        if good { StuckIsImportable(b, importer.done, pending[..length]); }
        r := Blocked(pending[..length]);
        SensibleOutcome(source, b, parse, r);
        return;
      }
      length := kept;
    }
    if good { StuckIsImportable(b, importer.done, pending[..length]); }
    if WellParsed(b, parse) { ActiveMeansOnePerId(importer.state, b.refsOf); }
    r := Finalize(importer, source, b);
    SensibleOutcome(source, b, parse, r);
  }

  /** What an outcome without twins means is what every outcome means. */
  lemma SensibleOutcome(source: Source, b: Book, parse: Parser, r: ImportResult)
    requires WellParsed(b, parse) && r.Imported? ==> OnePerId(r.state, b.refsOf)
    requires GoodSource(source, b, parse) ==> !r.Failed?
    requires GoodSource(source, b, parse) && r.Imported? ==>
      Importable(b, All(source.items)) && Rebuilt(source, b, r.state)
    requires GoodSource(source, b, parse) && r.Blocked? ==>
      r.items != [] && All(r.items) <= All(source.items) && Importable(b, All(source.items) - All(r.items))
    ensures SensibleSource(source, b, parse) ==>
      (r.Imported? && Rebuilt(source, b, r.state) <==>
          NoTwins(source.items) && IdsAgree(b) && Importable(b, All(source.items)))
  {
    hide Importable, Rebuilt, OnePerId, Parses, WellParsed, GoodSource, Sensible, IdsAgree;
    if SensibleSource(source, b, parse) {
      if r.Imported? && Rebuilt(source, b, r.state) { RebuiltIdsAgree(source, b, r.state); }
      if NoTwins(source.items) && IdsAgree(b) {
        SensibleIsGood(source, b, parse);
        if r.Blocked? && Importable(b, All(source.items)) {
          assert r.items[0] in All(r.items);
          ImportableIsUnique(b, All(source.items), All(source.items) - All(r.items));
        }
      } else if r.Imported? && !NoTwins(source.items) {
        TwinsAreNotRebuilt(source, b, r.state);
      }
    }
  }

  /** A rebuilt item's ID holds its own schema. */
  lemma RebuiltSchema(source: Source, b: Book, s: Snapshot, x: Item)
    requires Sensible(b) && b.items == source.items && Rebuilt(source, b, s) && x in source.items
    ensures x.id in s.schemas && s.schemas[x.id] == SourceSchema(b, x)
  {
    hide Sensible, Inv, SourceSchema;
    var all, gone := All(source.items), Deleted(source.items);
    assert Holds(s, x, x in gone);
    var items := ItemsOf(s, x.subject);
    var i :| 0 <= i < |items| && Records(items[i], x, x in gone);
    assert ComesFrom(b, s, x.subject, s.subjects[x.subject][i], all, gone);
    var it :| it in all && it.subject == x.subject && Records(items[i], it, it in gone)
      && it.id in s.schemas && s.schemas[it.id] == SourceSchema(b, it);
    SensiblePair(b, x, it);
  }

  /** One schema has one ID in a sound registry, so what was rebuilt had no others. */
  lemma RebuiltIdsAgree(source: Source, b: Book, s: Snapshot)
    requires Sensible(b) && b.items == source.items && Rebuilt(source, b, s)
    ensures IdsAgree(b)
  {
    hide Sensible, Mirrors;
    forall i, j | 0 <= i < |b.items| && 0 <= j < |b.items| ensures IdsMatch(b, b.items[i], b.items[j]) {
      RebuiltSchema(source, b, s, b.items[i]);
      RebuiltSchema(source, b, s, b.items[j]);
      assert Bijection(s);
    }
  }

  lemma TwinsAreNotRebuilt(source: Source, b: Book, s: Snapshot)
    requires Sensible(b) && b.items == source.items && OnePerId(s, b.refsOf) && !NoTwins(source.items)
    ensures !Rebuilt(source, b, s)
  {
    hide OnePerId, Holds;
    var i, j :| 0 <= i < |source.items| && 0 <= j < |source.items| && Twins(source.items[i], source.items[j]);
    var x, y := source.items[i], source.items[j];
    SensiblePair(b, x, y);
    TwinsAreNotBothHeld(s, b.refsOf, x, y);
    assert x in All(source.items) && y in All(source.items);
    assert x in Deleted(source.items) <==> x.deleted;
    assert y in Deleted(source.items) <==> y.deleted;
  }

  /** After the items: their soft deletions, then the source's configuration. */
  method Finalize(importer: Importer, source: Source, ghost b: Book) returns (r: ImportResult)
    modifies importer
    ensures GoodConfig(source, b) && old(importer.Complete(b)) ==> r.Imported? && Rebuilt(source, b, r.state)
    ensures old(OnePerId(importer.state, b.refsOf)) && r.Imported? ==> OnePerId(r.state, b.refsOf)
  {
    hide OnePerId, AllActive, OpsUpTo, Consistent, OpId, Mirrors, Inv;
    ghost var good, gone := GoodConfig(source, b) && importer.Complete(b), Deleted(source.items);
    var ok := importer.Deletions(source.items, b);
    if !ok { return Failed; }
    var op := importer.NextOperation("config");
    ok := importer.Configure("config", SetCompatibility(op, "", source.globalLevel), b, gone);
    if !ok { return Failed; }
    ok := importer.SetLevels(source.subjectLevels, b, gone);
    if !ok { return Failed; }
    ok := importer.SetModes(source.subjectModes, b, gone);
    if !ok { return Failed; }
    op := importer.NextOperation("mode");
    ok := importer.Configure("mode", SetMode(op, "", source.globalMode), b, gone);
    if !ok { return Failed; }
    r := Imported(importer.state);
  }

  // ---- the list in the array ----

  /** While a pass is at `i`: the `kept` items moved to the front, then those not looked at. */
  ghost function Pending(list: seq<Item>, kept: nat, i: nat, length: nat): (rest: seq<Item>)
    requires kept <= i <= length <= |list|
    ensures |rest| == kept + (length - i)
  {
    list[..kept] + list[i..length]
  }

  lemma WholeList(list: seq<Item>, length: nat)
    requires length <= |list|
    ensures Pending(list, 0, 0, length) == list[..length]
  {
  }

  lemma NothingLeft(list: seq<Item>, kept: nat, length: nat)
    requires kept <= length <= |list|
    ensures Pending(list, kept, length, length) == list[..kept]
  {
  }

  lemma MovedToFront(list: seq<Item>, kept: nat, i: nat, length: nat)
    requires kept <= i < length <= |list|
    ensures Pending(list[kept := list[i]], kept + 1, i + 1, length) == Pending(list, kept, i, length)
  {
  }

  lemma PendingHead(b: Book, done: set<Item>, list: seq<Item>, kept: nat, i: nat, length: nat)
    requires kept <= i < length <= |list|
    ensures Split(b, done, Pending(list, kept, i, length)) ==> list[i] in b.items && list[i] !in done
  {
    assert Pending(list, kept, i, length)[kept] == list[i];
  }

  lemma PendingMoves(b: Book, done: set<Item>, list: seq<Item>, kept: nat, i: nat, length: nat)
    requires kept <= i < length <= |list| && Split(b, done, Pending(list, kept, i, length))
    ensures Split(b, done + {list[i]}, Pending(list, kept, i + 1, length))
  {
    assert Pending(list, kept, i, length) == list[..kept] + [list[i]] + list[i + 1..length];
    SplitMoves(b, done, list[..kept], list[i], list[i + 1..length]);
  }
}
