/** Why an import cannot rebuild two versions of one subject with one schema: until the deletions
    run every imported version is active, and a subject has one active version per ID
    (internal/migration/confluent.go, internal/domain/machine.go). */
module ImportTwins {
  import opened Domain
  import opened State
  import opened Commands
  import opened RegistryInvariant
  import opened RegistryRuns
  import opened Deduplication
  import opened ImportModel

  /** Nothing has been deleted yet. */
  ghost predicate AllActive(s: Snapshot, refsOf: string -> seq<Reference>) {
    Inv(s, refsOf) && forall x, i :: x in s.subjects && 0 <= i < |s.subjects[x]| ==> s.subjects[x][i].Active()
  }

  /** No subject has two versions of one schema, deleted ones included. */
  ghost predicate OnePerId(s: Snapshot, refsOf: string -> seq<Reference>) {
    Inv(s, refsOf) && forall x :: x in s.subjects ==> DistinctIds(s.subjects[x])
  }

  ghost predicate DistinctIds(items: seq<SubjectVersion>) {
    forall i, j :: 0 <= i < j < |items| ==> items[i].schemaId != items[j].schemaId
  }

  lemma ActiveMeansOnePerId(s: Snapshot, refsOf: string -> seq<Reference>)
    requires AllActive(s, refsOf)
    ensures OnePerId(s, refsOf)
  {
    forall x | x in s.subjects ensures DistinctIds(s.subjects[x]) {
      assert ItemsSound(s, s.subjects[x]);
      assert OneActive(s.subjects[x]);
    }
  }

  lemma EmptyIsActive(refsOf: string -> seq<Reference>)
    ensures AllActive(EMPTY, refsOf)
  {
    EmptyInv(refsOf);
  }

  lemma RegistrationKeepsActive(
    s: Snapshot, check: Checker, c: Command, commit: Envelope -> bool, refsOf: string -> seq<Reference>)
    requires AllActive(s, refsOf) && c.Register? && WellIdentified(c, refsOf)
    ensures AllActive(Execute(s, check, c, commit).0, refsOf)
  {
    hide Inv, PlanCommand, Apply, Extends;
    var t := Execute(s, check, c, commit).0;
    ExecuteKeepsInv(s, check, c, commit, refsOf);
    if t != s {
      assert Validate(s) by { InvIsValid(s, refsOf); }
      ItemsOutcome(s, check, c, t, c.subject);
      forall x, i | x in t.subjects && 0 <= i < |t.subjects[x]| ensures t.subjects[x][i].Active() {
        if x == c.subject && i == |ItemsOf(s, x)| { assert t.subjects[x][i] == NewItem(s, c); }
        else { assert t.subjects[x][i] == s.subjects[x][i]; }
      }
    }
  }

  lemma ConfigurationKeepsActive(
    s: Snapshot, check: Checker, c: Command, commit: Envelope -> bool, refsOf: string -> seq<Reference>)
    requires AllActive(s, refsOf) && (c.SetCompatibility? || c.SetMode?)
    ensures AllActive(Execute(s, check, c, commit).0, refsOf)
  {
    hide Inv, Extends, Validate;
    var t := Execute(s, check, c, commit).0;
    ExecuteKeepsInv(s, check, c, commit, refsOf);
    if t != s {
      var u := ApplyShape(s, PlanCommand(s, check, c).envelope, t);
      ConfigurationKeepsCore(s, c, u);
    }
  }

  /** Deletions and configuration add no version. */
  lemma OthersKeepOnePerId(
    s: Snapshot, check: Checker, c: Command, commit: Envelope -> bool, refsOf: string -> seq<Reference>)
    requires OnePerId(s, refsOf) && !c.Register?
    ensures OnePerId(Execute(s, check, c, commit).0, refsOf)
  {
    hide Inv, PlanCommand, Apply;
    var t := Execute(s, check, c, commit).0;
    ExecuteKeepsInv(s, check, c, commit, refsOf);
    if t != s {
      assert Validate(s) by { InvIsValid(s, refsOf); }
      forall x | x in t.subjects ensures DistinctIds(t.subjects[x]) {
        ItemsOutcome(s, check, c, t, x);
        SameIds(s, t, x);
      }
    }
  }

  lemma SameIds(s: Snapshot, t: Snapshot, x: string)
    requires Extends(s, t) && x in t.subjects && |ItemsOf(s, x)| == |t.subjects[x]|
    requires x in s.subjects ==> DistinctIds(s.subjects[x])
    ensures DistinctIds(t.subjects[x])
  {
    forall i | 0 <= i < |t.subjects[x]| ensures t.subjects[x][i].schemaId == s.subjects[x][i].schemaId {
      assert ItemLater(s.subjects[x][i], t.subjects[x][i]);
      assert t.subjects[x][i].Fixed().schemaId == s.subjects[x][i].schemaId;
    }
  }

  /** So twins are not both there, whatever their deletion flags. */
  lemma TwinsAreNotBothHeld(s: Snapshot, refsOf: string -> seq<Reference>, x: Item, y: Item)
    requires OnePerId(s, refsOf) && Twins(x, y) && x.version != y.version
    ensures !(Holds(s, x, x.deleted) && Holds(s, y, y.deleted))
  {
    if x.subject in s.subjects { assert DistinctIds(s.subjects[x.subject]); }
  }

  /** What happens to the second twin: its registration is answered with the first one's version and
      leaves the registry as it was. */
  lemma TwinIsMerged(
    b: Book, s: Snapshot, n: nat, done: set<Item>, x: Item, y: Item, check: Checker, commit: Envelope -> bool)
    requires Coherent(b) && Importing(b, s, n, done, {}) && x in done && y in b.items && Twins(x, y)
    requires ReferencesAvailable(s, y.references)
    ensures Execute(s, check, ImportCommand(OpId("schema", n + 1), y, b.parsed(y)), commit)
         == (s, Success(Result(x.id, Some(SourceSchema(b, x).guid), x.version, [])))
  {
    hide Inv, ReferenceProblem, FindActiveId, OpId, OpsUpTo, Lookup, ReferencesAvailable, PlanCommand, Mirrors,
      Coherent, Admitted, Duplicate;
    var c := ImportCommand(OpId("schema", n + 1), y, b.parsed(y));
    FreshOp(s, n, "schema");
    var i := TwinIsDuplicate(b, s, n, done, x, y);
    DeduplicatedIff(s, check, c);
    var p := PlanCommand(s, check, c);
    var k :| 0 <= k < |ItemsOf(s, c.subject)| && IsAnswer(s, c, k, p.result);
    OnlyItem(s, b.refsOf, x.subject, i);
    assert k == i;
  }

  lemma TwinIsDuplicate(b: Book, s: Snapshot, n: nat, done: set<Item>, x: Item, y: Item) returns (i: nat)
    requires Coherent(b) && Importing(b, s, n, done, {}) && x in done && y in b.items && Twins(x, y)
    requires ReferencesAvailable(s, y.references)
    ensures i < |ItemsOf(s, x.subject)| && Records(ItemsOf(s, x.subject)[i], x, false)
    ensures x.id in s.schemas && s.schemas[x.id] == SourceSchema(b, x)
    ensures var c := ImportCommand(OpId("schema", n + 1), y, b.parsed(y));
      c.identity in s.identityToId && s.identityToId[c.identity] == x.id && Duplicate(s, c) && Admitted(s, c)
  {
    hide Inv, ReferenceProblem, OpId, OpsUpTo, Lookup, ReferencesAvailable, ComesFrom;
    CoherentPair(b, y, x);
    CoherentPair(b, x, y);
    NoReferenceProblem(s, y.references);
    KnownSchema(b, s, done, x);
    assert Holds(s, x, false);
    i :| 0 <= i < |ItemsOf(s, x.subject)| && Records(ItemsOf(s, x.subject)[i], x, false);
    HeldSchemaIsStored(b, s, x, i);
  }

  lemma HeldSchemaIsStored(b: Book, s: Snapshot, x: Item, i: nat)
    requires Inv(s, b.refsOf) && i < |ItemsOf(s, x.subject)| && Records(ItemsOf(s, x.subject)[i], x, false)
    ensures x.id in s.schemas && s.schemas[x.id].identity in s.identityToId
    ensures s.identityToId[s.schemas[x.id].identity] == x.id
  {
    assert ItemSound(s, s.subjects[x.subject][i]);
  }
}
