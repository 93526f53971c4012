/** What a soft deletion and a configuration command do to an imported registry
    (internal/migration/confluent.go). */
module ImportSteps {
  import opened Domain
  import opened State
  import opened Commands
  import opened RegistryInvariant
  import opened ImportModel

  // ---- soft deletion ----

  lemma HeldAt(b: Book, s: Snapshot, done: set<Item>, gone: set<Item>, it: Item) returns (k: nat)
    requires Validate(s) && Mirrors(b, s, done, gone) && it in done && it !in gone
    ensures it.subject in s.subjects && k < |s.subjects[it.subject]| && Records(s.subjects[it.subject][k], it, false)
    ensures forall j :: 0 <= j < |s.subjects[it.subject]| && j != k ==> s.subjects[it.subject][j].version != it.version
    ensures FindLive(s.subjects[it.subject], it.version) == k
    ensures Lookup(s, it.subject, it.version, false).Some? && !Lookup(s, it.subject, it.version, false).value.0.deleted
  {
    assert Holds(s, it, false);
    var items := ItemsOf(s, it.subject);
    k :| 0 <= k < |items| && Records(items[k], it, false);
    assert ValidItems(s, it.subject, items) && ValidItem(s, it.subject, items[k]);
    assert Visible(items[k], false);
  }

  lemma DeletionApplies(b: Book, s: Snapshot, done: set<Item>, gone: set<Item>, it: Item, e: Envelope)
    returns (k: nat, t: Snapshot)
    requires Validate(s) && Mirrors(b, s, done, gone) && it in done && it !in gone
    requires e.Valid() && e.Seq() == s.sequence + 1 && e.body.payload == VersionDeleted(it.subject, it.version, false)
    ensures it.subject in s.subjects && k < |s.subjects[it.subject]| && Records(s.subjects[it.subject][k], it, false)
    ensures forall j :: 0 <= j < |s.subjects[it.subject]| && j != k ==> s.subjects[it.subject][j].version != it.version
    ensures var items := s.subjects[it.subject];
      t == Finish(s.(subjects := s.subjects[it.subject := items[k := items[k].(deleted := true, permanent := false)]]),
          e.body)
    ensures Apply(s, e) == Ok(t)
  {
    hide Lookup, Holds, ComesFrom, FindLive, Mirrors;
    k := HeldAt(b, s, done, gone, it);
    var items := s.subjects[it.subject];
    var marked := items[k := items[k].(deleted := true, permanent := false)];
    var u := s.(subjects := s.subjects[it.subject := marked]);
    assert MarkDeleted(s, it.subject, it.version, false) == Some(u);
    forall x | x in u.subjects ensures ValidItems(u, x, u.subjects[x]) {
      assert ValidItems(s, x, s.subjects[x]);
      forall i | 0 <= i < |u.subjects[x]| ensures ValidItem(u, x, u.subjects[x][i]) {
        assert ValidItem(s, x, s.subjects[x][i]);
      }
    }
    FinishIsValid(u, e.body);
    t := Finish(u, e.body);
  }

  lemma HeldThrough(s: Snapshot, t: Snapshot, it: Item, k: nat, v: SubjectVersion, o: Item, deleted: bool)
    requires Holds(s, o, deleted) && it.subject in s.subjects && k < |s.subjects[it.subject]|
    requires t.subjects == s.subjects[it.subject := s.subjects[it.subject][k := v]]
    requires o.subject == it.subject ==> s.subjects[it.subject][k].version != o.version
    ensures Holds(t, o, deleted)
  {
    var j :| 0 <= j < |ItemsOf(s, o.subject)| && Records(ItemsOf(s, o.subject)[j], o, deleted);
    assert ItemsOf(t, o.subject)[j] == ItemsOf(s, o.subject)[j];
  }

  lemma CameThrough(
    b: Book, s: Snapshot, t: Snapshot, x: string, v: SubjectVersion, done: set<Item>, gone: set<Item>, it: Item)
    requires ComesFrom(b, s, x, v, done, gone) && t.schemas == s.schemas
    requires x == it.subject ==> v.version != it.version
    ensures ComesFrom(b, t, x, v, done, gone + {it})
  {
    hide SourceSchema;
    var o :| o in done && o.subject == x && Records(v, o, o in gone) && o.id in s.schemas
        && s.schemas[o.id] == SourceSchema(b, o);
    assert o in gone <==> o in gone + {it};
  }

  lemma MirrorsDeletion(b: Book, s: Snapshot, done: set<Item>, gone: set<Item>, it: Item, k: nat, t: Snapshot)
    requires Consistent(b) && Mirrors(b, s, done, gone) && it in done && it !in gone
    requires it.subject in s.subjects && k < |s.subjects[it.subject]| && Records(s.subjects[it.subject][k], it, false)
    requires forall j :: 0 <= j < |s.subjects[it.subject]| && j != k ==> s.subjects[it.subject][j].version != it.version
    requires var items := s.subjects[it.subject];
      t.subjects == s.subjects[it.subject := items[k := items[k].(deleted := true, permanent := false)]]
    requires t.schemas == s.schemas
    ensures Mirrors(b, t, done, gone + {it})
  {
    hide SourceSchema, ComesFrom, Holds;
    var items := s.subjects[it.subject];
    var v := items[k].(deleted := true, permanent := false);
    assert Records(v, it, true) && t.subjects[it.subject][k] == v;
    forall o | o in done ensures Holds(t, o, o in gone + {it}) {
      if o == it {
        DeletedHeld(t, it, k);
      } else {
        ConsistentPair(b, it, o);
        HeldThrough(s, t, it, k, v, o, o in gone);
      }
    }
    forall x, i | x in t.subjects && 0 <= i < |t.subjects[x]|
      ensures ComesFrom(b, t, x, t.subjects[x][i], done, gone + {it})
    {
      assert ComesFrom(b, s, x, s.subjects[x][i], done, gone);
      if x == it.subject && i == k {
        DeletedCame(b, s, t, done, gone, it, items[k], v);
      } else {
        CameThrough(b, s, t, x, s.subjects[x][i], done, gone, it);
      }
    }
  }

  lemma DeletedHeld(t: Snapshot, it: Item, k: nat)
    requires it.subject in t.subjects && k < |t.subjects[it.subject]| && Records(t.subjects[it.subject][k], it, true)
    ensures Holds(t, it, true)
  {
    assert Records(ItemsOf(t, it.subject)[k], it, true);
  }

  lemma DeletedCame(
    b: Book, s: Snapshot, t: Snapshot, done: set<Item>, gone: set<Item>, it: Item, was: SubjectVersion,
    v: SubjectVersion)
    requires Consistent(b) && ComesFrom(b, s, it.subject, was, done, gone) && Records(was, it, false) && it in done
    requires (forall o :: o in done ==> o in b.items) && Records(v, it, true) && t.schemas == s.schemas
    ensures ComesFrom(b, t, it.subject, v, done, gone + {it})
  {
    var o :| o in done && o.subject == it.subject && Records(was, o, o in gone)
      && o.id in s.schemas && s.schemas[o.id] == SourceSchema(b, o);
    ConsistentPair(b, it, o);
    assert o == it;
  }

  function DeletionCommand(op: string, it: Item): Command {
    DeleteVersion(op, it.subject, it.version, false)
  }

  /** A soft-deleted source version is soft-deleted without error, and nothing else changes. */
  lemma DeletionImports(
    b: Book, s: Snapshot, n: nat, done: set<Item>, gone: set<Item>, it: Item, check: Checker, commit: Envelope -> bool)
    requires Consistent(b) && Importing(b, s, n, done, gone) && it in done && it !in gone && n < MAX_UINT64
    requires forall e :: commit(e)
    ensures var r := Execute(s, check, DeletionCommand(OpId("delete", n + 1), it), commit);
      r.1.Success? && Importing(b, r.0, n + 1, done, gone + {it})
  {
    hide OpId, OpsUpTo, Inv, Mirrors, Apply, Lookup, Records, Consistent, Validate, FindLive;
    var c := DeletionCommand(OpId("delete", n + 1), it);
    FreshOp(s, n, "delete");
    InvValid(s, b.refsOf);
    var at := HeldAt(b, s, done, gone, it);
    var p := PlanCommand(s, check, c);
    assert p.Proposed? && p.envelope.Valid();
    var k, t := DeletionApplies(b, s, done, gone, it, p.envelope);
    StepKeepsInv(s, check, c, b.refsOf, t);
    OpsGrow(s, n, "delete", t, p.result);
    MirrorsDeletion(b, s, done, gone, it, k, t);
  }

  lemma InvValid(s: Snapshot, refsOf: string -> seq<Reference>)
    requires Inv(s, refsOf)
    ensures Validate(s) && s.formatVersion == 1
  {
  }

  // ---- configuration ----

  function Configured(k: Config, c: Command): Config
    requires c.SetCompatibility? || c.SetMode?
  {
    match c
    case SetCompatibility(_, subject, level) =>
      if subject == "" then k.(globalLevel := level) else k.(subjectLevels := k.subjectLevels[subject := level])
    case SetMode(_, subject, mode) =>
      if subject == "" then k.(globalMode := mode) else k.(subjectModes := k.subjectModes[subject := mode])
  }

  lemma MirrorsSame(b: Book, s: Snapshot, t: Snapshot, done: set<Item>, gone: set<Item>)
    requires Mirrors(b, s, done, gone) && t.subjects == s.subjects && t.schemas == s.schemas
    ensures Mirrors(b, t, done, gone)
  {
    hide SourceSchema, Records;
    forall it | it in done ensures Holds(t, it, it in gone) {
      var i :| 0 <= i < |ItemsOf(s, it.subject)| && Records(ItemsOf(s, it.subject)[i], it, it in gone);
      assert ItemsOf(t, it.subject)[i] == ItemsOf(s, it.subject)[i];
    }
    forall x, i | x in t.subjects && 0 <= i < |t.subjects[x]| ensures ComesFrom(b, t, x, t.subjects[x][i], done, gone) {
      assert ComesFrom(b, s, x, s.subjects[x][i], done, gone);
    }
  }

  /** A valid level or mode is set without error and leaves the imported versions alone. */
  lemma ConfigurationImports(
    b: Book, s: Snapshot, n: nat, done: set<Item>, gone: set<Item>, kind: string, c: Command, check: Checker,
    commit: Envelope -> bool)
    requires Loaded(b, s, n, done, gone) && n < MAX_UINT64 && (c.SetCompatibility? || c.SetMode?) && WellFormed(c)
    requires c.op == OpId(kind, n + 1) && forall e :: commit(e)
    ensures var r := Execute(s, check, c, commit);
      r.1.Success? && Loaded(b, r.0, n + 1, done, gone) && ConfigOf(r.0) == Configured(ConfigOf(s), c)
  {
    hide OpId, OpsUpTo, Inv, Mirrors, Validate, Apply;
    FreshOp(s, n, kind);
    InvValid(s, b.refsOf);
    var p := PlanCommand(s, check, c);
    var t := ConfigurationApplies(s, c, p.envelope);
    StepKeepsInv(s, check, c, b.refsOf, t);
    OpsGrow(s, n, kind, t, p.result);
    MirrorsSame(b, s, t, done, gone);
  }

  lemma ConfigurationApplies(s: Snapshot, c: Command, e: Envelope) returns (t: Snapshot)
    requires Validate(s) && (c.SetCompatibility? || c.SetMode?) && WellFormed(c)
    requires e.Valid() && e.Seq() == s.sequence + 1 && e.body.payload == SimplePayload(c) && e.body.op != ""
    ensures Apply(s, e) == Ok(t) && ConfigOf(t) == Configured(ConfigOf(s), c)
    ensures t.subjects == s.subjects && t.schemas == s.schemas
    ensures t.operations == s.operations[e.body.op := e.body.result]
  {
    assert s.globalLevel.Valid() && s.globalMode.Valid();
    hide Validate, ApplyPayload, SimplePayload;
    var u := ConfigurationEffect(s, c);
    WithConfigIsValid(s, Configured(ConfigOf(s), c));
    FinishIsValid(u, e.body);
    t := Finish(u, e.body);
  }

  function WithConfig(s: Snapshot, k: Config): Snapshot {
    s.(globalLevel := k.globalLevel, subjectLevels := k.subjectLevels, globalMode := k.globalMode,
        subjectModes := k.subjectModes)
  }

  lemma ConfigurationEffect(s: Snapshot, c: Command) returns (u: Snapshot)
    requires c.SetCompatibility? || c.SetMode?
    ensures u == WithConfig(s, Configured(ConfigOf(s), c)) && ApplyPayload(s, SimplePayload(c)) == Some(u)
  {
    u := WithConfig(s, Configured(ConfigOf(s), c));
    match c {
      case SetCompatibility(_, subject, level) =>
      case SetMode(_, subject, mode) =>
    }
  }

  lemma WithConfigIsValid(s: Snapshot, k: Config)
    requires Validate(s) && k.globalLevel.Valid() && k.globalMode.Valid()
    ensures Validate(WithConfig(s, k))
  {
    var u := WithConfig(s, k);
    forall x | x in u.subjects ensures ValidItems(u, x, u.subjects[x]) {
      assert ValidItems(s, x, s.subjects[x]);
      forall i | 0 <= i < |u.subjects[x]| ensures ValidItem(u, x, u.subjects[x][i]) {
        assert ValidItem(s, x, s.subjects[x][i]);
      }
    }
  }
}
