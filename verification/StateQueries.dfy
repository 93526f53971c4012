/** What the queries return, and what any durable envelope may do to a state
    (internal/domain/state.go). */
module StateQueries {
  import opened Domain
  import opened State
  import opened RegistryInvariant

  /** The item at this place is the one a lookup returns. */
  ghost predicate Answers(s: Snapshot, subject: string, version: Int64, includeDeleted: bool, i: int) {
    && 0 <= i < |ItemsOf(s, subject)| && ItemsOf(s, subject)[i].version == version
    && !ItemsOf(s, subject)[i].permanent && (ItemsOf(s, subject)[i].deleted ==> includeDeleted)
  }

  /** A lookup in a valid state finds the one version of that number unless it is permanently deleted,
      or soft-deleted and not asked for, and returns it with its schema. */
  lemma LookupIff(s: Snapshot, subject: string, version: Int64, includeDeleted: bool)
    requires Validate(s)
    ensures Lookup(s, subject, version, includeDeleted).Some? <==>
      exists i :: Answers(s, subject, version, includeDeleted, i)
    ensures forall i :: Answers(s, subject, version, includeDeleted, i) ==>
      && ItemsOf(s, subject)[i].schemaId in s.schemas
      && Lookup(s, subject, version, includeDeleted)
         == Some((ItemsOf(s, subject)[i], s.schemas[ItemsOf(s, subject)[i].schemaId]))
  {
    var items := ItemsOf(s, subject);
    var k := FindVisible(items, version, includeDeleted);
    if k < |items| {
      assert ValidItems(s, subject, s.subjects[subject]) && ValidItem(s, subject, items[k]);
      assert Answers(s, subject, version, includeDeleted, k);
    }
    forall i | Answers(s, subject, version, includeDeleted, i) ensures i == k {
      assert Visible(items[i], includeDeleted);
      assert ValidItems(s, subject, s.subjects[subject]);
    }
  }

  /** A restored snapshot is fit for use: its defaults are valid, every identity leads to the schema
      with that identity, every version number is positive and used once, and every version that is not
      permanently deleted can be looked up. */
  lemma RestoredIsUsable(s: Snapshot, x: string, subject: string, i: nat, j: nat)
    requires Restore(s).Ok?
    ensures !s.globalLevel.UnknownLevel? && !s.globalMode.UnknownMode? && s.nextSchemaId >= 1 && s.formatVersion == 1
    ensures x in s.identityToId ==> s.identityToId[x] in s.schemas && s.schemas[s.identityToId[x]].identity == x
    ensures i < |ItemsOf(s, subject)| ==>
      ItemsOf(s, subject)[i].version >= 1 && ItemsOf(s, subject)[i].subject == subject
    ensures i < |ItemsOf(s, subject)| && !ItemsOf(s, subject)[i].permanent ==>
      Lookup(s, subject, ItemsOf(s, subject)[i].version, true).Some?
    ensures i < j < |ItemsOf(s, subject)| ==> ItemsOf(s, subject)[i].version != ItemsOf(s, subject)[j].version
  {
    if i < |ItemsOf(s, subject)| {
      assert ValidItems(s, subject, s.subjects[subject]) && ValidItem(s, subject, s.subjects[subject][i]);
      LookupIff(s, subject, ItemsOf(s, subject)[i].version, true);
      assert !ItemsOf(s, subject)[i].permanent ==> Answers(s, subject, ItemsOf(s, subject)[i].version, true, i);
    }
  }

  // ---- any envelope ----

  /** A list changes by gaining flags, or by one more item at the end. */
  ghost predicate ListEvolves(xs: seq<SubjectVersion>, ys: seq<SubjectVersion>) {
    |xs| <= |ys| <= |xs| + 1 && forall i :: 0 <= i < |xs| ==> ys[i].Fixed() == xs[i].Fixed()
  }

  lemma {:induction false} MarkAllEvolves(
    s: Snapshot, subject: string, versions: seq<Int64>, permanent: bool, t: Snapshot)
    requires MarkAll(s, subject, versions, permanent) == Some(t)
    ensures t == s.(subjects := t.subjects)
    ensures forall x :: |ItemsOf(t, x)| == |ItemsOf(s, x)|
    ensures forall x, i :: 0 <= i < |ItemsOf(s, x)| ==> ItemsOf(t, x)[i].Fixed() == ItemsOf(s, x)[i].Fixed()
    decreases |versions|
  {
    if versions != [] {
      var next := MarkDeleted(s, subject, versions[0], permanent).value;
      MarkEvolves(s, subject, versions[0], permanent, next);
      MarkAllEvolves(next, subject, versions[1..], permanent, t);
    }
  }

  lemma MarkEvolves(s: Snapshot, subject: string, version: Int64, permanent: bool, t: Snapshot)
    requires MarkDeleted(s, subject, version, permanent) == Some(t)
    ensures t == s.(subjects := t.subjects)
    ensures forall x :: |ItemsOf(t, x)| == |ItemsOf(s, x)|
    ensures forall x, i :: 0 <= i < |ItemsOf(s, x)| ==> ItemsOf(t, x)[i].Fixed() == ItemsOf(s, x)[i].Fixed()
  {
    hide FindLive;
  }

  lemma PayloadEvolves(s: Snapshot, payload: Payload, t: Snapshot)
    requires ApplyPayload(s, payload) == Some(t)
    ensures forall id :: id in s.schemas ==> id in t.schemas && t.schemas[id].identity == s.schemas[id].identity
    ensures forall x :: ListEvolves(ItemsOf(s, x), ItemsOf(t, x))
  {
    hide MarkAll, MarkDeleted, Next64;
    match payload {
      case VersionDeleted(subject, version, permanent) => MarkEvolves(s, subject, version, permanent, t);
      case SubjectDeleted(subject, versions, permanent) => MarkAllEvolves(s, subject, versions, permanent, t);
      case _ =>
    }
  }

  /** Whoever wrote it, an envelope that applies is valid and next, leads to a valid state, rebinds no ID
      to another identity, takes no version away and records its operation. */
  lemma AnyEnvelope(s: Snapshot, e: Envelope, t: Snapshot)
    requires Apply(s, e) == Ok(t)
    ensures e.checksum == Sha256(e.body) && e.body.version == 1 && t.sequence == s.sequence + 1 == e.Seq()
    ensures Validate(t)
    ensures forall id :: id in s.schemas ==> id in t.schemas && t.schemas[id].identity == s.schemas[id].identity
    ensures forall x :: ListEvolves(ItemsOf(s, x), ItemsOf(t, x))
    ensures e.body.op != "" ==> e.body.op in t.operations && t.operations[e.body.op] == e.body.result
  {
    hide Validate, ApplyPayload, ListEvolves;
    var u := ApplyPayload(s, e.body.payload).value;
    PayloadEvolves(s, e.body.payload, u);
    assert forall x :: ItemsOf(t, x) == ItemsOf(u, x);
  }
}
