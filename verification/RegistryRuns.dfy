/** Whole runs of registry commands, with any mix of accepted and failed commits. */
module RegistryRuns {
  import opened Domain
  import opened State
  import opened Commands
  import opened RegistryInvariant

  datatype Call = Call(command: Command, commit: Envelope -> bool)

  /** The state after the calls; a failed commit leaves the state as it was. */
  ghost function Run(s: Snapshot, check: Checker, calls: seq<Call>): (t: Snapshot)
    decreases |calls|
  {
    if calls == [] then s
    else Run(Execute(s, check, calls[0].command, calls[0].commit).0, check, calls[1..])
  }

  ghost predicate AllWellIdentified(calls: seq<Call>, refsOf: string -> seq<Reference>) {
    forall i :: 0 <= i < |calls| ==> WellIdentified(calls[i].command, refsOf)
  }

  lemma EmptyInv(refsOf: string -> seq<Reference>)
    ensures Inv(EMPTY, refsOf)
  {
  }

  lemma ExecuteKeepsInv(
    s: Snapshot, check: Checker, c: Command, commit: Envelope -> bool, refsOf: string -> seq<Reference>)
    requires Inv(s, refsOf) && WellIdentified(c, refsOf)
    ensures Inv(Execute(s, check, c, commit).0, refsOf) && Extends(s, Execute(s, check, c, commit).0)
  {
    var t := Execute(s, check, c, commit).0;
    if t != s { StepKeepsInv(s, check, c, refsOf, t); }
  }

  /** Every reachable state satisfies the invariant and keeps what the start recorded. */
  lemma {:induction false} RunKeepsInv(s: Snapshot, check: Checker, calls: seq<Call>, refsOf: string -> seq<Reference>)
    requires Inv(s, refsOf) && AllWellIdentified(calls, refsOf)
    ensures Inv(Run(s, check, calls), refsOf) && Extends(s, Run(s, check, calls))
    decreases |calls|
  {
    if calls != [] {
      var next := Execute(s, check, calls[0].command, calls[0].commit).0;
      ExecuteKeepsInv(s, check, calls[0].command, calls[0].commit, refsOf);
      RunKeepsInv(next, check, calls[1..], refsOf);
      ExtendsTransitive(s, next, Run(s, check, calls));
    }
  }

  lemma {:induction false} RunAppend(s: Snapshot, check: Checker, a: seq<Call>, b: seq<Call>)
    ensures Run(s, check, a + b) == Run(Run(s, check, a), check, b)
    decreases |a|
  {
    if a == [] {
      assert a + b == b;
    } else {
      var next := Execute(s, check, a[0].command, a[0].commit).0;
      assert (a + b)[1..] == a[1..] + b;
      RunAppend(next, check, a[1..], b);
    }
  }

  /** A subject version, once given out, names the same schema for ever. */
  lemma VersionNeverReused(
    check: Checker, a: seq<Call>, b: seq<Call>, refsOf: string -> seq<Reference>, subject: string, i: nat, j: nat)
    requires AllWellIdentified(a + b, refsOf)
    requires i < |ItemsOf(Run(EMPTY, check, a), subject)| && j < |ItemsOf(Run(EMPTY, check, a + b), subject)|
    requires ItemsOf(Run(EMPTY, check, a), subject)[i].version == ItemsOf(Run(EMPTY, check, a + b), subject)[j].version
    ensures i == j
    ensures ItemsOf(Run(EMPTY, check, a), subject)[i].Fixed() == ItemsOf(Run(EMPTY, check, a + b), subject)[j].Fixed()
    ensures ItemsOf(Run(EMPTY, check, a), subject)[i].schemaId in Run(EMPTY, check, a + b).schemas
    ensures var id := ItemsOf(Run(EMPTY, check, a), subject)[i].schemaId;
      && id in Run(EMPTY, check, a).schemas
      && Run(EMPTY, check, a + b).schemas[id] == Run(EMPTY, check, a).schemas[id]
  {
    TwoStates(check, a, b, refsOf);
    VersionKept(Run(EMPTY, check, a), Run(EMPTY, check, a + b), subject, i, j);
  }

  lemma VersionKept(s: Snapshot, t: Snapshot, subject: string, i: nat, j: nat)
    requires Extends(s, t) && Validate(s) && Validate(t)
    requires i < |ItemsOf(s, subject)| && j < |ItemsOf(t, subject)|
    requires ItemsOf(s, subject)[i].version == ItemsOf(t, subject)[j].version
    ensures i == j && ItemsOf(s, subject)[i].Fixed() == ItemsOf(t, subject)[j].Fixed()
    ensures ItemsOf(s, subject)[i].schemaId in s.schemas
  {
    var xs, ys := ItemsOf(s, subject), ItemsOf(t, subject);
    assert ItemLater(xs[i], ys[i]);
    assert ys[i].Fixed().version == ys[j].version;
    assert ValidItems(t, subject, ys) && ValidItem(s, subject, xs[i]);
  }

  lemma TwoStates(check: Checker, a: seq<Call>, b: seq<Call>, refsOf: string -> seq<Reference>)
    requires AllWellIdentified(a + b, refsOf)
    ensures Inv(Run(EMPTY, check, a), refsOf) && Inv(Run(EMPTY, check, a + b), refsOf)
    ensures Extends(Run(EMPTY, check, a), Run(EMPTY, check, a + b))
  {
    EmptyInv(refsOf);
    assert forall i :: 0 <= i < |a| ==> a[i] == (a + b)[i];
    assert forall i :: 0 <= i < |b| ==> b[i] == (a + b)[|a| + i];
    RunKeepsInv(EMPTY, check, a, refsOf);
    RunKeepsInv(Run(EMPTY, check, a), check, b, refsOf);
    RunAppend(EMPTY, check, a, b);
  }

  /** No active version ever references a missing or permanently deleted one: each of its references
      still resolves when soft-deleted versions are counted in. */
  lemma NoDanglingReference(
    check: Checker, calls: seq<Call>, refsOf: string -> seq<Reference>, subject: string, i: nat, r: Reference)
    requires AllWellIdentified(calls, refsOf)
    requires i < |ItemsOf(Run(EMPTY, check, calls), subject)| && ItemsOf(Run(EMPTY, check, calls), subject)[i].Active()
    requires var t := Run(EMPTY, check, calls);
      ItemsOf(t, subject)[i].schemaId in t.schemas && r in t.schemas[ItemsOf(t, subject)[i].schemaId].references
    ensures Lookup(Run(EMPTY, check, calls), r.subject, r.version, true).Some?
  {
    EmptyInv(refsOf);
    RunKeepsInv(EMPTY, check, calls, refsOf);
    LiveTargetResolves(Run(EMPTY, check, calls), refsOf, subject, i, r);
  }

  lemma LiveTargetResolves(t: Snapshot, refsOf: string -> seq<Reference>, subject: string, i: nat, r: Reference)
    requires Inv(t, refsOf) && i < |ItemsOf(t, subject)| && ItemsOf(t, subject)[i].Active()
    requires ItemsOf(t, subject)[i].schemaId in t.schemas && r in t.schemas[ItemsOf(t, subject)[i].schemaId].references
    ensures Lookup(t, r.subject, r.version, true).Some?
  {
    hide Lookup, Validate, TargetBefore, LiveTarget, OneActive, Bijection, IdsBelowNext, Owned;
    var item := t.subjects[subject][i];
    assert ItemsSound(t, t.subjects[subject]) && ItemSound(t, item);
    var k :| 0 <= k < |t.schemas[item.schemaId].references| && t.schemas[item.schemaId].references[k] == r;
    LiveIsVisible(t, r);
  }

  lemma LiveIsVisible(t: Snapshot, r: Reference)
    requires Validate(t) && LiveTarget(t, r)
    ensures Lookup(t, r.subject, r.version, true).Some?
  {
    var items := ItemsOf(t, r.subject);
    var j :| 0 <= j < |items| && items[j].version == r.version && !items[j].permanent;
    var f := FindVisible(items, r.version, true);
    assert Visible(items[j], true) && f <= j;
    assert ValidItem(t, r.subject, t.subjects[r.subject][f]);
  }

  /** A recorded operation answers every later call with its ID from the record, whatever happened
      in between, and that call changes nothing. */
  lemma RecordedOperationAnswers(
    check: Checker, a: seq<Call>, b: seq<Call>, refsOf: string -> seq<Reference>, c: Command, commit: Envelope -> bool)
    requires AllWellIdentified(a + b, refsOf)
    requires c.Register? || c.DeleteVersion? || c.DeleteSubject?
    requires c.op != "" && c.op in Run(EMPTY, check, a).operations
    ensures Execute(Run(EMPTY, check, a + b), check, c, commit)
         == (Run(EMPTY, check, a + b), Success(Run(EMPTY, check, a).operations[c.op]))
  {
    TwoStates(check, a, b, refsOf);
  }

  // ---- one subject's versions ----

  /** A subject's list keeps its length unless a registration in that subject appends to it. */
  lemma ItemsOutcome(s: Snapshot, check: Checker, c: Command, t: Snapshot, subject: string)
    requires Validate(s) && PlanCommand(s, check, c).Proposed? && Apply(s, PlanCommand(s, check, c).envelope) == Ok(t)
    ensures if c.Register? && c.subject == subject
            then t.subjects == s.subjects[subject := ItemsOf(s, subject) + [NewItem(s, c)]]
            else |ItemsOf(t, subject)| == |ItemsOf(s, subject)|
    ensures t.schemas == if c.Register? then s.schemas[Candidate(s, c).id := Candidate(s, c)] else s.schemas
  {
    hide Validate, ReferenceProblem, CompatibilitySchemas;
    var u := ApplyShape(s, PlanCommand(s, check, c).envelope, t);
    if c.DeleteVersion? {
      VersionDeletionDeletes(s, c, u);
    } else if c.DeleteSubject? {
      SubjectDeletionDeletes(s, c, u);
    } else if !c.Register? {
      ConfigurationKeepsCore(s, c, u);
    }
  }

  // ---- numbering ----

  /** IDs are exactly 1 .. next-1 and the versions of every subject exactly 1 .. n, in order. */
  ghost predicate Dense(s: Snapshot) {
    && (forall id :: 1 <= id < s.nextSchemaId ==> id in s.schemas)
    && (forall id :: id in s.schemas ==> 1 <= id < s.nextSchemaId)
    && (forall x :: x in s.subjects ==> DenseVersions(s.subjects[x]))
  }

  ghost predicate DenseVersions(items: seq<SubjectVersion>) {
    forall i :: 0 <= i < |items| ==> items[i].version == i + 1
  }

  ghost predicate Unnumbered(c: Command) {
    c.Register? ==> c.requestedId == 0 && c.requestedVersion == 0
  }

  lemma DenseMax(items: seq<SubjectVersion>)
    requires DenseVersions(items)
    ensures MaxVersion(items) == |items|
  {
    if items != [] { assert items[|items| - 1].version == |items|; }
  }

  lemma LaterKeepsVersions(xs: seq<SubjectVersion>, ys: seq<SubjectVersion>)
    requires DenseVersions(xs) && ItemsLater(xs, ys) && |xs| == |ys|
    ensures DenseVersions(ys)
  {
    forall i | 0 <= i < |ys| ensures ys[i].version == i + 1 {
      assert ItemLater(xs[i], ys[i]);
      assert ys[i].Fixed().version == xs[i].version;
    }
  }

  lemma RegisterKeepsDenseIds(s: Snapshot, c: Command, t: Snapshot)
    requires Bijection(s) && IdsBelowNext(s) && Dense(s) && c.Register? && c.requestedId == 0
    requires t.schemas == s.schemas[ChosenId(s, c) := Candidate(s, c)] && t.nextSchemaId >= 1
    requires t.nextSchemaId == if ChosenId(s, c) >= s.nextSchemaId then Next64(ChosenId(s, c)) else s.nextSchemaId
    ensures forall id :: 1 <= id < t.nextSchemaId ==> id in t.schemas
    ensures forall id :: id in t.schemas ==> 1 <= id < t.nextSchemaId
  {
  }

  lemma AppendKeepsDense(items: seq<SubjectVersion>, item: SubjectVersion)
    requires DenseVersions(items) && item.version == Next64(MaxVersion(items)) && item.version >= 1
    ensures DenseVersions(items + [item])
  {
    DenseMax(items);
  }

  lemma RegisterKeepsDense(s: Snapshot, c: Command, t: Snapshot)
    requires Bijection(s) && IdsBelowNext(s) && Dense(s) && c.Register? && Unnumbered(c)
    requires t == RegisterInto(s, Candidate(s, c), NewItem(s, c)) && Candidate(s, c).id == ChosenId(s, c)
    requires t.nextSchemaId >= 1 && ChosenVersion(s, c) >= 1
    ensures Dense(t)
  {
    RegisterKeepsDenseIds(s, c, t);
    AppendKeepsDense(ItemsOf(s, c.subject), NewItem(s, c));
    forall x | x in t.subjects ensures DenseVersions(t.subjects[x]) { }
  }

  lemma NewVersionIsPositive(s: Snapshot, schema: Schema, item: SubjectVersion, t: Snapshot)
    requires Validate(t) && t.subjects == RegisterInto(s, schema, item).subjects
    ensures item.version >= 1
  {
    var items := t.subjects[item.subject];
    assert items[|items| - 1] == item;
    assert ValidItem(t, item.subject, items[|items| - 1]);
  }

  lemma DeletesKeepDense(s: Snapshot, t: Snapshot)
    requires Dense(s) && Deletes(s, t)
    ensures Dense(t)
  {
    forall x | x in t.subjects ensures DenseVersions(t.subjects[x]) {
      assert forall i :: 0 <= i < |s.subjects[x]| ==> ItemDeletes(s, x, s.subjects[x][i], t.subjects[x][i]);
      LaterKeepsVersions(s.subjects[x], t.subjects[x]);
    }
  }

  lemma PlannedKeepsDense(s: Snapshot, check: Checker, c: Command, refsOf: string -> seq<Reference>, t: Snapshot)
    requires Inv(s, refsOf) && Dense(s) && WellIdentified(c, refsOf) && Unnumbered(c)
    requires PlanCommand(s, check, c).Proposed? && Apply(s, PlanCommand(s, check, c).envelope) == Ok(t)
    ensures Dense(t)
  {
    var u := ApplyPayload(s, PlanCommand(s, check, c).envelope.body.payload).value;
    if c.Register? {
      PlannedRegisterFacts(s, check, c, refsOf);
      NewVersionIsPositive(s, Candidate(s, c), NewItem(s, c), t);
      RegisterKeepsDense(s, c, u);
    } else if c.DeleteVersion? {
      VersionDeletionDeletes(s, c, u);
      DeletesKeepDense(s, u);
    } else if c.DeleteSubject? {
      SubjectDeletionDeletes(s, c, u);
      DeletesKeepDense(s, u);
    } else {
      ConfigurationKeepsCore(s, c, u);
    }
  }

  /** Without explicit IDs and versions both numberings have no gap, whatever is deleted meanwhile. */
  lemma {:induction false} NumberingIsGapFree(
    s: Snapshot, check: Checker, calls: seq<Call>, refsOf: string -> seq<Reference>)
    requires Inv(s, refsOf) && Dense(s) && AllWellIdentified(calls, refsOf)
    requires forall i :: 0 <= i < |calls| ==> Unnumbered(calls[i].command)
    ensures Dense(Run(s, check, calls))
    decreases |calls|
  {
    if calls != [] {
      var c := calls[0].command;
      var next := Execute(s, check, c, calls[0].commit).0;
      ExecuteKeepsInv(s, check, c, calls[0].commit, refsOf);
      if next != s { PlannedKeepsDense(s, check, c, refsOf, next); }
      NumberingIsGapFree(next, check, calls[1..], refsOf);
    }
  }

  /** The three 64-bit counters cannot wrap: a registration that would take the last ID or the
      version after the last, and any command at the last sequence, fails before the commit. */
  lemma CountersNeverWrap(
    s: Snapshot, check: Checker, c: Command, commit: Envelope -> bool, refsOf: string -> seq<Reference>)
    requires Inv(s, refsOf) && WellIdentified(c, refsOf) && PlanCommand(s, check, c).Proposed?
    requires
      || s.sequence == MAX_UINT64
      || (c.Register? && ChosenId(s, c) == MAX_INT64)
      || (c.Register? && c.requestedVersion == 0 && MaxVersion(ItemsOf(s, c.subject)) == MAX_INT64)
    ensures Execute(s, check, c, commit) == (s, Failure(Corrupt))
  {
    var e := PlanCommand(s, check, c).envelope;
    if Apply(s, e).Ok? { SuccessIsInRange(s, check, c, refsOf, Apply(s, e).value); }
  }

  lemma SuccessIsInRange(s: Snapshot, check: Checker, c: Command, refsOf: string -> seq<Reference>, t: Snapshot)
    requires Inv(s, refsOf) && WellIdentified(c, refsOf)
    requires PlanCommand(s, check, c).Proposed? && Apply(s, PlanCommand(s, check, c).envelope) == Ok(t)
    ensures s.sequence < MAX_UINT64
    ensures c.Register? ==> ChosenId(s, c) < MAX_INT64 && ChosenVersion(s, c) >= 1
  {
    var u := ApplyShape(s, PlanCommand(s, check, c).envelope, t);
    if c.Register? {
      PlannedRegisterFacts(s, check, c, refsOf);
      NewVersionIsPositive(s, Candidate(s, c), NewItem(s, c), u.(sequence := s.sequence + 1));
    }
  }
}
