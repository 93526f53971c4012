/** The reference graph of a reachable state is well-founded: every reference points to a version
    registered strictly before the referring schema was first registered, so resolving references
    ends without any depth limit (internal/domain/machine.go, internal/domain/state.go). */
module ReferenceGraph {
  import opened Domain
  import opened State
  import opened RegistryInvariant

  ghost predicate RegisteredAt(s: Snapshot, id: Int64, q: int) {
    exists x, i :: x in s.subjects && 0 <= i < |s.subjects[x]|
      && s.subjects[x][i].schemaId == id && s.subjects[x][i].sequence == q
  }

  /** The first sequence at or after `q` that registered the schema; one past the log if none did. */
  ghost function FirstFrom(s: Snapshot, id: Int64, q: nat): (first: nat)
    requires q <= s.sequence + 1
    ensures q <= first <= s.sequence + 1
    ensures forall p :: q <= p < first ==> !RegisteredAt(s, id, p)
    ensures first <= s.sequence ==> RegisteredAt(s, id, first)
    decreases s.sequence + 1 - q
  {
    if q == s.sequence + 1 || RegisteredAt(s, id, q) then q else FirstFrom(s, id, q + 1)
  }

  ghost function FirstSequence(s: Snapshot, id: Int64): nat {
    FirstFrom(s, id, 0)
  }

  /** A stored schema was first registered at a sequence of the log, and no later item predates it. */
  lemma FirstIsLeast(s: Snapshot, refsOf: string -> seq<Reference>, x: string, i: nat)
    requires Inv(s, refsOf) && x in s.subjects && i < |s.subjects[x]|
    ensures FirstSequence(s, s.subjects[x][i].schemaId) <= s.subjects[x][i].sequence
  {
    var item := s.subjects[x][i];
    assert ItemSound(s, item);
    assert RegisteredAt(s, item.schemaId, item.sequence);
  }

  /** The one item a reference resolves to, whatever its deletion flags. */
  ghost predicate Resolves(s: Snapshot, r: Reference, j: int) {
    0 <= j < |ItemsOf(s, r.subject)| && ItemsOf(s, r.subject)[j].version == r.version
  }

  /** Every reference of every stored schema resolves, uniquely, strictly before the schema began. */
  lemma ReferenceResolvesEarlier(s: Snapshot, refsOf: string -> seq<Reference>, id: Int64, k: nat) returns (j: int)
    requires Inv(s, refsOf) && id in s.schemas && k < |s.schemas[id].references|
    ensures Resolves(s, s.schemas[id].references[k], j)
    ensures forall i :: Resolves(s, s.schemas[id].references[k], i) ==> i == j
    ensures var target := ItemsOf(s, s.schemas[id].references[k].subject)[j];
            && target.sequence < FirstSequence(s, id) <= s.sequence
            && target.schemaId in s.schemas
            && FirstSequence(s, target.schemaId) < FirstSequence(s, id)
  {
    var r := s.schemas[id].references[k];
    FirstItemSound(s, refsOf, id, r);
    j :| 0 <= j < |ItemsOf(s, r.subject)| && ItemsOf(s, r.subject)[j].version == r.version
         && ItemsOf(s, r.subject)[j].sequence < FirstSequence(s, id);
    UniqueTarget(s, r, j);
    FirstIsLeast(s, refsOf, r.subject, j);
  }

  lemma UniqueTarget(s: Snapshot, r: Reference, j: int)
    requires Validate(s) && Resolves(s, r, j)
    ensures forall i :: Resolves(s, r, i) ==> i == j
    ensures ItemsOf(s, r.subject)[j].schemaId in s.schemas
  {
    assert ValidItems(s, r.subject, s.subjects[r.subject]);
    assert ValidItem(s, r.subject, ItemsOf(s, r.subject)[j]);
  }

  lemma FirstItemSound(s: Snapshot, refsOf: string -> seq<Reference>, id: Int64, r: Reference)
    requires Inv(s, refsOf) && id in s.schemas && r in s.schemas[id].references
    ensures FirstSequence(s, id) <= s.sequence && TargetBefore(s, r, FirstSequence(s, id))
  {
    assert Owned(s, id);
    var x0, i0 :| x0 in s.subjects && 0 <= i0 < |s.subjects[x0]| && s.subjects[x0][i0].schemaId == id;
    FirstIsLeast(s, refsOf, x0, i0);
    assert ItemSound(s, s.subjects[x0][i0]);
    var x, i :| x in s.subjects && 0 <= i < |s.subjects[x]|
                && s.subjects[x][i].schemaId == id && s.subjects[x][i].sequence == FirstSequence(s, id);
    assert ItemSound(s, s.subjects[x][i]);
  }

  ghost predicate Edge(s: Snapshot, from: Int64, to: Int64) {
    && from in s.schemas
    && exists k, j :: 0 <= k < |s.schemas[from].references| && Resolves(s, s.schemas[from].references[k], j)
         && ItemsOf(s, s.schemas[from].references[k].subject)[j].schemaId == to
  }

  lemma EdgeDescends(s: Snapshot, refsOf: string -> seq<Reference>, from: Int64, to: Int64)
    requires Inv(s, refsOf) && Edge(s, from, to)
    ensures to in s.schemas && FirstSequence(s, to) < FirstSequence(s, from) <= s.sequence
  {
    var k, i :| 0 <= k < |s.schemas[from].references| && Resolves(s, s.schemas[from].references[k], i)
                && ItemsOf(s, s.schemas[from].references[k].subject)[i].schemaId == to;
    var j := ReferenceResolvesEarlier(s, refsOf, from, k);
  }

  ghost predicate IsPath(s: Snapshot, path: seq<Int64>) {
    |path| >= 2 ==> Edge(s, path[0], path[1]) && IsPath(s, path[1..])
  }

  /** First sequences fall strictly along every path, so no path returns to where it started and
      none is longer than the log. */
  lemma {:induction false} ReferencesAreAcyclic(s: Snapshot, refsOf: string -> seq<Reference>, path: seq<Int64>)
    requires Inv(s, refsOf) && |path| >= 2 && IsPath(s, path)
    ensures FirstSequence(s, path[|path| - 1]) + |path| - 1 <= FirstSequence(s, path[0]) <= s.sequence
    ensures path[0] != path[|path| - 1]
    decreases |path|
  {
    EdgeDescends(s, refsOf, path[0], path[1]);
    if |path| > 2 { ReferencesAreAcyclic(s, refsOf, path[1..]); }
  }

  ghost function Direct(s: Snapshot, refsOf: string -> seq<Reference>, id: Int64): (direct: set<Int64>)
    requires Inv(s, refsOf) && id in s.schemas
    ensures forall to :: to in direct <==> Edge(s, id, to)
    ensures forall to :: to in direct ==> to in s.schemas && FirstSequence(s, to) < FirstSequence(s, id)
  {
    assert forall to :: Edge(s, id, to) ==> to in s.schemas && FirstSequence(s, to) < FirstSequence(s, id) by {
      forall to | Edge(s, id, to) ensures to in s.schemas && FirstSequence(s, to) < FirstSequence(s, id) {
        EdgeDescends(s, refsOf, id, to);
      }
    }
    set to | to in s.schemas && Edge(s, id, to)
  }

  /** Everything a schema needs, itself included; the recursion has no depth limit. */
  ghost function Needs(s: Snapshot, refsOf: string -> seq<Reference>, id: Int64): (needed: set<Int64>)
    requires Inv(s, refsOf) && id in s.schemas
    decreases FirstSequence(s, id)
  {
    {id} + set to, n | to in Direct(s, refsOf, id) && n in Needs(s, refsOf, to) :: n
  }

  /** The needed schemas are all stored, and nothing they refer to is left out. */
  lemma {:induction false} NeedsIsClosed(s: Snapshot, refsOf: string -> seq<Reference>, id: Int64)
    requires Inv(s, refsOf) && id in s.schemas
    ensures id in Needs(s, refsOf, id) && Closed(s, Needs(s, refsOf, id))
    decreases FirstSequence(s, id)
  {
    forall to | to in Direct(s, refsOf, id)
      ensures to in Needs(s, refsOf, to) && Closed(s, Needs(s, refsOf, to))
    {
      NeedsIsClosed(s, refsOf, to);
    }
    var all := Needs(s, refsOf, id);
    forall a, b | a in all && Edge(s, a, b) ensures b in all {
      if a != id {
        var to :| to in Direct(s, refsOf, id) && a in Needs(s, refsOf, to);
        assert b in Needs(s, refsOf, to);
      }
    }
  }

  ghost predicate Closed(s: Snapshot, ids: set<Int64>) {
    ids <= s.schemas.Keys && forall a, b :: a in ids && Edge(s, a, b) ==> b in ids
  }
}
