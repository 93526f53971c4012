/** The single-writer store (internal/storage/bolt/store.go): one ordered bucket of transitions, a
    stored counter and an optional snapshot, changed by atomic updates. */
module Bolt {
  import opened Domain
  import opened State
  import opened Durable
  import opened Layout

  datatype Disk = Disk(transitions: map<Bytes, Envelope>, counter: Bytes, snapshot: Option<Snapshot>)

  const FRESH_DISK := Disk(map[], Uint64Key(0), None)

  // ---- the bucket's cursor ----

  lemma {:induction false} BeforeTotal(a: Bytes, b: Bytes)
    ensures !Before(a, a)
    ensures a == b || Before(a, b) || Before(b, a)
    decreases |a| + |b|
  {
    if a != [] { BeforeTotal(a[1..], if b == [] then [] else b[1..]); }
    if a != [] && b != [] { assert a == [a[0]] + a[1..] && b == [b[0]] + b[1..]; }
  }

  lemma {:induction false} BeforeTransitive(a: Bytes, b: Bytes, c: Bytes)
    requires Before(a, b) && Before(b, c)
    ensures Before(a, c)
    decreases |a|
  {
    if a != [] && a[0] == b[0] == c[0] { BeforeTransitive(a[1..], b[1..], c[1..]); }
  }

  predicate IsLeast(key: Bytes, keys: set<Bytes>) {
    key in keys && forall other :: other in keys ==> other == key || Before(key, other)
  }

  lemma {:induction false} HasLeast(keys: set<Bytes>)
    requires keys != {}
    ensures exists key :: IsLeast(key, keys)
    decreases |keys|
  {
    var k :| k in keys;
    var rest := keys - {k};
    if rest == {} {
      assert keys == {k};
      assert IsLeast(k, keys);
    } else {
      HasLeast(rest);
      var m :| IsLeast(m, rest);
      BeforeTotal(k, m);
      var least := if Before(k, m) then k else m;
      forall other | other in keys ensures other == least || Before(least, other) {
        if Before(k, m) && other != k && other != m { BeforeTransitive(k, m, other); }
      }
      assert IsLeast(least, keys);
    }
  }

  lemma LeastIsUnique(a: Bytes, b: Bytes, keys: set<Bytes>)
    requires IsLeast(a, keys) && IsLeast(b, keys)
    ensures a == b
  {
    BeforeTotal(a, a);
    if a != b { BeforeTransitive(a, b, a); }
  }

  /** What a cursor reads from its first key to its last. */
  ghost function Listing(bucket: map<Bytes, Envelope>): (r: seq<Envelope>)
    ensures |r| == |bucket|
    decreases |bucket|
  {
    if bucket == map[] then []
    else
      HasLeast(bucket.Keys);
      var key :| IsLeast(key, bucket.Keys);
      [bucket[key]] + Listing(bucket - {key})
  }

  lemma ListingFrom(bucket: map<Bytes, Envelope>, key: Bytes)
    requires IsLeast(key, bucket.Keys)
    ensures Listing(bucket) == [bucket[key]] + Listing(bucket - {key})
  {
    var other :| IsLeast(other, bucket.Keys) && Listing(bucket) == [bucket[other]] + Listing(bucket - {other});
    LeastIsUnique(key, other, bucket.Keys);
  }

  /** The keys a cursor reaches after seeking `start`. */
  function From(bucket: map<Bytes, Envelope>, start: Bytes): (r: map<Bytes, Envelope>)
  {
    map key | key in bucket && !Before(key, start) :: bucket[key]
  }

  /** The envelopes are valid and numbered `first`, `first` + 1, ... */
  ghost predicate Numbered(log: seq<Envelope>, first: Uint64) {
    log != [] ==> log[0].Seq() == first && log[0].Valid() && Numbered(log[1..], NextU64(first))
  }

  ghost function ReplayAfter(d: Disk, after: Uint64): (r: Outcome<seq<Envelope>>)
  {
    var read := Listing(From(d.transitions, Uint64Key(NextU64(after))));
    if Numbered(read, NextU64(after)) then Ok(read) else Err(Corrupt)
  }

  ghost function Recover(d: Disk): (r: Outcome<Snapshot>)
  {
    Recovered(d.snapshot, ReplayAfter(d, if d.snapshot.Some? then d.snapshot.value.sequence else 0))
  }

  // ---- the updates ----

  function CommitTo(d: Disk, e: Envelope): (r: (Disk, bool))
  {
    var last, key := ReadSequence(d.counter), Uint64Key(e.Seq());
    if !e.Valid() then (d, false)
    else if e.Seq() <= last then (d, key in d.transitions && d.transitions[key] == e)
    else if e.Seq() != last + 1 then (d, false)
    else (d.(transitions := d.transitions[key := e], counter := key), true)
  }

  function SaveTo(d: Disk, s: Snapshot): (r: (Disk, bool))
  {
    if Restore(s).Err? || s.sequence > ReadSequence(d.counter) then (d, false)
    else (d.(snapshot := Some(s)), true)
  }

  function RestoreTo(d: Disk, s: Snapshot): (r: (Disk, bool))
  {
    if Restore(s).Err? then (d, false)
    else if ReadSequence(d.counter) != 0 || d.transitions != map[] || d.snapshot.Some? then (d, false)
    else (d.(snapshot := Some(s), counter := Uint64Key(s.sequence)), true)
  }

  /** The cursor loop: the least remaining key comes next, and every envelope must carry the
      expected number. */
  method Walk(bucket: map<Bytes, Envelope>, first: Uint64) returns (r: Outcome<seq<Envelope>>)
    ensures r == if Numbered(Listing(bucket), first) then Ok(Listing(bucket)) else Err(Corrupt)
  {
    hide Listing, Before;
    var expected, rest := first, bucket;
    var read: seq<Envelope> := [];
    while rest != map[]
      invariant Listing(bucket) == read + Listing(rest)
      invariant Numbered(Listing(bucket), first) <==> Numbered(Listing(rest), expected)
      decreases |rest|
    {
      HasLeast(rest.Keys);
      var key :| key in rest && IsLeast(key, rest.Keys);
      ListingFrom(rest, key);
      var e := rest[key];
      if e.Seq() != expected || !e.Valid() { return Err(Corrupt); }
      read := read + [e];
      rest := rest - {key};
      expected := NextU64(expected);
    }
    assert Listing(rest) == [];
    assert Listing(bucket) == read;
    assert Numbered(Listing(rest), expected);
    r := Ok(read);
  }

  class Store {
    var transitions: map<Bytes, Envelope>
    var counter: Bytes
    var snapshot: Option<Snapshot>

    ghost function Content(): Disk
      reads this
    {
      Disk(transitions, counter, snapshot)
    }

    constructor ()
      ensures Content() == FRESH_DISK
    {
      transitions, counter, snapshot := map[], Uint64Key(0), None;
    }

    method Commit(e: Envelope) returns (ok: bool)
      modifies this`transitions, this`counter
      ensures (Content(), ok) == CommitTo(old(Content()), e)
    {
      if !e.Valid() { return false; }
      var last := ReadSequence(counter);
      var key := Uint64Key(e.Seq());
      if e.Seq() <= last { return key in transitions && transitions[key] == e; }
      if e.Seq() != last + 1 { return false; }
      transitions := transitions[key := e];
      counter := key;
      ok := true;
    }

    method Replay(after: Uint64) returns (r: Outcome<seq<Envelope>>)
      ensures r == ReplayAfter(Content(), after)
    {
      r := Walk(From(transitions, Uint64Key(NextU64(after))), NextU64(after));
    }

    method SaveSnapshot(s: Snapshot) returns (ok: bool)
      modifies this`snapshot
      ensures (Content(), ok) == SaveTo(old(Content()), s)
    {
      if Restore(s).Err? || s.sequence > ReadSequence(counter) { return false; }
      snapshot := Some(s);
      ok := true;
    }

    method RestoreSnapshot(s: Snapshot) returns (ok: bool)
      modifies this`snapshot, this`counter
      ensures (Content(), ok) == RestoreTo(old(Content()), s)
    {
      if Restore(s).Err? { return false; }
      if ReadSequence(counter) != 0 || transitions != map[] || snapshot.Some? { return false; }
      snapshot := Some(s);
      counter := Uint64Key(s.sequence);
      ok := true;
    }

    method RecoverState() returns (r: Outcome<Snapshot>)
      ensures r.Ok? <==> Recover(Content()).Ok?
      ensures r.Ok? ==> r == Recover(Content())
    {
      var state := EMPTY;
      if snapshot.Some? {
        var restored := Restore(snapshot.value);
        if restored.Err? { return restored; }
        state := restored.value;
      }
      var tail := Replay(state.sequence);
      if tail.Err? { return Err(tail.category); }
      r := ReplayInto(state, tail.value);
    }
  }
}
