/** Runs of a registry process over the single-writer store: commands, snapshots, lost and
    unreported writes, and restarts (internal/app/app.go, internal/storage/bolt/store.go). */
module BoltRuns {
  import opened Domain
  import opened State
  import opened Commands
  import opened Durable
  import opened Layout
  import opened Bolt

  // ---- what the bucket holds ----

  /** The bucket holds exactly the log, each envelope under the key of its number. */
  ghost predicate Files(bucket: map<Bytes, Envelope>, base: Uint64, log: seq<Envelope>) {
    && base + |log| <= MAX_UINT64
    && (forall k: Uint64 :: base < k <= base + |log| ==>
          Uint64Key(k) in bucket && bucket[Uint64Key(k)] == log[k - base - 1])
    && (forall key :: key in bucket ==> base < ReadSequence(key) <= base + |log| && key == Uint64Key(ReadSequence(key)))
  }

  lemma FirstIsLeast(bucket: map<Bytes, Envelope>, base: Uint64, log: seq<Envelope>)
    requires Files(bucket, base, log) && log != []
    ensures IsLeast(Uint64Key(base + 1), bucket.Keys)
  {
    hide Uint64Key, ReadSequence, Before;
    forall key | key in bucket ensures key == Uint64Key(base + 1) || Before(Uint64Key(base + 1), key) {
      BoltKeyOrder(base + 1, ReadSequence(key));
    }
  }

  lemma FilesRest(bucket: map<Bytes, Envelope>, base: Uint64, log: seq<Envelope>)
    requires Files(bucket, base, log) && log != []
    ensures Files(bucket - {Uint64Key(base + 1)}, base + 1, log[1..])
  {
    hide Uint64Key, ReadSequence;
    forall k: Uint64 ensures Uint64Key(k) == Uint64Key(base + 1) <==> k == base + 1 { BoltKeyOrder(k, base + 1); }
  }

  /** Cursor order is replay order. */
  lemma {:induction false} ListingIsLog(bucket: map<Bytes, Envelope>, base: Uint64, log: seq<Envelope>)
    requires Files(bucket, base, log)
    ensures Listing(bucket) == log
    decreases |log|
  {
    hide Listing, Uint64Key, ReadSequence, Before;
    if log == [] {
      assert bucket == map[] && Listing(bucket) == [];
    } else {
      hide Files;
      FirstIsLeast(bucket, base, log);
      ListingFrom(bucket, Uint64Key(base + 1));
      FilesRest(bucket, base, log);
      ListingIsLog(bucket - {Uint64Key(base + 1)}, base + 1, log[1..]);
    }
  }

  lemma FilesAfter(bucket: map<Bytes, Envelope>, base: Uint64, log: seq<Envelope>, after: Uint64)
    requires Files(bucket, base, log) && base <= after <= base + |log| && after < MAX_UINT64
    ensures Files(From(bucket, Uint64Key(after + 1)), after, log[after - base..])
  {
    hide Uint64Key, ReadSequence, Before;
    var kept := From(bucket, Uint64Key(after + 1));
    forall k: Uint64 | after < k <= base + |log|
      ensures Uint64Key(k) in kept && kept[Uint64Key(k)] == log[after - base..][k - after - 1]
    {
      BoltKeyOrder(k, after + 1);
    }
    forall key | key in kept ensures after < ReadSequence(key) {
      BoltKeyOrder(ReadSequence(key), after + 1);
    }
  }

  /** The replay loop's check means what it says: valid envelopes, one number after the other. */
  lemma {:induction false} NumberedIff(log: seq<Envelope>, first: Uint64)
    requires first + |log| - 1 <= MAX_UINT64
    ensures Numbered(log, first) <==> forall i :: 0 <= i < |log| ==> log[i].Seq() == first + i && log[i].Valid()
    decreases |log|
  {
    if |log| > 1 {
      NumberedIff(log[1..], first + 1);
      assert forall i :: 0 <= i < |log[1..]| ==> log[1..][i] == log[i + 1];
      assert forall i :: 1 <= i < |log| ==> log[i] == log[1..][i - 1];
    }
  }

  // ---- the store's invariant ----

  ghost predicate Stored(base: Snapshot, log: seq<Envelope>, d: Disk) {
    && Files(d.transitions, base.sequence, log) && d.counter == Uint64Key(base.sequence + |log|)
    && Fold(base, log).Ok?
    && (d.snapshot.None? ==> base == EMPTY)
    && (d.snapshot.Some? ==> IsStateOf(base, log, d.snapshot.value) && Restore(d.snapshot.value).Ok?)
  }

  lemma ReplayIsTail(base: Snapshot, log: seq<Envelope>, d: Disk, after: Uint64)
    requires Stored(base, log, d) && base.sequence <= after <= base.sequence + |log| && after < MAX_UINT64
    ensures ReplayAfter(d, after) == Ok(log[after - base.sequence..])
  {
    hide Files, IsStateOf, Restore, Uint64Key, From, Listing;
    FilesAfter(d.transitions, base.sequence, log, after);
    var tail := log[after - base.sequence..];
    ListingIsLog(From(d.transitions, Uint64Key(after + 1)), after, tail);
    FoldPrefix(base, log, 0);
    forall i | 0 <= i < |tail| ensures tail[i].Seq() == after + 1 + i && tail[i].Valid() {
      assert tail[i] == log[after - base.sequence + i];
    }
    assert tail == [] || after + |tail| <= MAX_UINT64 by { FilesBound(d.transitions, base.sequence, log); }
    NumberedIff(tail, after + 1);
  }

  lemma FilesBound(bucket: map<Bytes, Envelope>, base: Uint64, log: seq<Envelope>)
    requires Files(bucket, base, log)
    ensures base + |log| <= MAX_UINT64
  {
  }

  /** The start of recovery is a state of the log. */
  ghost function Start(d: Disk): Snapshot {
    if d.snapshot.Some? then d.snapshot.value else EMPTY
  }

  /** Snapshot plus tail is full replay. The one exception is the last 64-bit sequence: a snapshot
      there makes the cursor seek zero, so any stored transition stops recovery. */
  lemma RecoveryIsFullReplay(base: Snapshot, log: seq<Envelope>, d: Disk)
    requires Stored(base, log, d)
    ensures Recover(d).Ok? <==> (Start(d).sequence < MAX_UINT64 || d.transitions == map[])
    ensures Recover(d).Ok? ==> Recover(d) == Fold(base, log)
  {
    hide Uint64Key, ReadSequence, Files, Validate, Restore, ReplayAfter, Apply;
    var start := Start(d);
    var k := start.sequence - base.sequence;
    assert start.sequence == 0 && d.snapshot.None? ==> log[..0] == [];
    assert IsStateOf(base, log, start) && (d.snapshot.Some? ==> Restore(start) == Ok(start));
    FoldFromAny(base, log, k);
    if start.sequence < MAX_UINT64 {
      ReplayIsTail(base, log, d, start.sequence);
    } else {
      assert log[k..] == [];
      LastSequenceReplay(base, log, d);
    }
  }

  lemma LastSequenceReplay(base: Snapshot, log: seq<Envelope>, d: Disk)
    requires Files(d.transitions, base.sequence, log)
    ensures ReplayAfter(d, MAX_UINT64) == if d.transitions == map[] then Ok([]) else Err(Corrupt)
  {
    hide Listing;
    assert |Listing(map[])| == 0;
    var all := From(d.transitions, Uint64Key(0));
    forall key | key in d.transitions ensures !Before(key, Uint64Key(0)) { BoltKeyOrder(ReadSequence(key), 0); }
    assert all == d.transitions;
    assert d.transitions != map[] ==> |Listing(all)| != 0;
  }

  // ---- updates keep the invariant ----

  lemma FilesAppend(bucket: map<Bytes, Envelope>, base: Uint64, log: seq<Envelope>, e: Envelope)
    requires Files(bucket, base, log) && e.Seq() == base + |log| + 1
    ensures Files(bucket[Uint64Key(e.Seq()) := e], base, log + [e])
  {
    hide Uint64Key, ReadSequence;
    BoltKeyOrder(e.Seq(), e.Seq());
    forall k: Uint64 ensures Uint64Key(k) == Uint64Key(e.Seq()) <==> k == e.Seq() { BoltKeyOrder(k, e.Seq()); }
  }

  lemma FiledAt(bucket: map<Bytes, Envelope>, base: Uint64, log: seq<Envelope>, k: Uint64)
    requires Files(bucket, base, log)
    ensures Uint64Key(k) in bucket <==> base < k <= base + |log|
    ensures base < k <= base + |log| ==> bucket[Uint64Key(k)] == log[k - base - 1]
  {
    hide Uint64Key, ReadSequence;
    BoltKeyOrder(k, k);
  }

  /** A commit is accepted exactly when it repeats a stored envelope or is the next number. */
  lemma CommitAccepts(base: Snapshot, log: seq<Envelope>, d: Disk, e: Envelope)
    requires Stored(base, log, d)
    ensures CommitTo(d, e).1 <==> e in log || (e.Valid() && e.Seq() == base.sequence + |log| + 1)
    ensures e in log ==> CommitTo(d, e).0 == d && base.sequence < e.Seq() <= base.sequence + |log|
    ensures e in log ==> e == log[e.Seq() - base.sequence - 1]
    ensures !CommitTo(d, e).1 ==> CommitTo(d, e).0 == d
  {
    hide Uint64Key, ReadSequence, IsStateOf, Restore, Fold, Files;
    FilesBound(d.transitions, base.sequence, log);
    BoltKeyOrder(0, base.sequence + |log|);
    FiledAt(d.transitions, base.sequence, log, e.Seq());
    NumberedPosition(base, log, e);
  }

  lemma CommitKeepsStored(base: Snapshot, log: seq<Envelope>, d: Disk, e: Envelope)
    requires Stored(base, log, d) && Apply(Fold(base, log).value, e).Ok?
    ensures Stored(base, log + [e], CommitTo(d, e).0) && CommitTo(d, e).1
  {
    hide Uint64Key, ReadSequence, Restore, Files, Apply, IsStateOf;
    FilesBound(d.transitions, base.sequence, log);
    BoltKeyOrder(0, base.sequence + |log|);
    FilesAppend(d.transitions, base.sequence, log, e);
    assert (log + [e])[..|log|] == log;
    if d.snapshot.Some? { StateOfLonger(base, log, [e], d.snapshot.value); }
  }

  // ---- the process ----

  datatype Node = Node(disk: Disk, state: Snapshot)

  /** What became of the update a commit asked for. */
  datatype Fate = Reported | Lost | Unreported

  datatype Event = Invoke(command: Command, fate: Fate) | Save(lost: bool) | Restart

  /** The machine's command against the store's commit. */
  ghost function Invoked(check: Checker, n: Node, c: Command, fate: Fate): (r: (Node, Answer))
  {
    match PlanCommand(n.state, check, c)
    case Proposed(e, result) =>
      if Apply(n.state, e).Err? then (n, Failure(Corrupt))
      else
        var (disk, ok) := CommitTo(n.disk, e);
        var (state, answer) := CommitApply(n.state, e, result, ok && fate.Reported?);
        (Node(if fate.Lost? then n.disk else disk, state), answer)
    case Replayed(result) => (n, Success(result))
    case Deduplicated(result) => (n, Success(result))
    case Refused(category) => (n, Failure(category))
  }

  ghost function After(check: Checker, n: Node, event: Event): (r: Node)
  {
    match event
    case Invoke(c, fate) => Invoked(check, n, c, fate).0
    case Save(lost) => if lost then n else n.(disk := SaveTo(n.disk, n.state).0)
    case Restart => if Recover(n.disk).Ok? then n.(state := Recover(n.disk).value) else n
  }

  ghost function Run(check: Checker, n: Node, events: seq<Event>): (r: Node)
    decreases |events|
  {
    if events == [] then n else Run(check, After(check, n, events[0]), events[1..])
  }

  ghost predicate Sound(base: Snapshot, n: Node) {
    Stored(base, Listing(n.disk.transitions), n.disk) && IsStateOf(base, Listing(n.disk.transitions), n.state)
  }

  ghost function Log(n: Node): seq<Envelope> {
    Listing(n.disk.transitions)
  }

  lemma StoredIsSound(base: Snapshot, log: seq<Envelope>, n: Node)
    requires Stored(base, log, n.disk) && IsStateOf(base, log, n.state)
    ensures Sound(base, n) && Log(n) == log
  {
    ListingIsLog(n.disk.transitions, base.sequence, log);
  }

  /** The envelope a machine proposes is either the one the log already holds at that number or the
      next one; the store refuses every other. */
  lemma InvokeKeepsSound(base: Snapshot, check: Checker, n: Node, c: Command, fate: Fate)
    requires Sound(base, n)
    ensures Sound(base, Invoked(check, n, c, fate).0) && Log(n) <= Log(Invoked(check, n, c, fate).0)
    ensures Invoked(check, n, c, fate).1.Success? && PlanCommand(n.state, check, c).Proposed? ==>
      PlanCommand(n.state, check, c).envelope in Log(Invoked(check, n, c, fate).0)
  {
    hide CommitTo, PlanCommand, Stored, Listing;
    var log := Log(n);
    var p := PlanCommand(n.state, check, c);
    if p.Proposed? && Apply(n.state, p.envelope).Ok? {
      var e, next := p.envelope, Apply(n.state, p.envelope).value;
      CommitAccepts(base, log, n.disk, e);
      if CommitTo(n.disk, e).1 {
        if e in log {
          NextStateOf(base, log, n.state, e, next);
          StoredIsSound(base, log, Invoked(check, n, c, fate).0);
        } else {
          assert n.state.sequence == base.sequence + |log| && log[..|log|] == log;
          CommitKeepsStored(base, log, n.disk, e);
          StateOfLonger(base, log, [e], n.state);
          NextStateOf(base, log + [e], n.state, e, next);
          StoredIsSound(base, log + [e], Node(CommitTo(n.disk, e).0, next));
          StoredIsSound(base, log + [e], Node(CommitTo(n.disk, e).0, n.state));
        }
      }
    }
  }

  lemma NextStateOf(base: Snapshot, log: seq<Envelope>, s: Snapshot, e: Envelope, next: Snapshot)
    requires IsStateOf(base, log, s) && s.sequence < base.sequence + |log|
    requires log[s.sequence - base.sequence] == e && Apply(s, e) == Ok(next)
    ensures IsStateOf(base, log, next)
  {
    var k := s.sequence - base.sequence;
    assert log[..k + 1][..k] == log[..k];
  }

  lemma StepKeepsSound(base: Snapshot, check: Checker, n: Node, event: Event)
    requires Sound(base, n)
    ensures Sound(base, After(check, n, event)) && Log(n) <= Log(After(check, n, event))
  {
    hide Invoked, Recover, Listing, Restore, Uint64Key, ReadSequence, Files, Fold;
    match event {
      case Invoke(c, fate) => InvokeKeepsSound(base, check, n, c, fate);
      case Save(_) =>
      case Restart =>
        RecoveryIsFullReplay(base, Log(n), n.disk);
        assert Log(n)[..|Log(n)|] == Log(n);
    }
  }

  /** Whatever mix of commands, saved snapshots, lost writes, unreported writes and restarts: the
      process holds a state of the stored log, and the log only grows. */
  lemma {:induction false} RunKeepsSound(base: Snapshot, check: Checker, n: Node, events: seq<Event>)
    requires Sound(base, n)
    ensures Sound(base, Run(check, n, events)) && Log(n) <= Log(Run(check, n, events))
    decreases |events|
  {
    if events != [] {
      StepKeepsSound(base, check, n, events[0]);
      RunKeepsSound(base, check, After(check, n, events[0]), events[1..]);
    }
  }

  /** A process can save its state at any time. Recovery then starts from that state and replays only
      what follows it. */
  lemma SavedIsStart(base: Snapshot, n: Node)
    requires Sound(base, n) && Restore(base).Ok?
    ensures var (disk, ok) := SaveTo(n.disk, n.state);
      && ok && Start(disk) == n.state && disk.transitions == n.disk.transitions && disk.counter == n.disk.counter
      && base.sequence <= n.state.sequence <= base.sequence + |Log(n)|
      && (n.state.sequence < MAX_UINT64 ==>
            ReplayAfter(disk, n.state.sequence) == Ok(Log(n)[n.state.sequence - base.sequence..]))
  {
    hide Validate, Listing, ReplayAfter, Uint64Key, ReadSequence, Files, Apply;
    var log := Log(n);
    FoldIsRestorable(base, log[..n.state.sequence - base.sequence]);
    FilesBound(n.disk.transitions, base.sequence, log);
    BoltKeyOrder(0, base.sequence + |log|);
    var disk := SaveTo(n.disk, n.state).0;
    assert Stored(base, log, disk);
    if n.state.sequence < MAX_UINT64 { ReplayIsTail(base, log, disk, n.state.sequence); }
  }

  /** A snapshot of a state the log has not reached is not stored. */
  lemma SaveAheadIsRefused(base: Snapshot, log: seq<Envelope>, d: Disk, s: Snapshot)
    requires Stored(base, log, d) && s.sequence > base.sequence + |log|
    ensures SaveTo(d, s) == (d, false)
  {
    hide Uint64Key, ReadSequence, Files, Restore, Fold, IsStateOf;
    FilesBound(d.transitions, base.sequence, log);
    BoltKeyOrder(0, base.sequence + |log|);
  }

  lemma FreshIsSound()
    ensures Sound(EMPTY, Node(FRESH_DISK, EMPTY)) && Log(Node(FRESH_DISK, EMPTY)) == []
  {
    StoredIsSound(EMPTY, [], Node(FRESH_DISK, EMPTY));
  }

  /** An acknowledged command survives every later crash: recovery gives exactly the fold of a log
      that holds its envelope, and the recovered process goes on from there. */
  lemma AcknowledgedSurvivesCrash(base: Snapshot, check: Checker, n: Node, c: Command, fate: Fate, later: seq<Event>)
    requires Sound(base, n) && PlanCommand(n.state, check, c).Proposed? && Invoked(check, n, c, fate).1.Success?
    ensures var m := Run(check, n, [Invoke(c, fate)] + later);
      && PlanCommand(n.state, check, c).envelope in Log(m)
      && (Start(m.disk).sequence < MAX_UINT64 ==>
            Recover(m.disk) == Fold(base, Log(m)) == Ok(After(check, m, Restart).state))
  {
    hide PlanCommand, Stored, Fold, Listing, IsStateOf, CommitTo, Recover, Invoked;
    var events := [Invoke(c, fate)] + later;
    var first := Invoked(check, n, c, fate).0;
    assert events[0] == Invoke(c, fate) && events[1..] == later;
    InvokeKeepsSound(base, check, n, c, fate);
    RunKeepsSound(base, check, first, later);
    var m := Run(check, n, events);
    RecoveryIsFullReplay(base, Log(m), m.disk);
  }

  /** Restoring into an unused store: recovery gives the restored state and numbering goes on. */
  lemma RestoredIsSound(s: Snapshot)
    requires Restore(s).Ok?
    ensures RestoreTo(FRESH_DISK, s).1 && Sound(s, Node(RestoreTo(FRESH_DISK, s).0, s))
    ensures Log(Node(RestoreTo(FRESH_DISK, s).0, s)) == [] && Recover(RestoreTo(FRESH_DISK, s).0) == Ok(s)
  {
    hide Uint64Key, ReadSequence, Validate;
    BoltKeyOrder(0, 0);
    var n := Node(RestoreTo(FRESH_DISK, s).0, s);
    StoredIsSound(s, [], n);
    RecoveryIsFullReplay(s, [], n.disk);
  }
}
