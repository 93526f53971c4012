/** One replica's view of the state topic (internal/storage/kafka/store.go).

    A record value is the decoded JSON; equal values stand for equal bytes. */
module Kafka {
  import opened Domain
  import opened State
  import opened Durable

  const FORMAT: int := 1

  datatype Lease = Lease(holder: string, epoch: Uint64)

  datatype Announcement = Announcement(formatVersion: int, holder: string, epoch: Uint64, address: string) {
    predicate Valid() { formatVersion == FORMAT && holder != "" && epoch != 0 && address != "" }
  }

  const NOBODY := Announcement(0, "", 0, "")

  /** The checksum of the snapshot bytes; no snapshot is the empty byte string. */
  datatype SnapshotDigest = Sha256Of(snapshot: Option<Snapshot>)

  datatype Checkpoint = Checkpoint(formatVersion: int, sequence: Uint64, checksum: SnapshotDigest)

  datatype Key = TransitionKey(sequence: Uint64) | SnapshotKey | PrimaryKey | RestoreKey | OtherKey(raw: string)

  datatype Value =
    | EnvelopeValue(envelope: Envelope)
    | SnapshotValue(snapshot: Snapshot)
    | PrimaryValue(announcement: Announcement)
    | CheckpointValue(checkpoint: Checkpoint)
    | Garbage

  /** A record without a value is a tombstone. */
  datatype Record = Record(key: Key, value: Option<Value>)

  datatype View = View(
    items: map<Uint64, Envelope>, snapshot: Option<Snapshot>, primary: Announcement, base: Uint64)

  const BLANK := View(map[], None, NOBODY, 0)

  function ApplyTransition(v: View, sequence: Uint64, value: Option<Value>): (r: Option<View>)
  {
    match value
    case Some(EnvelopeValue(e)) =>
      if e.Seq() != sequence || !e.Valid() then None
      else if sequence in v.items && v.items[sequence] != e then None
      else Some(v.(items := v.items[sequence := e]))
    case _ => None
  }

  function ApplyPrimary(v: View, value: Option<Value>): (r: Option<View>)
  {
    match value
    case None => Some(v.(primary := NOBODY))
    case Some(PrimaryValue(p)) =>
      if !p.Valid() || p.epoch < v.primary.epoch then None else Some(v.(primary := p))
    case _ => None
  }

  function ApplySnapshot(v: View, value: Option<Value>): (r: Option<View>)
  {
    match value
    case None => Some(v.(snapshot := None))
    case Some(SnapshotValue(s)) => if Restore(s).Err? then None else Some(v.(snapshot := Some(s)))
    case _ => None
  }

  function ApplyCheckpoint(v: View, value: Option<Value>): (r: Option<View>)
  {
    match value
    case Some(CheckpointValue(c)) =>
      if c.formatVersion != FORMAT || c.sequence == 0 || c.checksum != Sha256Of(v.snapshot) then None
      else Some(v.(base := c.sequence))
    case _ => None
  }

  /** One record of the topic; `None` is the fatal error that stops the consumer. */
  function ApplyRecord(v: View, record: Record): (r: Option<View>)
  {
    match record.key
    case TransitionKey(sequence) => ApplyTransition(v, sequence, record.value)
    case SnapshotKey => ApplySnapshot(v, record.value)
    case PrimaryKey => ApplyPrimary(v, record.value)
    case RestoreKey => ApplyCheckpoint(v, record.value)
    case OtherKey(_) => None
  }

  /** The view after a whole log, if no record is refused. */
  ghost function Consume(log: seq<Record>): (r: Option<View>)
  {
    if log == [] then Some(BLANK)
    else match Consume(log[..|log| - 1])
      case None => None
      case Some(v) => ApplyRecord(v, log[|log| - 1])
  }

  ghost function MaxOf(keys: set<Uint64>, floor: Uint64): (m: Uint64)
    ensures floor <= m && (m == floor || m in keys)
    ensures forall k: Uint64 :: k in keys ==> k <= m
    decreases |keys|
  {
    if keys == {} then floor
    else
      var k: Uint64 :| k in keys;
      var m := MaxOf(keys - {k}, floor);
      assert forall j: Uint64 :: j in keys ==> j == k || j in keys - {k};
      if k > m then k else m
  }

  /** The highest sequence the view knows. */
  ghost function Last(v: View): (last: Uint64)
    ensures IsLast(v, last)
  {
    MaxOf(v.items.Keys, v.base)
  }

  ghost predicate IsLast(v: View, last: Uint64) {
    && v.base <= last && (last == v.base || last in v.items)
    && forall k: Uint64 :: k in v.items ==> k <= last
  }

  lemma LastIsUnique(v: View, last: Uint64)
    requires IsLast(v, last)
    ensures last == Last(v)
  {
  }

  datatype SequenceCheck = Retry | Fresh | Rejected

  ghost function CheckSequence(v: View, e: Envelope): (r: SequenceCheck)
  {
    if e.Seq() <= Last(v) then
      if e.Seq() in v.items && v.items[e.Seq()] == e then Retry else Rejected
    else if e.Seq() == Last(v) + 1 then Fresh
    else Rejected
  }

  ghost predicate Contiguous(v: View) {
    forall k: Uint64 :: v.base < k <= Last(v) ==> k in v.items
  }

  ghost predicate Readable(v: View, after: Uint64) {
    forall k: Uint64 :: after < k <= Last(v) ==> k in v.items && v.items[k].Valid()
  }

  /** The envelopes numbered after+1 .. last. Replaying from beyond the last sequence fails: the
      code sizes a slice with the negative difference. */
  ghost function ItemsAfter(v: View, after: Uint64): (r: Outcome<seq<Envelope>>)
    ensures r.Ok? <==> v.base <= after <= Last(v) && Readable(v, after)
    ensures r.Ok? ==> |r.value| == Last(v) - after
    ensures r.Ok? ==> forall k: Uint64 :: after < k <= Last(v) ==> r.value[k - after - 1] == v.items[k]
  {
    if after < v.base || after > Last(v) then Err(StorageFailure)
    else if !Readable(v, after) then Err(Corrupt)
    else Ok(Slice(v.items, after, Last(v)))
  }

  ghost function Slice(items: map<Uint64, Envelope>, after: Uint64, upTo: Uint64): (r: seq<Envelope>)
    requires after <= upTo && forall k: Uint64 :: after < k <= upTo ==> k in items
    ensures |r| == upTo - after
    ensures forall k: Uint64 :: after < k <= upTo ==> r[k - after - 1] == items[k]
    decreases upTo
  {
    if after == upTo then [] else Slice(items, after, upTo - 1) + [items[upTo]]
  }

  ghost function Recover(v: View): (r: Outcome<Snapshot>)
  {
    Recovered(v.snapshot, ItemsAfter(v, if v.snapshot.Some? then v.snapshot.value.sequence else 0))
  }

  class Store {
    var items: map<Uint64, Envelope>
    var snapshot: Option<Snapshot>
    var primary: Announcement
    var base: Uint64
    var position: nat
    var lease: Option<Lease>
    const requireLeadership: bool

    ghost function Seen(): View
      reads this
    {
      View(items, snapshot, primary, base)
    }

    constructor (requireLeadership: bool)
      ensures Seen() == BLANK && position == 0 && lease == None && Positive()
      ensures this.requireLeadership == requireLeadership
    {
      this.requireLeadership := requireLeadership;
      items, snapshot, primary, base := map[], None, NOBODY, 0;
      position, lease := 0, None;
    }

    method LastSequence() returns (last: Uint64)
      ensures last == Last(Seen())
    {
      last := base;
      var keys := items.Keys;
      while keys != {}
        invariant keys <= items.Keys && base <= last && (last == base || last in items)
        invariant forall k: Uint64 :: k in items && k !in keys ==> k <= last
      {
        var k :| k in keys;
        if k > last { last := k; }
        keys := keys - {k};
      }
      LastIsUnique(Seen(), last);
    }

    method Accept(record: Record) returns (ok: bool)
      modifies this`items, this`snapshot, this`primary, this`base
      ensures ok == ApplyRecord(old(Seen()), record).Some?
      ensures Seen() == if ok then ApplyRecord(old(Seen()), record).value else old(Seen())
      ensures old(Positive()) ==> Positive()
    {
      ok := false;
      match record.key {
        case TransitionKey(sequence) =>
          if record.value.Some? && record.value.value.EnvelopeValue? {
            var e := record.value.value.envelope;
            if e.Seq() == sequence && e.Valid() && (sequence in items ==> items[sequence] == e) {
              items := items[sequence := e];
              ok := true;
            }
          }
        case SnapshotKey =>
          if record.value.None? { snapshot := None; ok := true; }
          else if record.value.value.SnapshotValue? && Restore(record.value.value.snapshot).Ok? {
            snapshot := Some(record.value.value.snapshot);
            ok := true;
          }
        case PrimaryKey =>
          if record.value.None? { primary := NOBODY; ok := true; }
          else if record.value.value.PrimaryValue? {
            var p := record.value.value.announcement;
            if p.Valid() && p.epoch >= primary.epoch { primary := p; ok := true; }
          }
        case RestoreKey =>
          if record.value.Some? && record.value.value.CheckpointValue? {
            var c := record.value.value.checkpoint;
            if c.formatVersion == FORMAT && c.sequence != 0 && c.checksum == Sha256Of(snapshot) {
              base := c.sequence;
              ok := true;
            }
          }
        case OtherKey(_) =>
      }
    }

    /** Applies fetched records in offset order; the first refused record ends the batch and is
        not counted in the position. */
    method AcceptAll(ghost before: seq<Record>, records: seq<Record>) returns (ok: bool)
      requires Consume(before) == Some(Seen()) && position == |before|
      modifies this`items, this`snapshot, this`primary, this`base, this`position
      ensures |before| <= position <= |before| + |records|
      ensures Consume((before + records)[..position]) == Some(Seen())
      ensures ok <==> position == |before| + |records|
      ensures !ok ==> ApplyRecord(Seen(), records[position - |before|]).None?
      ensures old(Positive()) ==> Positive()
    {
      assert (before + records)[..|before|] == before;
      for i := 0 to |records|
        invariant position == |before| + i
        invariant Consume((before + records)[..position]) == Some(Seen())
        invariant old(Positive()) ==> Positive()
      {
        ghost var upTo := (before + records)[..position + 1];
        assert upTo[..position] == (before + records)[..position] && upTo[position] == records[i];
        var accepted := Accept(records[i]);
        if !accepted { return false; }
        position := position + 1;
      }
      ok := true;
    }

    method CheckSequenceOf(e: Envelope) returns (r: SequenceCheck)
      ensures r == CheckSequence(Seen(), e)
    {
      var last := LastSequence();
      if e.Seq() <= last {
        return if e.Seq() in items && items[e.Seq()] == e then Retry else Rejected;
      }
      r := if e.Seq() != last + 1 then Rejected else Fresh;
    }

    /** No transition is numbered zero; every accepted record keeps it so. */
    ghost predicate Positive()
      reads this
    {
      0 !in items
    }

    /** The counter wraps to zero after the last 64-bit sequence, where no item is: a log that reaches
        this sequence does not validate. */
    method ValidateReplay() returns (ok: bool)
      requires Positive()
      ensures ok <==> Contiguous(Seen()) && Last(Seen()) < MAX_UINT64
    {
      var last := LastSequence();
      var sequence: Uint64 := NextU64(base);
      while sequence <= last
        invariant sequence == 0 ==> last == MAX_UINT64
        invariant sequence != 0 ==> base < sequence && sequence - 1 <= last
        invariant forall k: Uint64 :: base < k && (k < sequence || sequence == 0) ==> k in items
        decreases sequence != 0, last - sequence
      {
        if sequence !in items {
          ghost var v := Seen();
          assert sequence != 0 ==> v.base < sequence <= Last(v) && sequence !in v.items;
          return false;
        }
        sequence := NextU64(sequence);
      }
      assert sequence != 0 && sequence - 1 == last;
      ghost var v := Seen();
      forall k: Uint64 | v.base < k <= Last(v) ensures k in v.items { assert k < sequence; }
      ok := true;
    }

    method Replay(after: Uint64) returns (r: Outcome<seq<Envelope>>)
      ensures r == ItemsAfter(Seen(), after)
    {
      if after < base { return Err(StorageFailure); }
      var last := LastSequence();
      if after > last { return Err(StorageFailure); }
      var encoded: seq<Envelope> := [];
      var sequence: Uint64 := after;
      while sequence < last
        invariant after <= sequence <= last
        invariant forall k: Uint64 :: after < k <= sequence ==> k in items && items[k].Valid()
        invariant encoded == Slice(items, after, sequence)
      {
        sequence := sequence + 1;
        if sequence !in items || !items[sequence].Valid() { return Err(Corrupt); }
        encoded := encoded + [items[sequence]];
      }
      r := Ok(encoded);
    }

    /** Recovery at start-up: the observed snapshot, then the items after it. */
    method RecoverState() returns (r: Outcome<Snapshot>)
      ensures r.Ok? <==> Recover(Seen()).Ok?
      ensures r.Ok? ==> r == Recover(Seen())
    {
      var state := EMPTY;
      if snapshot.Some? {
        var restored := Restore(snapshot.value);
        if restored.Err? { return restored; }
        state := restored.value;
      }
      var tail := Replay(state.sequence);
      if tail.Err? { return Err(tail.category); }
      r := ReplayInto(state, tail.value);
    }

    method CheckLeadership() returns (ok: bool)
      ensures ok <==> (requireLeadership ==> Leads(lease, Seen()))
    {
      if !requireLeadership { return true; }
      ok := lease.Some? && lease.value.holder != "" && lease.value.epoch != 0
            && primary.holder == lease.value.holder && primary.epoch == lease.value.epoch;
    }
  }

  /** The replica holds a lease and the newest announcement it has seen is its own. */
  ghost predicate Leads(lease: Option<Lease>, v: View) {
    && lease.Some? && lease.value.holder != "" && lease.value.epoch != 0
    && v.primary.holder == lease.value.holder && v.primary.epoch == lease.value.epoch
  }
}
