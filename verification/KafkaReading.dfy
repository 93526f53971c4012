/** Which topics a store can read and what it then knows, record by record, and how it judges a commit
    (internal/storage/kafka/store.go). */
module KafkaReading {
  import opened Domain
  import opened State
  import opened Commands
  import opened RegistryInvariant
  import opened Durable
  import opened Kafka
  import opened ReplicatedLog

  /** The value of the last record with this key; `None` if there is no such record. */
  ghost function Newest(log: seq<Record>, key: Key): (r: Option<Option<Value>>)
  {
    if log == [] then None
    else if log[|log| - 1].key == key then Some(log[|log| - 1].value)
    else Newest(log[..|log| - 1], key)
  }

  ghost function NewestSnapshot(log: seq<Record>): Option<Snapshot> {
    match Newest(log, SnapshotKey)
    case Some(Some(SnapshotValue(s))) => Some(s)
    case _ => None
  }

  ghost function NewestPrimary(log: seq<Record>): Announcement {
    match Newest(log, PrimaryKey)
    case Some(Some(PrimaryValue(p))) => p
    case _ => NOBODY
  }

  ghost function NewestBase(log: seq<Record>): Uint64 {
    match Newest(log, RestoreKey)
    case Some(Some(CheckpointValue(c))) => c.sequence
    case _ => 0
  }

  /** What a record has to be, given the records before it. */
  ghost predicate Acceptable(before: seq<Record>, r: Record) {
    match r.key
    case TransitionKey(k) =>
      && r.value.Some? && r.value.value.EnvelopeValue?
      && r.value.value.envelope.Valid() && r.value.value.envelope.Seq() == k
      && (forall j :: 0 <= j < |before| && before[j].key == r.key ==> before[j] == r)
    case SnapshotKey =>
      r.value.Some? ==> r.value.value.SnapshotValue? && Restore(r.value.value.snapshot).Ok?
    case PrimaryKey =>
      r.value.Some? ==>
        && r.value.value.PrimaryValue? && r.value.value.announcement.Valid()
        && NewestPrimary(before).epoch <= r.value.value.announcement.epoch
    case RestoreKey =>
      && r.value.Some? && r.value.value.CheckpointValue?
      && r.value.value.checkpoint.formatVersion == FORMAT && r.value.value.checkpoint.sequence != 0
      && r.value.value.checkpoint.checksum == Sha256Of(NewestSnapshot(before))
    case OtherKey(_) => false
  }

  ghost predicate AllAcceptable(log: seq<Record>) {
    forall i :: 0 <= i < |log| ==> Acceptable(log[..i], log[i])
  }

  /** The view holds the newest of everything and every transition. */
  ghost predicate Shows(log: seq<Record>, v: View) {
    && v.snapshot == NewestSnapshot(log) && v.primary == NewestPrimary(log) && v.base == NewestBase(log)
    && (forall k: Uint64 :: k in v.items <==> exists j :: 0 <= j < |log| && log[j].key == TransitionKey(k))
    && (forall k: Uint64 :: k in v.items ==> Appears(log, TransitionKey(k), EnvelopeValue(v.items[k])))
  }

  ghost predicate Appears(log: seq<Record>, key: Key, value: Value) {
    exists j :: 0 <= j < |log| && log[j] == Record(key, Some(value))
  }

  lemma AcceptedIff(before: seq<Record>, v: View, r: Record)
    requires AllAcceptable(before) && Shows(before, v)
    ensures ApplyRecord(v, r).Some? <==> Acceptable(before, r)
  {
    hide Restore;
    match r.key {
      case TransitionKey(k) =>
        if k in v.items {
          assert Appears(before, r.key, EnvelopeValue(v.items[k]));
          var j :| 0 <= j < |before| && before[j] == Record(r.key, Some(EnvelopeValue(v.items[k])));
          SameKeySameRecord(before, r.key, j);
        }
      case _ =>
    }
  }

  /** All records of one transition key are equal. */
  lemma SameKeySameRecord(log: seq<Record>, key: Key, j: nat)
    requires AllAcceptable(log) && key.TransitionKey? && j < |log| && log[j].key == key
    ensures forall i :: 0 <= i < |log| && log[i].key == key ==> log[i] == log[j]
  {
    hide NewestPrimary, NewestSnapshot;
    forall i | 0 <= i < |log| && log[i].key == key ensures log[i] == log[j] {
      assert Acceptable(log[..i], log[i]) && Acceptable(log[..j], log[j]);
      if i < j { assert log[..j][i] == log[i]; }
      if j < i { assert log[..i][j] == log[j]; }
    }
  }

  lemma ShownNext(before: seq<Record>, v: View, r: Record, w: View)
    requires Shows(before, v) && Acceptable(before, r) && ApplyRecord(v, r) == Some(w)
    ensures Shows(before + [r], w)
  {
    hide Restore, Appears, NewestSnapshot, NewestPrimary, NewestBase;
    var log := before + [r];
    FieldsNext(before, v, r, w);
    forall k: Uint64
      ensures k in w.items <==> exists j :: 0 <= j < |log| && log[j].key == TransitionKey(k)
    {
      KeysNext(before, r, TransitionKey(k));
    }
    forall k: Uint64 | k in w.items ensures Appears(log, TransitionKey(k), EnvelopeValue(w.items[k])) {
      AppearsNext(before, r, TransitionKey(k), EnvelopeValue(w.items[k]));
    }
  }

  lemma FieldsNext(before: seq<Record>, v: View, r: Record, w: View)
    requires v.snapshot == NewestSnapshot(before) && v.primary == NewestPrimary(before) && v.base == NewestBase(before)
    requires ApplyRecord(v, r) == Some(w)
    ensures w.snapshot == NewestSnapshot(before + [r]) && w.primary == NewestPrimary(before + [r])
    ensures w.base == NewestBase(before + [r])
  {
    hide Restore;
    var log := before + [r];
    assert log[..|before|] == before && log[|before|] == r;
  }

  lemma KeysNext(before: seq<Record>, r: Record, key: Key)
    ensures (exists j :: 0 <= j < |before + [r]| && (before + [r])[j].key == key) <==>
      r.key == key || exists j :: 0 <= j < |before| && before[j].key == key
  {
    var log := before + [r];
    if j :| 0 <= j < |before| && before[j].key == key { assert log[j].key == key; }
    assert log[|before|] == r;
  }

  lemma AppearsNext(before: seq<Record>, r: Record, key: Key, value: Value)
    requires r == Record(key, Some(value)) || Appears(before, key, value)
    ensures Appears(before + [r], key, value)
  {
    var log := before + [r];
    assert log[|before|] == r;
    if r != Record(key, Some(value)) {
      var j :| 0 <= j < |before| && before[j] == Record(key, Some(value));
      assert log[j] == before[j];
    }
  }

  /** A topic can be read to its end if and only if each record is acceptable after those before it: one
      envelope per sequence, snapshots that restore, epochs that never fall, checkpoints that match the
      newest snapshot. The reader then holds the newest of everything and every transition. */
  lemma {:induction false} ReadableIff(log: seq<Record>)
    ensures Consume(log).Some? <==> AllAcceptable(log)
    ensures Consume(log).Some? ==> Shows(log, Consume(log).value)
    decreases |log|
  {
    hide ApplyRecord, Acceptable, Shows;
    if log == [] {
      BlankShowsNothing();
    } else {
      var n := |log| - 1;
      var before := log[..n];
      ReadableIff(before);
      assert log == before + [log[n]];
      assert AllAcceptable(log) <==> AllAcceptable(before) && Acceptable(before, log[n]) by {
        AcceptableNext(before, log[n]);
      }
      if Consume(before).Some? {
        AcceptedIff(before, Consume(before).value, log[n]);
        if Consume(log).Some? { ShownNext(before, Consume(before).value, log[n], Consume(log).value); }
      }
    }
  }

  lemma BlankShowsNothing()
    ensures Shows([], BLANK)
  {
  }

  lemma AcceptableNext(before: seq<Record>, r: Record)
    ensures AllAcceptable(before + [r]) <==> AllAcceptable(before) && Acceptable(before, r)
  {
    hide Acceptable;
    var log := before + [r];
    assert log[..|before|] == before && log[|before|] == r;
    forall i | 0 <= i < |before| ensures log[..i] == before[..i] && log[i] == before[i] { }
    if AllAcceptable(log) {
      forall i | 0 <= i < |before| ensures Acceptable(before[..i], before[i]) { assert Acceptable(log[..i], log[i]); }
      assert Acceptable(log[..|before|], log[|before|]);
    }
  }

  /** A replica that has read a topic finds no gap exactly when it could replay all of it from its base. */
  lemma ContiguousIffReplayable(log: seq<Record>, v: View)
    requires Consume(log) == Some(v)
    ensures Contiguous(v) <==> ItemsAfter(v, v.base).Ok?
  {
    hide Acceptable, Consume, Last, NewestSnapshot, NewestPrimary, NewestBase;
    ReadableIff(log);
    forall k: Uint64 | k in v.items ensures v.items[k].Valid() {
      assert Appears(log, TransitionKey(k), EnvelopeValue(v.items[k]));
      var j :| 0 <= j < |log| && log[j] == Record(TransitionKey(k), Some(EnvelopeValue(v.items[k])));
      TransitionIsValid(log[..j], log[j]) by { assert Acceptable(log[..j], log[j]); }
    }
    if k: Uint64 :| v.base < k <= Last(v) && k !in v.items {
      assert !Readable(v, v.base);
    }
  }

  lemma TransitionIsValid(before: seq<Record>, r: Record)
    requires Acceptable(before, r) && r.key.TransitionKey?
    ensures r.value.Some? && r.value.value.EnvelopeValue? && r.value.value.envelope.Valid()
  {
  }

  // ---- the sequence check ----

  /** For a reader of a sound topic: a valid envelope is a retry exactly when the topic holds it, new
      exactly when it is numbered next, and rejected otherwise. */
  lemma SequenceCheckIff(u: Setup, log: seq<Record>, v: View, e: Envelope)
    requires SetupOk(u) && LogGood(u, log) && Consume(log) == Some(v)
    ensures CheckSequence(v, e).Retry? <==> e in Envs(u, log)
    ensures CheckSequence(v, e).Fresh? <==> e.Seq() == u.base.sequence + |Envs(u, log)| + 1
    ensures e in Envs(u, log) ==> Filed(u, Envs(u, log), e)
  {
    hide LogGood, Consume, Envs, Ledger, Inv, Apply, Last, Fold, IsStateOf, SetupOk;
    var envs := Envs(u, log);
    ConsumedMatches(u, log, v);
    MatchesLast(u, log, v);
    LogIsLedger(u, log);
    LedgerFolds(u, envs);
    NumberedPosition(u.base, envs, e);
  }
}
