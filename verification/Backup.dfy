/** Portable backups: capture, decode and restore across the two stores (internal/backup/logical.go). */
module Backup {
  import opened Domain
  import opened State
  import opened Durable
  import opened Layout
  import opened RegistryInvariant
  import Kafka
  import Bolt
  import BoltRuns
  import ReplicatedLog
  import KafkaRecovery

  datatype Checksum = ChecksumOf(snapshot: Snapshot)

  /** `createdAt` zero is Go's zero time. */
  datatype BackupFile = BackupFile(
    formatVersion: int, createdAt: int, source: string, snapshot: Snapshot, checksum: Checksum)

  function Export(state: Snapshot, source: string, now: int): BackupFile {
    BackupFile(1, now, if source == "" then "riquet" else source, state, ChecksumOf(state))
  }

  /** A capture exports what recovery from the source store computes. */
  function Capture(recovered: Outcome<Snapshot>, source: string, now: int): (r: Outcome<BackupFile>)
  {
    match recovered
    case Err(category) => Err(category)
    case Ok(state) => Ok(Export(state, source, now))
  }

  function Decode(file: BackupFile): (r: Outcome<BackupFile>)
    ensures r.Ok? ==> r.value == file
  {
    if file.formatVersion != 1 || file.createdAt == 0 || file.source == "" then Err(Invalid)
    else if Restore(file.snapshot).Err? then Err(Corrupt)
    else if file.checksum != ChecksumOf(file.snapshot) then Err(Corrupt)
    else Ok(file)
  }

  predicate Intact(file: BackupFile) {
    file.formatVersion == 1 && file.checksum == ChecksumOf(file.snapshot)
  }

  function RestoreToBolt(d: Bolt.Disk, file: BackupFile): (r: (Bolt.Disk, bool))
  {
    if Intact(file) then Bolt.RestoreTo(d, file.snapshot) else (d, false)
  }

  function RestoreRecords(s: Snapshot): seq<Kafka.Record> {
    [Kafka.Record(Kafka.SnapshotKey, Some(Kafka.SnapshotValue(s))),
     Kafka.Record(Kafka.RestoreKey,
                  Some(Kafka.CheckpointValue(Kafka.Checkpoint(Kafka.FORMAT, s.sequence, Kafka.Sha256Of(Some(s))))))]
  }

  ghost predicate EmptyTopic(v: Kafka.View) {
    Kafka.Last(v) == 0 && v.snapshot.None?
  }

  /** The topic after a restore by a replica whose view is `v`; one transaction adds both records. */
  ghost function RestoreToKafka(log: seq<Kafka.Record>, v: Kafka.View, file: BackupFile): (r: (seq<Kafka.Record>, bool))
  {
    if !Intact(file) || Restore(file.snapshot).Err? || !EmptyTopic(v) then (log, false)
    else (log + RestoreRecords(file.snapshot), true)
  }

  // ---- capture ----

  /** Every capture decodes, whatever the source store held, unless it is stamped with the zero
      time; and a decoded file with any other snapshot put in is refused. */
  lemma CaptureDecodes(
    snapshot: Option<Snapshot>, tail: Outcome<seq<Envelope>>, source: string, now: int, other: Snapshot)
    requires Recovered(snapshot, tail).Ok?
    ensures var state := Recovered(snapshot, tail).value;
            var file := Export(state, source, now);
            && Restore(state).Ok?
            && (Decode(file).Ok? <==> now != 0)
            && Intact(file)
            && (other != state ==> Decode(file.(snapshot := other)).Err? && !Intact(file.(snapshot := other)))
  {
    FoldIsRestorable(if snapshot.Some? then snapshot.value else EMPTY, tail.value);
  }

  /** A file decodes exactly when its format is known, it is stamped and named, its snapshot can be
      restored and its checksum is that of the snapshot; so any file with the checksum of a captured
      one holds the captured state. */
  lemma DecodedIsCaptured(file: BackupFile, other: BackupFile)
    requires Decode(file).Ok? && Decode(other).Ok? && file.checksum == other.checksum
    ensures file.snapshot == other.snapshot && Restore(file.snapshot).Ok? && Intact(file)
    ensures file.formatVersion == 1 && file.createdAt != 0 && file.source != ""
  {
  }

  // ---- restoring ----

  /** Restored into an unused bbolt store: recovery gives the captured state, and the store accepts
      exactly the transition after it. */
  lemma BoltRoundTrip(file: BackupFile, e: Envelope)
    requires Decode(file).Ok?
    ensures var (disk, ok) := RestoreToBolt(Bolt.FRESH_DISK, file);
      && ok && Bolt.Recover(disk) == Ok(file.snapshot)
      && (Bolt.CommitTo(disk, e).1 <==> e.Valid() && e.Seq() == file.snapshot.sequence + 1)
      && !RestoreToBolt(disk, file).1
  {
    hide Bolt.Recover, Bolt.CommitTo, Bolt.Listing;
    var s := file.snapshot;
    BoltRuns.RestoredIsSound(s);
    var disk := RestoreToBolt(Bolt.FRESH_DISK, file).0;
    BoltRuns.CommitAccepts(s, [], disk, e);
  }

  lemma KafkaViewAfter(log: seq<Kafka.Record>, v: Kafka.View, s: Snapshot)
    requires Kafka.Consume(log) == Some(v) && Restore(s).Ok?
    ensures Kafka.Consume(log + RestoreRecords(s)) ==
      if s.sequence == 0 then None else Some(v.(snapshot := Some(s), base := s.sequence))
  {
    hide Restore;
    var records := RestoreRecords(s);
    var all := log + records;
    var first := all[..|log| + 1];
    assert all[..|all| - 1] == first && first[..|log|] == log && first[|log|] == records[0];
    assert all[|all| - 1] == records[1];
    assert Kafka.ApplyRecord(v, records[0]) == Some(v.(snapshot := Some(s)));
  }

  /** Restored into a topic without transitions and snapshot: if the captured state has a transition,
      every reader of the topic recovers it and the next number is the one after it; the backup of
      an unused registry leaves a checkpoint that stops every reader. */
  lemma KafkaRoundTrip(log: seq<Kafka.Record>, v: Kafka.View, file: BackupFile, e: Envelope)
    requires Decode(file).Ok? && Kafka.Consume(log) == Some(v) && EmptyTopic(v)
    ensures var (topic, ok) := RestoreToKafka(log, v, file);
      && ok && (Kafka.Consume(topic).Some? <==> file.snapshot.sequence > 0)
      && (Kafka.Consume(topic).Some? ==>
            var w := Kafka.Consume(topic).value;
            && Kafka.Recover(w) == Ok(file.snapshot)
            && Kafka.Last(w) == file.snapshot.sequence && !EmptyTopic(w)
            && (Kafka.CheckSequence(w, e).Fresh? <==> e.Seq() == file.snapshot.sequence + 1)
            && RestoreToKafka(topic, w, file) == (topic, false)
            && !Kafka.CheckSequence(w, e).Retry?)
  {
    hide Restore, Kafka.Consume, RestoreRecords;
    var s := file.snapshot;
    KafkaViewAfter(log, v, s);
    if s.sequence > 0 {
      var w := v.(snapshot := Some(s), base := s.sequence);
      forall k: Uint64 | k in v.items ensures false { assert k <= 0; OnlyPositive(log, v, k); }
      Kafka.LastIsUnique(w, s.sequence);
      assert Kafka.ItemsAfter(w, s.sequence) == Ok([]);
    }
  }

  /** No accepted record numbers a transition zero. */
  lemma {:induction false} OnlyPositive(log: seq<Kafka.Record>, v: Kafka.View, k: Uint64)
    requires Kafka.Consume(log) == Some(v) && k in v.items
    ensures k > 0
    decreases |log|
  {
    hide Restore;
    var n := |log| - 1;
    var u := Kafka.Consume(log[..n]).value;
    if k in u.items { OnlyPositive(log[..n], u, k); }
  }

  /** Nothing is restored over a store that is in use, and no damaged file is restored anywhere. No
      topic numbers a transition zero. */
  lemma UsedTargetsAreRefused(
    base: Snapshot, n: BoltRuns.Node, log: seq<Kafka.Record>, v: Kafka.View, file: BackupFile)
    requires BoltRuns.Sound(base, n) && 0 !in v.items
    ensures BoltRuns.Log(n) != [] || n.disk.snapshot.Some? || !Intact(file) || Restore(file.snapshot).Err? ==>
      RestoreToBolt(n.disk, file) == (n.disk, false)
    ensures v.items != map[] || v.snapshot.Some? || v.base != 0 || !Intact(file) || Restore(file.snapshot).Err? ==>
      RestoreToKafka(log, v, file) == (log, false)
  {
    hide Restore, BoltRuns.Stored, Bolt.Listing, IsStateOf;
    assert BoltRuns.Log(n) != [] ==> n.disk.transitions != map[] by { assert |Bolt.Listing(map[])| == 0; }
    if v.items != map[] {
      var k :| k in v.items;
      assert k <= Kafka.Last(v);
    }
  }

  // ---- the whole way ----

  /** Capture from a bbolt store after any run: the file holds the fold of everything it stored. It
      fails only where recovery does, at a snapshot of the last 64-bit sequence. */
  lemma BoltCapture(base: Snapshot, n: BoltRuns.Node, source: string, now: int)
    requires BoltRuns.Sound(base, n)
    ensures Fold(base, BoltRuns.Log(n)).Ok?
    ensures var file := Capture(Bolt.Recover(n.disk), source, now);
            var state := Fold(base, BoltRuns.Log(n)).value;
      && (file.Ok? <==> BoltRuns.Start(n.disk).sequence < MAX_UINT64 || n.disk.transitions == map[])
      && (file.Ok? ==> file.value == Export(state, source, now) && (Decode(file.value).Ok? <==> now != 0))
  {
    hide Decode;
    var d := n.disk;
    BoltRuns.RecoveryIsFullReplay(base, BoltRuns.Log(n), d);
    if Bolt.Recover(d).Ok? {
      CaptureDecodes(d.snapshot, Bolt.ReplayAfter(d, if d.snapshot.Some? then d.snapshot.value.sequence else 0),
                     source, now, EMPTY);
    }
  }

  /** Capture from a replica that has read a sound topic: the file holds the fold of its envelopes. */
  lemma KafkaCapture(u: ReplicatedLog.Setup, log: seq<Kafka.Record>, v: Kafka.View, source: string, now: int)
    requires ReplicatedLog.SetupOk(u) && ReplicatedLog.LogGood(u, log) && Kafka.Consume(log) == Some(v)
    ensures Fold(u.base, ReplicatedLog.Envs(u, log)).Ok?
    ensures var state := Fold(u.base, ReplicatedLog.Envs(u, log)).value;
      && Capture(Kafka.Recover(v), source, now) == Ok(Export(state, source, now))
      && (now != 0 ==> Decode(Export(state, source, now)).Ok?)
      && state.sequence == Kafka.Last(v)
  {
    hide ReplicatedLog.SetupOk, ReplicatedLog.LogGood, Kafka.Consume, ReplicatedLog.Envs, Decode;
    KafkaRecovery.RecoveryIsFullReplay(u, log, v);
    CaptureDecodes(v.snapshot, Kafka.ItemsAfter(v, if v.snapshot.Some? then v.snapshot.value.sequence else 0),
                   source, now, EMPTY);
  }

  /** A topic restored from a sound state is the start of a sound log, so every result about
      replicated runs holds of it. */
  lemma RestoredTopicIsSound(u: ReplicatedLog.Setup)
    requires ReplicatedLog.SetupOk(u) && u.base.sequence > 0
    ensures ReplicatedLog.LogGood(u, RestoreRecords(u.base)) && ReplicatedLog.Envs(u, RestoreRecords(u.base)) == []
  {
    assert RestoreRecords(u.base) == ReplicatedLog.Genesis(u);
    ReplicatedLog.GenesisEnvs(u);
  }
}
