/** Compaction of a topic that was restored from a backup: once a snapshot has been saved in it, the
    broker may drop the restored one, and the checkpoint that follows it is then refused
    (internal/storage/kafka/store.go). */
module RestoredTopic {
  import opened Domain
  import opened State
  import opened RegistryInvariant
  import opened Durable
  import opened Kafka
  import opened KafkaReading
  import opened ReplicatedLog
  import opened Compaction

  /** A snapshot was saved after the restore. */
  ghost predicate SnapshotSaved(u: Setup, log: seq<Record>) {
    exists i :: |Genesis(u)| <= i < |log| && log[i].key.SnapshotKey?
  }

  /** The broker may compact the topic into one that no reader opens. */
  ghost predicate CompactionCanBreak(log: seq<Record>) {
    exists keep: seq<bool> :: IsCompaction(log, keep) && Consume(Kept(log, keep)).None?
  }

  lemma RestoredStart(u: Setup, log: seq<Record>)
    requires LogGood(u, log) && u.base.sequence > 0
    ensures |log| >= 2 && TombstoneFree(log)
    ensures log[0] == Record(SnapshotKey, Some(SnapshotValue(u.base))) && log[1].key.RestoreKey?
    ensures forall i :: 2 <= i < |log| ==> !log[i].key.RestoreKey?
  {
    hide Fold, Planned, Filed, IsStateOf, Envs;
    assert |Genesis(u)| == 2 && log[..2] == Genesis(u);
    assert log[0] == log[..2][0] && log[1] == log[..2][1];
    forall i | 2 <= i < |log| ensures log[i].value.Some? && !log[i].key.RestoreKey? {
      assert RecordGood(u, log[..i], log[i]);
    }
  }

  /** What comes before the checkpoint is the restored snapshot, if it is kept. */
  lemma BeforeCheckpoint(log: seq<Record>, keep: seq<bool>)
    requires |log| == |keep| && |log| >= 2 && log[0].key.SnapshotKey?
    requires log[0].value.Some? && log[0].value.value.SnapshotValue?
    ensures NewestSnapshot(log[..1]) == Some(log[0].value.value.snapshot)
    ensures NewestSnapshot(Kept(log[..1], keep[..1])) == if keep[0] then Some(log[0].value.value.snapshot) else None
  {
    var first, kept := log[..1], keep[..1];
    assert first == [log[0]] && kept == [keep[0]] && first[..0] == [] && kept[..0] == [];
    assert Kept(first, kept) == (if keep[0] then [log[0]] else []);
  }

  /** A restored topic can be broken by compaction if and only if a snapshot was saved after the
      restore. */
  lemma CompactionCanBreakIff(u: Setup, log: seq<Record>)
    requires SetupOk(u) && u.base.sequence > 0 && LogGood(u, log) && Consume(log).Some?
    ensures CompactionCanBreak(log) <==> SnapshotSaved(u, log)
  {
    hide Consume, Kept, NewestSnapshot, LogGood, SetupOk;
    RestoredStart(u, log);
    if SnapshotSaved(u, log) {
      var i :| |Genesis(u)| <= i < |log| && log[i].key.SnapshotKey?;
      var keep := seq(|log|, k => k != 0);
      assert Later(log, 1, log[0].key);
      assert IsCompaction(log, keep);
      BeforeCheckpoint(log, keep);
      assert !Anchored(log, keep, |log|);
      CompactedReplay(log, keep);
    } else {
      forall keep: seq<bool> | IsCompaction(log, keep) ensures Consume(Kept(log, keep)).Some? {
        assert keep[0] by { RestoredSnapshotStays(u, log, keep); }
        BeforeCheckpoint(log, keep);
        assert Anchored(log, keep, |log|);
        CompactedReplay(log, keep);
      }
    }
  }

  lemma RestoredSnapshotStays(u: Setup, log: seq<Record>, keep: seq<bool>)
    requires u.base.sequence > 0 && |log| >= 2 && log[0].key.SnapshotKey? && log[1].key.RestoreKey?
    requires IsCompaction(log, keep) && !SnapshotSaved(u, log)
    ensures keep[0]
  {
  }

  /** Saving the restored state itself, which the store accepts at once, is enough. */
  lemma SavingOnceIsEnough(u: Setup)
    requires SetupOk(u) && u.base.sequence > 0
    ensures var log := Genesis(u) + [Record(SnapshotKey, Some(SnapshotValue(u.base)))];
      LogGood(u, log) && Consume(log).Some? && CompactionCanBreak(log)
  {
    hide SetupOk, Inv, Validate;
    var s := Record(SnapshotKey, Some(SnapshotValue(u.base)));
    var g := Genesis(u);
    assert u.base.formatVersion == 1 && Validate(u.base) by { BaseIsRestorable(u); }
    assert Restore(u.base) == Ok(u.base);
    GenesisEnvs(u);
    assert Envs(u, g)[..0] == [] && IsStateOf(u.base, Envs(u, g), u.base);
    assert RecordGood(u, g, s);
    LogGoodAppend(u, g, s);
    GenesisReplays(u);
    assert (g + [s])[..2] == g && (g + [s])[2] == s;
    assert SnapshotSaved(u, g + [s]);
    CompactionCanBreakIff(u, g + [s]);
  }

  lemma BaseIsRestorable(u: Setup)
    requires SetupOk(u)
    ensures u.base.formatVersion == 1 && Validate(u.base)
  {
  }

  lemma GenesisReplays(u: Setup)
    requires u.base.sequence > 0 && Restore(u.base) == Ok(u.base)
    ensures Consume(Genesis(u)).Some? && LogGood(u, Genesis(u))
  {
    hide Restore;
    var g := Genesis(u);
    assert g[..1] == [g[0]] && g[..1][..0] == [];
    assert Consume(g[..1]) == ApplyRecord(BLANK, g[0]);
    assert Consume(g) == ApplyRecord(Consume(g[..1]).value, g[1]);
  }
}
