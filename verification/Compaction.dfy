/** The state topic is compacted: the broker may drop any record that a later record with the same
    key supersedes. When does a compacted topic still replay to the same view?
    (internal/storage/kafka/store.go, internal/storage/kafka/topic.go) */
module Compaction {
  import opened Domain
  import opened State
  import opened Kafka
  import opened KafkaReading

  /** The records that survive. */
  ghost function Kept(log: seq<Record>, keep: seq<bool>): (r: seq<Record>)
    requires |log| == |keep|
  {
    if log == [] then []
    else
      var n := |log| - 1;
      Kept(log[..n], keep[..n]) + if keep[n] then [log[n]] else []
  }

  /** Only superseded records are dropped. */
  ghost predicate IsCompaction(log: seq<Record>, keep: seq<bool>) {
    |log| == |keep| && forall i :: 0 <= i < |log| && !keep[i] ==> Later(log, i + 1, log[i].key)
  }

  ghost predicate Later(log: seq<Record>, from: int, key: Key) {
    exists j :: from <= j < |log| && 0 <= j && log[j].key == key
  }

  /** The code never writes a record without a value. */
  ghost predicate TombstoneFree(log: seq<Record>) {
    forall i :: 0 <= i < |log| ==> log[i].value.Some?
  }

  /** Every surviving restore checkpoint still follows the snapshot it was written with. */
  ghost predicate Anchored(log: seq<Record>, keep: seq<bool>, upTo: nat)
    requires |log| == |keep| && upTo <= |log|
  {
    forall j :: 0 <= j < upTo && keep[j] && log[j].key.RestoreKey? ==>
      NewestSnapshot(Kept(log[..j], keep[..j])) == NewestSnapshot(log[..j])
  }

  /** `v` comes from the first `n` records, `w` from those of them that survive. */
  ghost predicate Related(log: seq<Record>, n: nat, v: View, w: View) {
    && (forall k :: k in w.items ==> k in v.items && v.items[k] == w.items[k])
    && (forall k :: k in v.items && k !in w.items ==> Later(log, n, TransitionKey(k)))
    && (w.snapshot == v.snapshot || Later(log, n, SnapshotKey))
    && w.primary.epoch <= v.primary.epoch && (w.primary == v.primary || Later(log, n, PrimaryKey))
    && (w.base == v.base || Later(log, n, RestoreKey))
  }

  lemma ViewHoldsNewest(log: seq<Record>, v: View)
    requires Consume(log) == Some(v)
    ensures v.snapshot == NewestSnapshot(log)
  {
    ReadableIff(log);
  }

  lemma LaterStep(log: seq<Record>, n: nat, key: Key)
    requires n < |log|
    ensures Later(log, n, key) ==> log[n].key == key || Later(log, n + 1, key)
  {
  }

  lemma OthersStep(log: seq<Record>, n: nat, key: Key)
    requires n < |log| && log[n].key != key && Later(log, n, key)
    ensures Later(log, n + 1, key)
  {
    LaterStep(log, n, key);
  }

  /** A record that is read in both replays keeps the views related. */
  lemma KeptStep(log: seq<Record>, n: nat, v: View, w: View, v': View, w': View)
    requires n < |log| && log[n].value.Some? && Related(log, n, v, w)
    requires ApplyRecord(v, log[n]) == Some(v') && ApplyRecord(w, log[n]) == Some(w')
    ensures Related(log, n + 1, v', w')
  {
    hide Restore, Later;
    forall key | Later(log, n, key) && key != log[n].key ensures Later(log, n + 1, key) { OthersStep(log, n, key); }
  }

  /** A record that was dropped is superseded later. */
  lemma DroppedStep(log: seq<Record>, n: nat, v: View, w: View, v': View)
    requires n < |log| && log[n].value.Some? && Related(log, n, v, w) && ApplyRecord(v, log[n]) == Some(v')
    requires Later(log, n + 1, log[n].key)
    ensures Related(log, n + 1, v', w)
  {
    hide Restore, Later;
    forall key | Later(log, n, key) && key != log[n].key ensures Later(log, n + 1, key) { OthersStep(log, n, key); }
  }

  /** A surviving record is accepted, except a checkpoint whose snapshot is gone. */
  lemma SurvivorAccepted(log: seq<Record>, n: nat, v: View, w: View)
    requires n < |log| && log[n].value.Some? && Related(log, n, v, w) && ApplyRecord(v, log[n]).Some?
    ensures ApplyRecord(w, log[n]).Some? <==> (log[n].key.RestoreKey? ==> w.snapshot == v.snapshot)
  {
    hide Restore, Later;
  }

  lemma {:induction false} ReplayPrefix(log: seq<Record>, keep: seq<bool>, n: nat)
    requires TombstoneFree(log) && Consume(log).Some? && IsCompaction(log, keep) && n <= |log|
    ensures Consume(log[..n]).Some?
    ensures Consume(Kept(log[..n], keep[..n])).Some? <==> Anchored(log, keep, n)
    ensures Consume(Kept(log[..n], keep[..n])).Some? ==>
              Related(log, n, Consume(log[..n]).value, Consume(Kept(log[..n], keep[..n])).value)
  {
    hide ApplyRecord, Related, Later, NewestSnapshot;
    ConsumePrefix(log, n);
    if n == 0 {
      RelatedAtStart(log);
    } else {
      var m := n - 1;
      ReplayPrefix(log, keep, m);
      assert log[..n][..m] == log[..m] && keep[..n][..m] == keep[..m];
      var before := Kept(log[..m], keep[..m]);
      var v := Consume(log[..m]).value;
      if keep[m] { assert (before + [log[m]])[..|before|] == before; } else { assert before + [] == before; }
      if Consume(before).Some? {
        var w := Consume(before).value;
        KeptIsTombstoneFree(log, keep, m);
        ViewHoldsNewest(log[..m], v);
        ViewHoldsNewest(before, w);
        if keep[m] {
          SurvivorAccepted(log, m, v, w);
          if ApplyRecord(w, log[m]).Some? {
            KeptStep(log, m, v, w, ApplyRecord(v, log[m]).value, ApplyRecord(w, log[m]).value);
          }
        } else {
          DroppedStep(log, m, v, w, ApplyRecord(v, log[m]).value);
        }
      }
    }
  }

  lemma RelatedAtStart(log: seq<Record>)
    ensures Related(log, 0, BLANK, BLANK)
  {
  }

  lemma {:induction false} ConsumePrefix(log: seq<Record>, n: nat)
    requires Consume(log).Some? && n <= |log|
    ensures Consume(log[..n]).Some?
    decreases |log|
  {
    hide ApplyRecord;
    if n == |log| { assert log[..n] == log; }
    else {
      assert log[..|log| - 1][..n] == log[..n];
      ConsumePrefix(log[..|log| - 1], n);
    }
  }

  lemma {:induction false} KeptIsTombstoneFree(log: seq<Record>, keep: seq<bool>, n: nat)
    requires TombstoneFree(log) && |log| == |keep| && n <= |log|
    ensures TombstoneFree(Kept(log[..n], keep[..n])) && TombstoneFree(log[..n])
  {
    if n > 0 {
      assert log[..n][..n - 1] == log[..n - 1] && keep[..n][..n - 1] == keep[..n - 1];
      KeptIsTombstoneFree(log, keep, n - 1);
    }
  }

  /** A compacted topic replays exactly when each surviving checkpoint kept its snapshot, and then it
      replays to the same items, snapshot, primary and base. */
  lemma CompactedReplay(log: seq<Record>, keep: seq<bool>)
    requires TombstoneFree(log) && Consume(log).Some? && IsCompaction(log, keep)
    ensures Consume(Kept(log, keep)).Some? <==> Anchored(log, keep, |log|)
    ensures Consume(Kept(log, keep)).Some? ==> Consume(Kept(log, keep)) == Consume(log)
  {
    hide Anchored, Consume, Kept;
    assert log[..|log|] == log && keep[..|keep|] == keep;
    ReplayPrefix(log, keep, |log|);
    if Consume(Kept(log, keep)).Some? {
      var v, w := Consume(log).value, Consume(Kept(log, keep)).value;
      forall k | k in v.items ensures k in w.items { }
      assert v.items == w.items;
    }
  }

  /** Without checkpoints any compaction is harmless. */
  lemma CheckpointFreeCompaction(log: seq<Record>, keep: seq<bool>)
    requires TombstoneFree(log) && Consume(log).Some? && IsCompaction(log, keep)
    requires forall i :: 0 <= i < |log| ==> !log[i].key.RestoreKey?
    ensures Consume(Kept(log, keep)) == Consume(log)
  {
    CompactedReplay(log, keep);
  }
}
