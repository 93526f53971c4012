/** Recovery from the last saved snapshot and the items after it is full replay of the topic
    (internal/app/app.go, internal/storage/kafka/store.go). */
module KafkaRecovery {
  import opened Domain
  import opened State
  import opened RegistryInvariant
  import opened Durable
  import opened Kafka
  import opened ReplicatedLog

  lemma ItemsAreReadable(u: Setup, log: seq<Record>, v: View, start: Uint64)
    requires SetupOk(u) && LogGood(u, log) && Matches(u, log, v) && u.base.sequence <= start
    ensures Readable(v, start) && Last(v) == u.base.sequence + |Envs(u, log)|
  {
    hide Inv, Ledger, LogGood, IsStateOf, Envs, Apply, Last;
    LogIsLedger(u, log);
    LedgerFolds(u, Envs(u, log));
    FoldPrefix(u.base, Envs(u, log), 0);
    MatchesLast(u, log, v);
  }

  lemma TailOfItems(u: Setup, log: seq<Record>, v: View, start: Uint64)
    requires SetupOk(u) && LogGood(u, log) && Matches(u, log, v)
    requires u.base.sequence <= start <= u.base.sequence + |Envs(u, log)|
    ensures ItemsAfter(v, start) == Ok(Envs(u, log)[start - u.base.sequence..])
  {
    hide SetupOk, LogGood, IsStateOf, Envs, Inv, Last, Slice, Readable;
    ItemsAreReadable(u, log, v, start);
    var envs := Envs(u, log);
    var tail, items := envs[start - u.base.sequence..], ItemsAfter(v, start).value;
    forall i | 0 <= i < |tail| ensures tail[i] == items[i] {
      var k: Uint64 := start + 1 + i;
      assert items[k - start - 1] == v.items[k] == envs[k - u.base.sequence - 1];
    }
    assert tail == items;
  }

  /** Whatever snapshots were saved on the way, a replica that has read a sound log recovers the
      fold of the whole log. */
  lemma RecoveryIsFullReplay(u: Setup, log: seq<Record>, v: View)
    requires SetupOk(u) && LogGood(u, log) && Consume(log) == Some(v)
    ensures Fold(u.base, Envs(u, log)).Ok? && Recover(v) == Ok(StateOf(u, Envs(u, log)))
    ensures Inv(StateOf(u, Envs(u, log)), u.refsOf)
    ensures StateOf(u, Envs(u, log)).sequence == Last(v)
  {
    hide Ledger, LogGood, Matches, Consume, Envs, ItemsAfter, Validate;
    var envs := Envs(u, log);
    ConsumedMatches(u, log, v);
    LogIsLedger(u, log);
    LedgerFolds(u, envs);
    MatchesLast(u, log, v);
    var start := StartOf(u, log, v);
    TailOfItems(u, log, v, start.sequence);
    FoldFromAny(u.base, envs, start.sequence - u.base.sequence);
  }

  /** Recovery starts from a state the log went through. */
  lemma StartOf(u: Setup, log: seq<Record>, v: View) returns (start: Snapshot)
    requires SetupOk(u) && LogGood(u, log) && Matches(u, log, v)
    ensures IsStateOf(u.base, Envs(u, log), start)
    ensures start == if v.snapshot.Some? then v.snapshot.value else EMPTY
    ensures v.snapshot.Some? ==> Restore(v.snapshot.value) == Ok(start)
  {
    hide LogGood, Envs;
    start := if v.snapshot.Some? then v.snapshot.value else EMPTY;
    if v.snapshot.None? { assert Envs(u, log)[..0] == []; }
  }
}
