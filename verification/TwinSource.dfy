/** The smallest source with twins: a version that was soft-deleted, and the same schema registered
    again in the subject. It is sensible in every other way, and every item is importable. */
module TwinSource {
  import opened Domain
  import opened State
  import opened ImportModel
  import opened ImportLoop

  const FIRST := Item("s", 1, 1, Avro, "d", [], 0, true)
  const SECOND := Item("s", 2, 1, Avro, "d", [], 0, false)
  const SCHEMA := Parsed("x", Avro, "d", [])
  const TWINS: Source := Source([FIRST, SECOND], Backward, map[], ReadWrite, map[])
  const BOOK := Book([FIRST, SECOND], it => SCHEMA, x => [])

  function Parse(s: Snapshot, it: Item): Option<Parsed> { Some(SCHEMA) }

  /** So `BuildState` does not rebuild it, although nothing but the repeated schema is in the way. */
  lemma TwinsAreSensible()
    ensures SensibleSource(TWINS, BOOK, Parse) && Importable(BOOK, All(TWINS.items)) && !NoTwins(TWINS.items)
  {
    hide Mirrors;
    assert Twins(TWINS.items[0], TWINS.items[1]);
    forall i | 0 <= i < |BOOK.items| ensures WellFormedItem(BOOK, BOOK.items[i]) { }
    forall c: set<Item> | Closed(BOOK, c) ensures All(TWINS.items) <= c {
      assert FIRST in BOOK.items by { assert BOOK.items[0] == FIRST; }
      assert SECOND in BOOK.items by { assert BOOK.items[1] == SECOND; }
      assert Ready(c, FIRST) && Ready(c, SECOND);
    }
  }
}
