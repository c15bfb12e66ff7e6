/** Concrete tables: navigation across a gap in the keys, at both ends of the
    table, and among rows that share an ordering value. */
module Scenarios {

  import opened Options
  import opened AdjacentRecord

  /** Rows with ids 1, 2, 3 and 5, ordered by id (there is no row 4). */
  const GapTable := [Record(1, 1), Record(2, 2), Record(3, 3), Record(5, 5)]

  /** From id 5 the previous row is id 3: the gap is skipped. */
  lemma PreviousSkipsGap()
    ensures GetPreviousRecord(GapTable, Record(5, 5), DefaultConfig) == Some(Record(3, 3))
  {
  }

  /** From id 1 the next row is id 2. */
  lemma NextFromFirst()
    ensures GetNextRecord(GapTable, Record(1, 1), DefaultConfig) == Some(Record(2, 2))
  {
  }

  /** Id 1 has no previous row and id 5 has no next row. */
  lemma EndsOfGapTable(config: Config)
    ensures GetPreviousRecord(GapTable, Record(1, 1), config) == None
    ensures GetNextRecord(GapTable, Record(5, 5), config) == None
  {
  }

  /** With `previous_direction` set to ascending, id 5 moves back to id 1. */
  lemma OverriddenPreviousJumpsToStart()
    ensures GetPreviousRecord(GapTable, Record(5, 5), Config(map["previous_direction" := Asc]))
            == Some(Record(1, 1))
  {
    var config := Config(map["previous_direction" := Asc]);
    assert DirectionKey(PreviousDirection) == "previous_direction";
    OverriddenPreviousIsFarthest(GapTable, Record(5, 5), config);
    assert Record(1, 1) in GapTable;
  }

  /** Ids 10 and 11 share the value 7, id 12 holds 8. */
  const TieTable := [Record(10, 7), Record(11, 7), Record(12, 8)]

  /** From id 12 the previous row is one of the two tied rows, and any answer
      the database may give instead has the same ordering value. */
  lemma PreviousAmongTies(answer: Option<Record>)
    requires QueryAnswer(TieTable, Less, 8, Desc, answer)
    ensures var r := GetPreviousRecord(TieTable, Record(12, 8), DefaultConfig);
      r == Some(Record(10, 7)) || r == Some(Record(11, 7))
    ensures answer.Some? && answer.value.order == 7
  {
  }
}
