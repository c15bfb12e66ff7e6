/** The adjacent-record resolver of the `WithRecordNavigation` trait.

    The record table is a finite sequence of rows in storage order. Each row has a
    primary key and the value it holds in the configured order column. The query
    `WHERE col <op> current ORDER BY col <dir> LIMIT 1` becomes a filter (`Where`)
    followed by "the first row in sort order" (`FirstInOrder`). */
module AdjacentRecord {

  import opened Options

  /** A persisted row: its primary key and its value in the order column. */
  datatype Record = Record(key: int, order: int)

  datatype SortDirection = Asc | Desc

  /** The comparison placed in the WHERE clause. */
  datatype Operator = Less | Greater

  /** The package configuration, reduced to the keys the resolver reads:
      `directions` maps a key such as "previous_direction" to its value.
      A key that is absent falls back to the resolver's default. */
  datatype Config = Config(directions: map<string, SortDirection>)

  /** The configuration shipped with the package: no overrides. */
  const DefaultConfig := Config(map[])

  const PreviousDirection := "previous"
  const NextDirection := "next"

  /** The configuration key consulted for a direction. */
  function DirectionKey(direction: string): string
  {
    direction + "_direction"
  }

  /** `'previous'` compares with `<`; every other direction string with `>`. */
  function OperatorFor(direction: string): (op: Operator)
    ensures op == Less <==> direction == PreviousDirection
  {
    if direction == PreviousDirection then Less else Greater
  }

  /** The default used when the configuration has no entry for the direction:
      descending for `'previous'`, ascending for anything else. */
  function DefaultSortFor(direction: string): (dir: SortDirection)
    ensures dir == Desc <==> direction == PreviousDirection
  {
    if direction == PreviousDirection then Desc else Asc
  }

  /** The sort direction of the query: the configured value when present,
      the default otherwise. */
  function SortFor(config: Config, direction: string): (dir: SortDirection)
    ensures DirectionKey(direction) in config.directions ==>
              dir == config.directions[DirectionKey(direction)]
    ensures DirectionKey(direction) !in config.directions ==>
              (dir == Desc <==> direction == PreviousDirection)
  {
    var key := DirectionKey(direction);
    if key in config.directions then config.directions[key] else DefaultSortFor(direction)
  }

  /** The WHERE condition `value <op> pivot`. */
  predicate Satisfies(op: Operator, value: int, pivot: int)
  {
    match op
    case Less => value < pivot
    case Greater => value > pivot
  }

  /** `a` may come before `b` in `ORDER BY order <dir>`. */
  predicate SortsBefore(dir: SortDirection, a: Record, b: Record)
  {
    match dir
    case Asc => a.order <= b.order
    case Desc => a.order >= b.order
  }

  /** The rows of `store` that pass the WHERE condition, in storage order. */
  function Where(store: seq<Record>, op: Operator, pivot: int): (rows: seq<Record>)
    ensures forall x :: x in rows <==> x in store && Satisfies(op, x.order, pivot)
    ensures |rows| <= |store|
  {
    if store == [] then []
    else
      var rest := Where(store[1..], op, pivot);
      if Satisfies(op, store[0].order, pivot) then [store[0]] + rest else rest
  }

  /** `ORDER BY order <dir> LIMIT 1` over `rows`: a row that sorts before every
      other row, or `None` when there are no rows. Among rows with the same
      value the earliest in storage order is taken; the database leaves this
      choice open, so the properties below never depend on it. */
  function FirstInOrder(rows: seq<Record>, dir: SortDirection): (r: Option<Record>)
    ensures r.None? <==> rows == []
    ensures r.Some? ==> r.value in rows
    ensures r.Some? ==> forall x :: x in rows ==> SortsBefore(dir, r.value, x)
  {
    if rows == [] then None
    else
      assert forall x :: x in rows ==> x == rows[0] || x in rows[1..];
      match FirstInOrder(rows[1..], dir)
      case None => Some(rows[0])
      case Some(best) => if SortsBefore(dir, rows[0], best) then Some(rows[0]) else Some(best)
  }

  /** What the database may answer to the query, whatever row it picks among
      ties: nothing exactly when no row passes the WHERE condition, otherwise
      a row of the table that passes it and sorts before every row that does. */
  ghost predicate QueryAnswer(store: seq<Record>, op: Operator, pivot: int, dir: SortDirection,
                              r: Option<Record>)
  {
    && (r.None? <==> forall x :: x in store ==> !Satisfies(op, x.order, pivot))
    && (r.Some? ==>
          && r.value in store
          && Satisfies(op, r.value.order, pivot)
          && forall x :: x in store && Satisfies(op, x.order, pivot) ==> SortsBefore(dir, r.value, x))
  }

  /** `getAdjacentRecord($direction)`: the neighbour of `current` in `store`. */
  function GetAdjacentRecord(store: seq<Record>, current: Record, direction: string, config: Config)
    : (r: Option<Record>)
    ensures QueryAnswer(store, OperatorFor(direction), current.order, SortFor(config, direction), r)
  {
    var rows := Where(store, OperatorFor(direction), current.order);
    FirstInOrder(rows, SortFor(config, direction))
  }

  /** `getPreviousRecord()`. */
  function GetPreviousRecord(store: seq<Record>, current: Record, config: Config): (r: Option<Record>)
    ensures r.Some? ==> r.value in store && r.value.order < current.order
    ensures r.None? <==> forall x :: x in store ==> x.order >= current.order
  {
    GetAdjacentRecord(store, current, PreviousDirection, config)
  }

  /** `getNextRecord()`. */
  function GetNextRecord(store: seq<Record>, current: Record, config: Config): (r: Option<Record>)
    ensures r.Some? ==> r.value in store && r.value.order > current.order
    ensures r.None? <==> forall x :: x in store ==> x.order <= current.order
  {
    GetAdjacentRecord(store, current, NextDirection, config)
  }

  // ---------------------------------------------------------------------------
  // Properties of the resolver
  // ---------------------------------------------------------------------------

  /** Whatever the configured sort direction, a returned row lies strictly on the
      requested side of the current value; in particular it never has the current
      value, so the current row itself is never returned. */
  lemma ResultIsStrictlyOnItsSide(store: seq<Record>, current: Record, direction: string, config: Config)
    ensures var r := GetAdjacentRecord(store, current, direction, config);
      && (r.Some? && direction == PreviousDirection ==> r.value.order < current.order)
      && (r.Some? && direction != PreviousDirection ==> r.value.order > current.order)
      && (r.Some? ==> r.value.order != current.order && r.value != current)
  {
  }

  /** With the default descending order, the previous row holds the largest value
      strictly below the current one. */
  lemma PreviousIsNearestBelow(store: seq<Record>, current: Record, config: Config)
    requires SortFor(config, PreviousDirection) == Desc
    ensures var r := GetPreviousRecord(store, current, config);
      r.Some? ==> forall x :: x in store && x.order < current.order ==> x.order <= r.value.order
  {
  }

  /** With the default ascending order, the next row holds the smallest value
      strictly above the current one. */
  lemma NextIsNearestAbove(store: seq<Record>, current: Record, config: Config)
    requires SortFor(config, NextDirection) == Asc
    ensures var r := GetNextRecord(store, current, config);
      r.Some? ==> forall x :: x in store && x.order > current.order ==> r.value.order <= x.order
  {
  }

  /** With `previous_direction` overridden to ascending, the same filter yields
      the smallest value below the current one, the farthest rather than the nearest. */
  lemma OverriddenPreviousIsFarthest(store: seq<Record>, current: Record, config: Config)
    requires SortFor(config, PreviousDirection) == Asc
    ensures var r := GetPreviousRecord(store, current, config);
      r.Some? ==> forall x :: x in store && x.order < current.order ==> r.value.order <= x.order
  {
  }

  /** With `next_direction` overridden to descending, the next row holds the
      largest value above the current one. */
  lemma OverriddenNextIsFarthest(store: seq<Record>, current: Record, config: Config)
    requires SortFor(config, NextDirection) == Desc
    ensures var r := GetNextRecord(store, current, config);
      r.Some? ==> forall x :: x in store && x.order > current.order ==> x.order <= r.value.order
  {
  }

  /** A row holding the smallest value of the table has no previous row, and one
      holding the largest has no next row, whatever the configuration. */
  lemma ExtremesHaveNoNeighbour(store: seq<Record>, current: Record, config: Config)
    ensures (forall x :: x in store ==> current.order <= x.order) ==>
              GetPreviousRecord(store, current, config) == None
    ensures (forall x :: x in store ==> x.order <= current.order) ==>
              GetNextRecord(store, current, config) == None
  {
  }

  /** Any two answers the database may give to the same query agree on the
      ordering value, so resolving twice on an unchanged table moves to the same
      place even when ties are broken differently. */
  lemma QueryAnswersAgree(store: seq<Record>, op: Operator, pivot: int, dir: SortDirection,
                                             r1: Option<Record>, r2: Option<Record>)
    requires QueryAnswer(store, op, pivot, dir, r1)
    requires QueryAnswer(store, op, pivot, dir, r2)
    ensures r1.None? <==> r2.None?
    ensures r1.Some? ==> r1.value.order == r2.value.order
  {
  }

  /** The resolver's own choice among ties is one the database could make, so
      every database answer has the ordering value the model returns. */
  lemma ResolverMatchesAnyAnswer(store: seq<Record>, current: Record, direction: string, config: Config,
                                 answer: Option<Record>)
    requires QueryAnswer(store, OperatorFor(direction), current.order, SortFor(config, direction), answer)
    ensures var r := GetAdjacentRecord(store, current, direction, config);
      (r.None? <==> answer.None?) && (r.Some? ==> r.value.order == answer.value.order)
  {
  }

  /** Only which rows the table holds matters, not the order they are stored
      in: two tables holding the same rows give answers with the same ordering
      value (the query has no secondary sort key, so the row itself may differ
      among ties). */
  lemma StorageOrderIrrelevant(store1: seq<Record>, store2: seq<Record>, current: Record,
                               direction: string, config: Config)
    requires multiset(store1) == multiset(store2)
    ensures var r1 := GetAdjacentRecord(store1, current, direction, config);
            var r2 := GetAdjacentRecord(store2, current, direction, config);
      (r1.None? <==> r2.None?) && (r1.Some? ==> r1.value.order == r2.value.order)
  {
    forall x ensures x in store1 <==> x in store2 {
      assert x in store1 <==> x in multiset(store1);
      assert x in store2 <==> x in multiset(store2);
    }
    var op, dir := OperatorFor(direction), SortFor(config, direction);
    var r2 := GetAdjacentRecord(store2, current, direction, config);
    assert QueryAnswer(store1, op, current.order, dir, r2);
    ResolverMatchesAnyAnswer(store1, current, direction, config, r2);
  }
}
