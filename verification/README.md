# filament-record-nav: adjacent-record navigation, modelled in Dafny

The package adds "previous record" and "next record" buttons to the record
pages of a Filament admin panel. Its one piece of logic is the
`WithRecordNavigation` trait. It finds the neighbour of the current record by
running `WHERE col <op> current ORDER BY col <dir> LIMIT 1` against the
record's table. It then enables and links the button, or disables it.

This model covers:

- `options.dfy`: `Option`, which stands for PHP's `null`.
- `adjacent_record.dfy` (module `AdjacentRecord`): the resolver.
  - The table is a sequence of `Record(key, order)` rows in storage order.
    `order` is the row's value in the configured order column.
  - The configuration is the map of `<direction>_direction` keys. A missing key
    falls back to the trait's default.
  - The query is `Where` (filter) followed by `FirstInOrder` (first row in
    sort order).
  - `QueryAnswer` is a declarative description of every answer the database
    may give. Ties are broken arbitrarily, because there is no secondary sort
    key. The lemmas state what holds for all such answers.
- `record_navigation.dfy` (module `RecordNavigation`): the buttons.
  - `Action` is a class whose fields the configurators update in place.
  - `ButtonFor` is the two-state rule: enabled, `primary` and linked, or
    disabled, `gray` and without a URL.
  - `ConfigureAction` dispatches on the action's class.
  - `getRecordUrl` calls into the framework. It is kept uninterpreted, as the
    page's `urlOf` function.
- `scenarios.dfy` (module `Scenarios`): concrete tables.
  - Ids 1, 2, 3 and 5: the gap is skipped and both ends have no neighbour.
  - Two rows share a value: only the value of the answer is fixed.

The actions' `setUp` sets the tooltips "Previous" and "Next"
(src/Actions/PreviousRecordAction.php:21, src/Actions/NextRecordAction.php:21).
`configurePreviousAction` and `configureNextAction` overwrite them with
"Previous record" and "Next record" (src/Concerns/WithRecordNavigation.php:26
and :37). The model follows the configurators, so a configured action carries
the longer text.

## Model

| member | source | states |
|---|---|---|
| AdjacentRecord.OperatorFor | src/Concerns/WithRecordNavigation.php:63 | the WHERE operator is `<` exactly for the direction string `'previous'` and `>` for every other string |
| AdjacentRecord.DefaultSortFor | src/Concerns/WithRecordNavigation.php:62 | without configuration, `'previous'` sorts descending and every other direction ascending |
| AdjacentRecord.SortFor | src/Concerns/WithRecordNavigation.php:62 | the sort direction is the value configured under `<direction>_direction` when present, and otherwise descending exactly for `'previous'` |
| AdjacentRecord.Where | src/Concerns/WithRecordNavigation.php:65-67 | the filtered rows are exactly the table's rows whose value passes the strict comparison with the current value |
| AdjacentRecord.FirstInOrder | src/Concerns/WithRecordNavigation.php:68-69 | `orderBy(...)->first()` yields nothing exactly on no rows; otherwise it yields one of the rows that sorts before every row |
| AdjacentRecord.GetAdjacentRecord | src/Concerns/WithRecordNavigation.php:59-70 | the result is an answer the query may give: absent exactly when no row passes the filter; otherwise a table row that passes it and sorts first among those that do |
| AdjacentRecord.GetPreviousRecord | src/Concerns/WithRecordNavigation.php:49-52 | the previous record is a table row with a strictly smaller value; it is absent exactly when no row has a smaller value |
| AdjacentRecord.GetNextRecord | src/Concerns/WithRecordNavigation.php:54-57 | the next record is a table row with a strictly larger value; it is absent exactly when no row has a larger value |
| AdjacentRecord.ResultIsStrictlyOnItsSide | src/Concerns/WithRecordNavigation.php:62-67 | for any sort direction, a result is strictly below (`previous`) or strictly above (any other string) the current value, so the current record is never returned |
| AdjacentRecord.PreviousIsNearestBelow | src/Concerns/WithRecordNavigation.php:62-69 | with descending order (the default), the previous record holds the largest value below the current one |
| AdjacentRecord.NextIsNearestAbove | src/Concerns/WithRecordNavigation.php:62-69 | with ascending order (the default), the next record holds the smallest value above the current one |
| AdjacentRecord.OverriddenPreviousIsFarthest | src/Concerns/WithRecordNavigation.php:62-68 | with `previous_direction` set to `asc`, the previous record holds the smallest value below the current one |
| AdjacentRecord.OverriddenNextIsFarthest | src/Concerns/WithRecordNavigation.php:62-68 | with `next_direction` set to `desc`, the next record holds the largest value above the current one |
| AdjacentRecord.ExtremesHaveNoNeighbour | src/Concerns/WithRecordNavigation.php:67-69 | a record holding the table's minimum has no previous record, and one holding the maximum has no next, under any configuration |
| AdjacentRecord.QueryAnswersAgree | src/Concerns/WithRecordNavigation.php:65-69 | any two answers the query may give agree on absence and on the ordering value, so resolving twice on an unchanged table lands on the same value |
| AdjacentRecord.ResolverMatchesAnyAnswer | src/Concerns/WithRecordNavigation.php:65-69 | every answer the database may give agrees with the modelled result on absence and on the ordering value |
| AdjacentRecord.StorageOrderIrrelevant | src/Concerns/WithRecordNavigation.php:65-69 | two tables holding the same rows in different storage orders give results with the same absence and ordering value |
| RecordNavigation.ButtonFor | src/Concerns/WithRecordNavigation.php:28-30 | a button is disabled exactly when there is no neighbour; it has no URL exactly when disabled; it is `primary` exactly when enabled and `gray` exactly when disabled; when enabled it links to the neighbour's URL |
| RecordNavigation.Action.constructor | src/Actions/PreviousRecordAction.php:14-22 | after `setUp` (here and in src/Actions/NextRecordAction.php:14-22), a previous/next action has a hidden label, is outlined, and has its chevron icon and its short tooltip; any new action starts enabled with no colour and no URL |
| RecordNavigation.Action.Present | src/Concerns/WithRecordNavigation.php:26-30 | the setter chain sets tooltip, icon, colour, disabled flag and URL to the given values and leaves label and outline alone |
| RecordNavigation.ConfigurePreviousAction | src/Concerns/WithRecordNavigation.php:22-31 | the action gets the "Previous record" tooltip and the left chevron; it is disabled exactly when there is no previous record; it links to the previous record's URL when there is one; it obeys the two-state rule |
| RecordNavigation.ConfigureNextAction | src/Concerns/WithRecordNavigation.php:33-42 | the same as for previous, with the "Next record" tooltip, the right chevron and the next record |
| RecordNavigation.ConfigureAction | src/Concerns/WithRecordNavigation.php:13-20 | previous actions get the previous configuration and next actions the next one, with label and outline kept as they were; any other action goes to the host page's `configureAction`, which is modelled as changing none of these properties |
| Scenarios.PreviousSkipsGap | src/Concerns/WithRecordNavigation.php:59-70 | in the table with ids 1, 2, 3 and 5, previous from 5 is 3 |
| Scenarios.NextFromFirst | src/Concerns/WithRecordNavigation.php:59-70 | in the same table, next from 1 is 2 |
| Scenarios.EndsOfGapTable | src/Concerns/WithRecordNavigation.php:67-69 | in the same table, 1 has no previous and 5 has no next, under any configuration |
| Scenarios.OverriddenPreviousJumpsToStart | src/Concerns/WithRecordNavigation.php:62-68 | with `previous_direction` set to `asc`, previous from 5 is 1 |
| Scenarios.PreviousAmongTies | src/Concerns/WithRecordNavigation.php:65-69 | when ids 10 and 11 share the value 7, previous from the row with 8 is one of them, and any database answer has the value 7 |

## Left out

- Eloquent query building (`newQuery`, `where`, `orderBy`, `first`) is not modelled as SQL. It becomes a selection over a sequence. Among tied rows the model takes the earliest in storage order. The database may pick any tied row, and no property relies on which one.
- The name of the order column (`order_column`, default `id`) is not modelled. Each record carries its value in that column as `order`. A missing column or an invalid direction value fails in the database layer, and that path is outside this model.
- A NULL value in the order column is not modelled: `order` is an `int`. With a NULL current value, `where(col, '<', null)` does not act as a strict comparison, and the model says nothing about that case.
- `config(...)` is global state in the source. Here it is a `Config` value passed explicitly.
- `getRecordUrl` / `getResource()::getUrl('view', ...)` calls into the framework. It is the uninterpreted `urlOf` field of `Page`, and `RecordUrl` applies it.
- `ConfigureAction`: `parent::configureAction` is the host page's own method in the framework, which may well configure other actions (set a URL, for one). The model assumes it changes none of the modelled properties, so the "left unchanged" clause for other actions is an assumption about that call.
- The resolver is a pure function here. That it only reads and never changes the table is therefore true by construction, not stated as a contract.
- `src/FilamentRecordNavServiceProvider.php` is not part of this model. It registers the package and publishes and merges its config file, with no behaviour to state.
- `src/Actions/PreviousRecordAction.php` and `src/Actions/NextRecordAction.php` are reduced to the field values their `setUp` sets, in the `Action` constructor. `getDefaultName` is not modelled.
- `Action.constructor`: the colour, disabled flag and URL of a new action are taken to start unset (no colour, enabled, no URL), the framework's defaults; for actions other than the two navigation actions nothing else about the initial state is stated.
- Rendering, label visibility beyond a flag, and the framework's handling of clicks on disabled buttons are not modelled.
