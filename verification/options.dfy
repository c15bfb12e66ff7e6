/** A nullable value: `None` stands for PHP's `null` (a query that found no row,
    an action without a link target). */
module Options {

  datatype Option<+T> = None | Some(value: T)
}
