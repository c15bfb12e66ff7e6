/** The button side of the `WithRecordNavigation` trait: the previous/next
    actions of a record page are configured from the resolver's answer. */
module RecordNavigation {

  import opened Options
  import opened AdjacentRecord

  const Primary := "primary"
  const Gray := "gray"

  /** Which of the package's action classes an action is an instance of. */
  datatype ActionKind = PreviousRecordAction | NextRecordAction | OtherAction

  /** The record page using the trait: the table of its resource, the record
      it shows, the package configuration, and the resource's "view" URL for a
      record (a call into the framework, kept uninterpreted). */
  datatype Page = Page(store: seq<Record>, record: Record, config: Config, urlOf: Record -> string)

  /** `getRecordUrl($record)`. */
  function RecordUrl(page: Page, r: Record): string
  {
    page.urlOf(r)
  }

  /** The state a navigation button takes for a possibly absent neighbour. */
  datatype ButtonState = ButtonState(color: string, disabled: bool, url: Option<string>)

  /** The two-state rule shared by both buttons: enabled, `primary` and linked
      to the neighbour's page when there is a neighbour; disabled, `gray` and
      without a link otherwise. */
  function ButtonFor(page: Page, neighbour: Option<Record>): (b: ButtonState)
    ensures b.disabled <==> neighbour.None?
    ensures b.url.None? <==> b.disabled
    ensures b.color == Primary <==> !b.disabled
    ensures b.color == Gray <==> b.disabled
    ensures neighbour.Some? ==> b.url == Some(RecordUrl(page, neighbour.value))
  {
    match neighbour
    case Some(n) => ButtonState(Primary, false, Some(RecordUrl(page, n)))
    case None => ButtonState(Gray, true, None)
  }

  /** A framework action, reduced to the properties the package sets. `null`
      is `None`. */
  class Action {
    const kind: ActionKind
    var labelHidden: bool
    var outlined: bool
    var tooltip: Option<string>
    var icon: Option<string>
    var color: Option<string>
    var disabled: bool
    var url: Option<string>

    /** A new action of the given class, after its `setUp()`. */
    constructor (kind: ActionKind)
      ensures this.kind == kind
      ensures kind != OtherAction ==> labelHidden && outlined
      ensures kind == PreviousRecordAction ==>
                tooltip == Some("Previous") && icon == Some("heroicon-o-chevron-left")
      ensures kind == NextRecordAction ==>
                tooltip == Some("Next") && icon == Some("heroicon-o-chevron-right")
      ensures color == None && !disabled && url == None
    {
      this.kind := kind;
      labelHidden, outlined := kind != OtherAction, kind != OtherAction;
      color, disabled, url := None, false, None;
      match kind
      case PreviousRecordAction =>
        tooltip, icon := Some("Previous"), Some("heroicon-o-chevron-left");
      case NextRecordAction =>
        tooltip, icon := Some("Next"), Some("heroicon-o-chevron-right");
      case OtherAction =>
        tooltip, icon := None, None;
    }

    /** The button is in one of its two states: enabled, `primary` and linked,
        or disabled, `gray` and unlinked. */
    predicate InTwoStateRule()
      reads this
    {
      && (disabled <==> url.None?)
      && (color == Some(Primary) <==> !disabled)
      && (color == Some(Gray) <==> disabled)
    }

    /** The fluent `tooltip()->icon()->color()->disabled()->url()` chain. */
    method Present(tip: string, glyph: string, state: ButtonState)
      modifies this
      ensures tooltip == Some(tip) && icon == Some(glyph)
      ensures color == Some(state.color) && disabled == state.disabled && url == state.url
      ensures labelHidden == old(labelHidden) && outlined == old(outlined)
    {
      tooltip := Some(tip);
      icon := Some(glyph);
      color := Some(state.color);
      disabled := state.disabled;
      url := state.url;
    }
  }

  /** `configurePreviousAction($action)`. */
  method ConfigurePreviousAction(page: Page, action: Action)
    modifies action
    ensures action.tooltip == Some("Previous record") && action.icon == Some("heroicon-o-chevron-left")
    ensures var previous := GetPreviousRecord(page.store, page.record, page.config);
      && (action.disabled <==> previous.None?)
      && (previous.Some? ==> action.url == Some(RecordUrl(page, previous.value)))
      && action.color == Some(ButtonFor(page, previous).color)
      && action.url == ButtonFor(page, previous).url
    ensures action.InTwoStateRule()
    ensures action.labelHidden == old(action.labelHidden) && action.outlined == old(action.outlined)
  {
    var previous := GetPreviousRecord(page.store, page.record, page.config);
    action.Present("Previous record", "heroicon-o-chevron-left", ButtonFor(page, previous));
  }

  /** `configureNextAction($action)`. */
  method ConfigureNextAction(page: Page, action: Action)
    modifies action
    ensures action.tooltip == Some("Next record") && action.icon == Some("heroicon-o-chevron-right")
    ensures var next := GetNextRecord(page.store, page.record, page.config);
      && (action.disabled <==> next.None?)
      && (next.Some? ==> action.url == Some(RecordUrl(page, next.value)))
      && action.color == Some(ButtonFor(page, next).color)
      && action.url == ButtonFor(page, next).url
    ensures action.InTwoStateRule()
    ensures action.labelHidden == old(action.labelHidden) && action.outlined == old(action.outlined)
  {
    var next := GetNextRecord(page.store, page.record, page.config);
    action.Present("Next record", "heroicon-o-chevron-right", ButtonFor(page, next));
  }

  /** `configureAction($action)`: previous and next actions go to their own
      configurator; any other action is passed to the host page's own
      `configureAction`, a framework call that this model takes to change none
      of the properties modelled here (an assumption, not a fact about the
      framework). */
  method ConfigureAction(page: Page, action: Action)
    modifies action
    ensures action.kind == PreviousRecordAction ==>
              var b := ButtonFor(page, GetPreviousRecord(page.store, page.record, page.config));
              && action.tooltip == Some("Previous record") && action.icon == Some("heroicon-o-chevron-left")
              && action.color == Some(b.color) && action.disabled == b.disabled && action.url == b.url
    ensures action.kind == NextRecordAction ==>
              var b := ButtonFor(page, GetNextRecord(page.store, page.record, page.config));
              && action.tooltip == Some("Next record") && action.icon == Some("heroicon-o-chevron-right")
              && action.color == Some(b.color) && action.disabled == b.disabled && action.url == b.url
    ensures action.kind != OtherAction ==> action.InTwoStateRule()
    ensures action.labelHidden == old(action.labelHidden) && action.outlined == old(action.outlined)
    ensures action.kind == OtherAction ==> unchanged(action)
  {
    match action.kind
    case PreviousRecordAction => ConfigurePreviousAction(page, action);
    case NextRecordAction => ConfigureNextAction(page, action);
    case OtherAction =>
  }
}
