/** The keyboard and focus logic of the `StyledSelect` component: search filtering, the
    focused option chosen when the menu opens, wrap-around and edge focus moves, and the
    key dispatch. Component state is `Menu` (open flag, search query, focused index); one
    event, with every handler it reaches and the render they cause, is one `Step`. */
module StyledSelect {
  import opened Results
  import opened Text

  /** An option; `labelText` is the source's `label` (a reserved word here). */
  datatype SelectOption<V> = SelectOption(value: V, labelText: string, disabled: bool)

  /** The props the logic reads; the current selection is `value`. */
  datatype Props<V> = Props(
    value: Option<SelectOption<V>>,
    options: seq<SelectOption<V>>,
    disabled: bool,
    searchable: bool)

  datatype Menu = Menu(isOpen: bool, query: string, focusedIndex: int)

  /** The initial state, and the state every close returns to. */
  const Closed := Menu(false, "", -1)

  // ---------------------------------------------------------------- filtering

  /** `a` is `b` with some elements dropped, the rest kept in order. */
  predicate IsSubsequence<T(==)>(a: seq<T>, b: seq<T>)
    decreases |b|
  {
    || |a| == 0
    || (&& |b| > 0
        && ((a[0] == b[0] && IsSubsequence(a[1..], b[1..])) || IsSubsequence(a, b[1..])))
  }

  /** The query leaves the list as it is: search is off or the query is blank. */
  predicate PassThrough(searchable: bool, query: string) {
    !searchable || Trim(query) == ""
  }

  predicate LabelMatches<V>(option: SelectOption<V>, needle: string) {
    Contains(Lower(option.labelText), needle)
  }

  /** `options.filter(o => o.label.toLowerCase().includes(needle))`. */
  function FilterByLabel<V(==)>(options: seq<SelectOption<V>>, needle: string): (r: seq<SelectOption<V>>)
    ensures forall i :: 0 <= i < |r| ==> LabelMatches(r[i], needle)
    ensures forall i :: 0 <= i < |options| && LabelMatches(options[i], needle) ==> options[i] in r
    ensures IsSubsequence(r, options)
    ensures |r| <= |options|
    ensures forall x | x in multiset(options) :: multiset(r)[x] == (if LabelMatches(x, needle) then multiset(options)[x] else 0)
    ensures multiset(r) <= multiset(options)
  {
    if |options| == 0 then []
    else
      var rest := FilterByLabel(options[1..], needle);
      assert options == [options[0]] + options[1..];
      if LabelMatches(options[0], needle) then
        assert ([options[0]] + rest)[1..] == rest;
        [options[0]] + rest
      else rest
  }

  /** `filteredOptions`: the options themselves when the query passes through, otherwise
      the options whose lower-cased label contains the lower-cased, trimmed query. */
  function Filtered<V(==)>(options: seq<SelectOption<V>>, query: string, searchable: bool): seq<SelectOption<V>> {
    if PassThrough(searchable, query) then options
    else FilterByLabel(options, Trim(Lower(query)))
  }

  /** Filtering keeps, in their original order and as often as they occur, exactly the
      options whose lower-cased label contains the non-empty trimmed, lower-cased query; a
      passing-through query keeps every option. */
  lemma FilteredSpec<V>(options: seq<SelectOption<V>>, query: string, searchable: bool)
    ensures PassThrough(searchable, query) ==> Filtered(options, query, searchable) == options
    ensures !PassThrough(searchable, query) ==>
      var r := Filtered(options, query, searchable);
      && |Lower(Trim(query))| > 0
      && IsSubsequence(r, options)
      && (forall i :: 0 <= i < |r| ==> Contains(Lower(r[i].labelText), Lower(Trim(query))))
      && (forall i :: 0 <= i < |options| && Contains(Lower(options[i].labelText), Lower(Trim(query))) ==>
            options[i] in r)
      && (forall x :: multiset(r)[x] ==
            (if Contains(Lower(x.labelText), Lower(Trim(query))) then multiset(options)[x] else 0))
  {
    TrimOfLower(query);
  }

  // ---------------------------------------------------------------- focus

  /** `findIndex(o => o.value === v)`: the first position holding `v`, or -1. */
  function FindIndex<V(==)>(options: seq<SelectOption<V>>, v: V): (r: int)
    ensures -1 <= r < |options|
    ensures r >= 0 ==> options[r].value == v && forall j :: 0 <= j < r ==> options[j].value != v
    ensures r == -1 ==> forall j :: 0 <= j < |options| ==> options[j].value != v
  {
    if |options| == 0 then -1
    else if options[0].value == v then 0
    else
      var k := FindIndex(options[1..], v);
      if k < 0 then -1 else k + 1
  }

  predicate Lists<V(==)>(filtered: seq<SelectOption<V>>, value: Option<SelectOption<V>>) {
    value.Some? && exists i :: 0 <= i < |filtered| && filtered[i].value == value.value.value
  }

  /** The focus the open-menu effect sets: -1 for an empty list, else the first position of
      the selected value, else 0. */
  function FocusOnOpen<V(==)>(filtered: seq<SelectOption<V>>, value: Option<SelectOption<V>>): (r: int)
    ensures |filtered| == 0 <==> r == -1
    ensures |filtered| > 0 ==> 0 <= r < |filtered|
    ensures Lists(filtered, value) ==>
      && filtered[r].value == value.value.value
      && forall j :: 0 <= j < r ==> filtered[j].value != value.value.value
    ensures |filtered| > 0 && !Lists(filtered, value) ==> r == 0
  {
    if |filtered| == 0 then -1
    else
      var selected := if value.Some? then FindIndex(filtered, value.value.value) else -1;
      if selected >= 0 then selected else 0
  }

  /** `moveFocus`: no move on an empty list; otherwise one step forward or back, wrapping
      past either end. The result always lies in the list. */
  function MoveFocus(focused: int, len: nat, forward: bool): (r: int)
    ensures len == 0 ==> r == focused
    ensures len > 0 ==> 0 <= r < len
    ensures len > 0 && forward && focused + 1 >= len ==> r == 0
    ensures len > 0 && !forward && focused - 1 < 0 ==> r == len - 1
  {
    if len == 0 then focused
    else
      var next := if forward then focused + 1 else focused - 1;
      if next < 0 then len - 1
      else if next >= len then 0
      else next
  }

  /** `focusEdge`: the first or the last position, no move on an empty list. */
  function FocusEdge(focused: int, len: nat, atStart: bool): (r: int)
    ensures len == 0 ==> r == focused
    ensures len > 0 && atStart ==> r == 0
    ensures len > 0 && !atStart ==> r == len - 1
  {
    if len == 0 then focused else if atStart then 0 else len - 1
  }

  // ---------------------------------------------------------------- effects and events

  /** The focus effect: closing clears the query and the focus; open, the focus goes where
      `FocusOnOpen` says. */
  function Effect<V(==)>(props: Props<V>, m: Menu): Menu {
    if !m.isOpen then Closed
    else m.(focusedIndex := FocusOnOpen(Filtered(props.options, m.query, props.searchable), props.value))
  }

  /** The memoised filtered list is a new array when the query changed, unless both the old
      and the new query pass through, in which case it is the options array both times. */
  predicate FilteredChanged(searchable: bool, before: string, after: string) {
    before != after && !(PassThrough(searchable, before) && PassThrough(searchable, after))
  }

  /** The render after a handler: the focus effect runs only when one of its dependencies,
      the open flag or the filtered list, changed. */
  function Render<V(==)>(props: Props<V>, before: Menu, after: Menu): Menu {
    if before.isOpen != after.isOpen || FilteredChanged(props.searchable, before.query, after.query)
    then Effect(props, after)
    else after
  }

  datatype Event<V> =
    | OpenMenu
    | CloseMenu
    | ToggleMenu
    | ClickOption(option: SelectOption<V>)
    | KeyDown(key: string)

  predicate IsWordChar(c: char) {
    ('a' <= c <= 'z') || ('A' <= c <= 'Z') || ('0' <= c <= '9') || c == '_'
  }

  /** The key matches `/^[\w\s]$/`: one word or white-space character. */
  predicate IsTypeable(key: string) {
    |key| == 1 && (IsWordChar(key[0]) || IsSpace(key[0]))
  }

  /** `handleOptionSelect`: a disabled option is ignored; any other is reported through
      `onChange` and the menu closes. */
  function SelectOptionHandler<V>(m: Menu, option: SelectOption<V>): (Menu, Option<SelectOption<V>>) {
    if option.disabled then (m, None) else (m.(isOpen := false), Some(option))
  }

  /** `handleKeyDown` up to the render: the state its setters leave and what it reports
      through `onChange`. */
  function KeyHandler<V(==)>(props: Props<V>, m: Menu, key: string): (Menu, Option<SelectOption<V>>) {
    var filtered := Filtered(props.options, m.query, props.searchable);
    if props.disabled then (m, None)
    else if key == "ArrowDown" || key == "ArrowUp" then
      (m.(isOpen := true, focusedIndex := MoveFocus(m.focusedIndex, |filtered|, key == "ArrowDown")), None)
    else if key == "Home" || key == "End" then
      (m.(isOpen := true, focusedIndex := FocusEdge(m.focusedIndex, |filtered|, key == "Home")), None)
    else if key == "Enter" && m.isOpen && m.focusedIndex >= 0 then
      if m.focusedIndex < |filtered| then SelectOptionHandler(m, filtered[m.focusedIndex]) else (m, None)
    else if key == "Enter" then (m.(isOpen := true), None)
    else if key == "Escape" then (m.(isOpen := false), None)
    else if props.searchable && IsTypeable(key) then (m.(isOpen := true, query := m.query + key), None)
    else (m, None)
  }

  /** A click on an option. The option's handler runs, and the click then bubbles to the
      container, whose `toggleMenu` runs in the same batch: its functional update flips the
      open flag the option's handler has just written. */
  function ClickHandlers<V>(props: Props<V>, m: Menu, option: SelectOption<V>): (Menu, Option<SelectOption<V>>) {
    var (selected, change) := SelectOptionHandler(m, option);
    (if props.disabled then selected else selected.(isOpen := !selected.isOpen), change)
  }

  /** One event: the handlers it reaches, then the render they trigger. The second
      component is the option passed to `onChange`, if any. */
  function Step<V(==)>(props: Props<V>, m: Menu, e: Event<V>): (Menu, Option<SelectOption<V>>) {
    var (after, change) :=
      match e
      case OpenMenu => (if props.disabled then m else m.(isOpen := true), None)
      case CloseMenu => (m.(isOpen := false), None)
      case ToggleMenu => (if props.disabled then m else m.(isOpen := !m.isOpen), None)
      case ClickOption(option) => ClickHandlers(props, m, option)
      case KeyDown(key) => KeyHandler(props, m, key);
    (Render(props, m, after), change)
  }
}
