/** Properties of the `StyledSelect` logic: the focus invariant every event keeps, the
    Enter/Escape/disabled rules, and the wrap-around behaviour of focus moves. */
module SelectProperties {
  import opened Results
  import opened StyledSelect

  /** The state the component keeps: closed means no query and no focus; open means the
      focus is -1 exactly when the filtered list is empty and lies inside it otherwise. */
  predicate Coherent<V(==)>(props: Props<V>, m: Menu) {
    if !m.isOpen then m.query == "" && m.focusedIndex == -1
    else
      var n := |Filtered(props.options, m.query, props.searchable)|;
      -1 <= m.focusedIndex < n && (m.focusedIndex == -1 <==> n == 0)
  }

  lemma ClosedCoherent<V>(props: Props<V>)
    ensures Coherent(props, Closed)
  {
  }

  lemma EffectCoherent<V>(props: Props<V>, m: Menu)
    ensures Coherent(props, Effect(props, m))
  {
  }

  /** Every event keeps the component coherent. */
  lemma StepPreservesCoherent<V>(props: Props<V>, m: Menu, e: Event<V>)
    requires Coherent(props, m)
    ensures Coherent(props, Step(props, m, e).0)
  {
    var after := match e
      case OpenMenu => (if props.disabled then m else m.(isOpen := true), None)
      case CloseMenu => (m.(isOpen := false), None)
      case ToggleMenu => (if props.disabled then m else m.(isOpen := !m.isOpen), None)
      case ClickOption(option) => ClickHandlers(props, m, option)
      case KeyDown(key) => KeyHandler(props, m, key);
    var next := after.0;
    assert Step(props, m, e).0 == Render(props, m, next);
    if m.isOpen != next.isOpen || FilteredChanged(props.searchable, m.query, next.query) {
      EffectCoherent(props, next);
    } else if m.query != next.query {
      // Both queries pass through, so the filtered list is the options either way.
      assert Filtered(props.options, m.query, props.searchable) == props.options;
      assert Filtered(props.options, next.query, props.searchable) == props.options;
    }
  }

  /** A disabled component ignores open, toggle and every key. */
  lemma DisabledIgnoresInput<V>(props: Props<V>, m: Menu, e: Event<V>)
    requires props.disabled && (e.OpenMenu? || e.ToggleMenu? || e.KeyDown?)
    ensures Step(props, m, e) == (m, None)
  {
  }

  /** `handleOptionSelect` on its own, as the component intends: a disabled option is
      ignored, any other is reported and the menu closes with query and focus reset. */
  lemma OptionSelectAloneCloses<V>(props: Props<V>, m: Menu, option: SelectOption<V>)
    requires Coherent(props, m) && m.isOpen
    ensures var (after, change) := SelectOptionHandler(m, option);
      && (option.disabled ==> Render(props, m, after) == m && change.None?)
      && (!option.disabled ==> Render(props, m, after) == Closed && change == Some(option))
  {
  }

  /** A click on an option of the open menu also reaches the container's `toggleMenu`, which
      flips the open flag back: an enabled option is reported but the menu stays open as it
      was, and a disabled option is not reported but closes the menu. On a disabled
      component the toggle does nothing, so an enabled option is reported and closes it. */
  lemma ClickOptionRule<V>(props: Props<V>, m: Menu, option: SelectOption<V>)
    requires Coherent(props, m) && m.isOpen
    ensures !props.disabled && !option.disabled ==> Step(props, m, ClickOption(option)) == (m, Some(option))
    ensures !props.disabled && option.disabled ==> Step(props, m, ClickOption(option)) == (Closed, None)
    ensures props.disabled && !option.disabled ==> Step(props, m, ClickOption(option)) == (Closed, Some(option))
    ensures props.disabled && option.disabled ==> Step(props, m, ClickOption(option)) == (m, None)
  {
  }

  /** Enter on an open menu with a focused, enabled option selects it and closes the menu;
      on a focused disabled option it does nothing. */
  lemma EnterSelectsFocused<V>(props: Props<V>, m: Menu)
    requires Coherent(props, m) && !props.disabled && m.isOpen && m.focusedIndex >= 0
    ensures var filtered := Filtered(props.options, m.query, props.searchable);
      && (!filtered[m.focusedIndex].disabled ==>
            Step(props, m, KeyDown("Enter")) == (Closed, Some(filtered[m.focusedIndex])))
      && (filtered[m.focusedIndex].disabled ==> Step(props, m, KeyDown("Enter")) == (m, None))
  {
  }

  /** Enter on a closed menu opens it, focused where the open effect puts it. */
  lemma EnterOpens<V>(props: Props<V>, m: Menu)
    requires Coherent(props, m) && !props.disabled && !m.isOpen
    ensures var r := Step(props, m, KeyDown("Enter"));
      && r.1.None? && r.0.isOpen && r.0.query == ""
      && r.0.focusedIndex == FocusOnOpen(Filtered(props.options, "", props.searchable), props.value)
  {
  }

  /** Escape always closes the menu and resets query and focus. */
  lemma EscapeCloses<V>(props: Props<V>, m: Menu)
    requires Coherent(props, m) && !props.disabled
    ensures Step(props, m, KeyDown("Escape")) == (Closed, None)
  {
  }

  /** An arrow key on a closed menu opens it and the open effect decides the focus, so the
      move queued in the same handler has no visible effect; on an open menu the arrow moves
      the focus one step with wrap-around. */
  lemma ArrowRule<V>(props: Props<V>, m: Menu, key: string)
    requires Coherent(props, m) && !props.disabled && (key == "ArrowDown" || key == "ArrowUp")
    ensures var r := Step(props, m, KeyDown(key));
      var filtered := Filtered(props.options, m.query, props.searchable);
      && r.1.None? && r.0.isOpen && r.0.query == m.query
      && (!m.isOpen ==> r.0.focusedIndex == FocusOnOpen(filtered, props.value))
      && (m.isOpen ==> r.0.focusedIndex == MoveFocus(m.focusedIndex, |filtered|, key == "ArrowDown"))
  {
  }

  /** Home and End on an open menu put the focus on the first or the last option, or leave
      it at -1 when nothing is listed; on a closed menu they open it and, as with the
      arrows, the open effect decides the focus. */
  lemma EdgeKeyRule<V>(props: Props<V>, m: Menu, key: string)
    requires Coherent(props, m) && !props.disabled && (key == "Home" || key == "End")
    ensures var r := Step(props, m, KeyDown(key));
      var n := |Filtered(props.options, m.query, props.searchable)|;
      && r.1.None? && r.0.isOpen && r.0.query == m.query
      && (!m.isOpen ==> r.0.focusedIndex == FocusOnOpen(Filtered(props.options, m.query, props.searchable), props.value))
      && (m.isOpen && n == 0 ==> r.0.focusedIndex == -1)
      && (m.isOpen && n > 0 && key == "Home" ==> r.0.focusedIndex == 0)
      && (m.isOpen && n > 0 && key == "End" ==> r.0.focusedIndex == n - 1)
  {
  }

  // ---------------------------------------------------------------- wrap-around

  /** One step back undoes one step forward on a non-empty list. */
  lemma MoveBackUndoesForward(focused: int, len: nat)
    requires 0 <= focused < len
    ensures MoveFocus(MoveFocus(focused, len, true), len, false) == focused
    ensures MoveFocus(MoveFocus(focused, len, false), len, true) == focused
  {
  }

  /** `k` successive steps forward. */
  function MoveForwardTimes(focused: int, len: nat, k: nat): (r: int)
    decreases k
  {
    if k == 0 then focused else MoveForwardTimes(MoveFocus(focused, len, true), len, k - 1)
  }

  /** Starting from the first option, `k < len` steps forward reach option `k`. */
  lemma {:induction false} ForwardVisitsInOrder(len: nat, k: nat)
    requires k < len
    ensures MoveForwardTimes(0, len, k) == k
    decreases k
  {
    if k > 0 {
      ForwardShift(0, len, k - 1);
      ForwardVisitsInOrder(len, k - 1);
    }
  }

  lemma {:induction false} ForwardShift(focused: int, len: nat, k: nat)
    ensures MoveForwardTimes(focused, len, k + 1) == MoveFocus(MoveForwardTimes(focused, len, k), len, true)
    decreases k
  {
    if k > 0 {
      ForwardShift(MoveFocus(focused, len, true), len, k - 1);
    }
  }

  /** `len` steps forward from the first option visit every option once and come back. */
  lemma ForwardCycles(len: nat)
    requires len > 0
    ensures MoveForwardTimes(0, len, len) == 0
  {
    ForwardVisitsInOrder(len, len - 1);
    ForwardShift(0, len, len - 1);
  }
}
