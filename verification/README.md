# Repetition scheduler and select-box logic, modelled in Dafny

This project models two pieces of a NestJS + React knowledge-coach application.

**The repetition scheduler** (`RepetitionService`). A *repetition* is a row attached to one
topic. It sends a reminder every `interval` milliseconds, either `repeatCount` times or
without limit when `repeatCount` is 0. The model is a sequential state machine over a
`Scheduler` value. It holds the `repetitions` table (id → row), the topic-ownership map
(topic → user), the interval timers (the scheduler registry plus the runtime's live
`setInterval` handles), and a counter of handler invocations. `create`, `update`, `remove`
and `initializeActiveRepetitions` (here `Recover`) are each one atomic step. One tick of an
armed interval (`executeRepetition`) is the explicit step `Fire(id)`, which is only enabled
while the id is registered. The invariant (`RepetitionService.Inv`) says that an id is armed
exactly when its row exists and is active, at the row's interval. It also says that no
`setInterval` handle leaks and that topics stay unique. In the model, where every save
succeeds, `create`, `update`, `remove` and a tick each keep the invariant, and `Recover` establishes it after a restart. `Restart` is not
an operation of the service: it stands for a process restart, which keeps the tables and
drops every timer. A bounded repetition notifies exactly `repeatCount` times, and the tick
after that deactivates it. The handler is optionally injected, and the handler counter
rises only when one is present. `RepetitionModule` binds `DefaultRepetitionHandler`
(src/repetition/repetition.module.ts:19-22). That handler looks the topic's owner up with
`UserService.findOne`, which throws NotFound for a missing user, so a tick can end in the
`Rejected` outcome. The email handler is a second implementation of the same interface that
the module does not bind; the model covers the message it would compose. The root
`AppModule` does not import `RepetitionModule` at all.

The model also covers the request schemas that validate the service's inputs, the table's
column defaults and cascade, and the message the email handler composes: subject, reminder
counter and plain-text body.

**The `StyledSelect` component's keyboard and focus logic.** It covers case-insensitive
search filtering, the focus chosen when the menu opens, wrap-around and edge focus moves,
and the Enter/Escape/disabled rules. One event, with every handler it reaches and the render
they trigger, is one `Step` over `(isOpen, query, focusedIndex)`. A click on an option
reaches two handlers: the option's own, then the container's `toggleMenu`, since the click
bubbles. The focus effect runs only when one of
its dependencies changes: the open flag, or the memoised filtered array. React applies the
state updates of one handler together and runs effects after the render. That is how the
model shows that an arrow key on a closed menu opens it and the effect, not the queued
move, decides the focus.

Files: `results.dfy` (Option/Result), `text.dfy` (lower-case, trim, substring),
`decimal.dfy` (number rendering and parsing), `entity.dfy`, `dtos.dfy`, `timers.dfy`,
`service.dfy`, `properties.dfy`, `email_handler.dfy`, `styled_select.dfy`,
`select_properties.dfy`.

## Where the code and the intended design differ

The model follows the code in each case:

- A second repetition for a topic is refused with `ForbiddenException` (403), not a conflict
  error (`RepetitionService.DuplicateIsForbidden`).
- A handler failure is not caught by the service. The increment is already saved when the
  handler runs, and the rejection escapes the tick (`Tick.Fired` with outcome `Rejected`).
  The tick is launched as `void this.executeRepetition(...)`
  (src/repetition/repetition.service.ts:163), so the rejection is an unhandled promise
  rejection. Node's default response to one ends the process, which drops every timer
  (`RepetitionService.Restart`) rather than leading to the next tick. Only the email
  handler's own send failure is swallowed.
- `currentCount <= repeatCount` is not kept. `update` may lower `repeatCount` below the
  count, and only the next tick reacts, by deactivating
  (`RepetitionProperties.LoweringCapLeavesCountAbove`).
- Reactivating an exhausted row does not reset `currentCount`. The row is armed again, and
  its next tick deactivates it without notifying
  (`RepetitionProperties.ReactivatedExhaustedStopsAtOnce`).
- Deleting a topic cascades to its repetition in the database, but its timer stays armed
  until the process restarts. Ticks on it then do nothing
  (`RepetitionProperties.CascadeOrphansTimer`). A process restart followed by `Recover` restores the
  invariant (`RepetitionProperties.RestartAfterCascade`).
- There is no per-id locking. Each service method is modelled as one atomic step.
- A click on an enabled option of the open menu reports the option through `onChange`, but
  the menu stays open. `handleOptionSelect` closes the menu, then the click bubbles to the
  container's `toggleMenu`, whose `setIsOpen(prev => !prev)` runs in the same batch and
  reopens it. A click on a disabled option is not reported, but it closes the menu. The
  option handler alone would close the menu (`SelectProperties.OptionSelectAloneCloses`).
  The click as the code wires it does not (`SelectProperties.ClickOptionRule`).

## Model

| member | source | states |
|---|---|---|
| RepetitionDtos.ValidateCreate | src/repetition/dto/create-repetition.dto.ts:4-7 | both members are required; success iff `repeatCount` is an integer ≥ 0 and `interval` an integer ≥ 1, so 0 repeats is accepted and a 0 interval, negatives, fractions and non-numbers are refused; a failure names exactly the offending members |
| RepetitionDtos.CheckOptionalInt | src/repetition/dto/update-repetition.dto.ts:5-6 | an optional integer member: absent is accepted as undefined, present must be an integer at or above the bound |
| RepetitionDtos.ValidateUpdate | src/repetition/dto/update-repetition.dto.ts:4-8 | every member optional, so `{}` is valid; a present `repeatCount` is an integer ≥ 0, `interval` an integer ≥ 1, `isActive` a boolean; `null` is refused; the result carries exactly the supplied members |
| RepetitionDtos.ValidateCreateRoundTrip | src/repetition/dto/create-repetition.dto.ts:4-7 | the body a client builds from any valid create request validates back to exactly that request |
| RepetitionDtos.ValidateUpdateRoundTrip | src/repetition/dto/update-repetition.dto.ts:4-8 | the body holding any subset of update members validates back to exactly that request, absent members staying absent |
| TimerRegistry.Stop | src/repetition/repetition.service.ts:170-177 | stopping clears and unregisters the id's interval, is a no-op for an unarmed id, touches no other id, and leaks no handle |
| TimerRegistry.Start | src/repetition/repetition.service.ts:155-168 | starting stops any interval already registered for the id, so the registry never refuses the name; the id ends with exactly one timer at the requested period on a new handle, other ids keep theirs, and no handle leaks |
| TimerRegistry.StopTwice | src/repetition/repetition.service.ts:170-177 | stopping is idempotent |
| TimerRegistry.StartTwice | src/repetition/repetition.service.ts:155-166 | arming the same id twice still leaves one timer for it, at the requested period; the first interval is no longer fired and no handle leaks |
| TimerRegistry.StopAfterStart | src/repetition/repetition.service.ts:155-177 | stopping right after starting leaves the registry as stopping alone would |
| RepetitionService.DuplicateIsForbidden | src/repetition/repetition.service.ts:49-52 | `create` for a topic the caller owns that already has a repetition fails with a Forbidden error, status 403 rather than a conflict, and changes nothing |
| RepetitionService.Create | src/repetition/repetition.service.ts:33-67 | checks in order: missing topic → NotFound, foreign topic → Forbidden, existing repetition → Forbidden, with nothing changed; success stores a fresh active row with `currentCount` 0 and arms exactly that id at its interval, leaving other timers alone |
| RepetitionService.Update | src/repetition/repetition.service.ts:101-139 | unknown id → NotFound; missing or foreign topic → Forbidden; no change on error; otherwise unsupplied fields are kept, `currentCount` is never touched, and when `isActive` was supplied or `interval` was supplied to a row that is now active, the id is armed iff the row is active, at its interval; otherwise timers are untouched; `isActive: true`, or an interval for a row that is now active, re-arms the id on a handle that was not live before, so its period restarts even when unchanged |
| RepetitionService.Remove | src/repetition/repetition.service.ts:141-153 | the same NotFound/Forbidden checks; success unregisters the id's timer and deletes only that row |
| RepetitionService.Fire | src/repetition/repetition.service.ts:179-211 | a missing or inactive row changes nothing, timer included; a row below its cap (or unbounded) gains exactly one count, saved before the handler runs, the handler counter rises by one and a handler rejection escapes after the save; a row at its cap is deactivated and disarmed without counting; the count never falls and never rises above a positive cap |
| RepetitionService.Recover | src/repetition/repetition.service.ts:213-223 | arms every active row at its interval and no other id, changes no row, leaks no handle, and re-establishes the invariant after a restart |
| RepetitionProperties.CreatePreservesInv | src/repetition/repetition.service.ts:49-66 | `create` keeps the invariant, topic uniqueness included |
| RepetitionProperties.UpdatePreservesInv | src/repetition/repetition.service.ts:113-136 | `update` keeps the invariant whatever subset of fields is supplied |
| RepetitionProperties.RemovePreservesInv | src/repetition/repetition.service.ts:149-152 | `remove` keeps the invariant |
| RepetitionProperties.FirePreservesInv | src/repetition/repetition.service.ts:185-202 | a tick keeps the invariant |
| RepetitionProperties.CascadeOrphansTimer | src/repetition/repetition.service.ts:185-187 | after a topic is deleted its repetition's timer stays armed with no row behind it, and a tick on it changes nothing, so timers no longer match rows |
| RepetitionProperties.CreateRowMatchesDefaults | src/repetition/repetition.service.ts:54-60 | the row `create` saves, with its explicit `currentCount` 0 and `isActive` true, equals the row the column defaults at src/repetition/entities/repetition.entity.ts:24-34 build from topic, cap and interval |
| RepetitionProperties.CreateLeavesOneRowPerTopic | src/repetition/repetition.service.ts:49-62 | after a successful `create` the topic has exactly one repetition, the new row, as the unique `topicId` column demands |
| RepetitionProperties.DeleteTopicKeepsStoreInv | src/repetition/entities/repetition.entity.ts:17-22 | the `ON DELETE CASCADE` topic deletion keeps the tables consistent, leaves the topic with no repetition, keeps every other row unchanged and every surviving active row armed at its interval |
| RepetitionProperties.RestartAfterCascade | src/repetition/repetition.service.ts:213-223 | after a topic deletion and a process restart, `initializeActiveRepetitions` leaves the surviving rows and the scheduler invariant holds again, the orphaned timer gone |
| RepetitionProperties.FireTimes | src/repetition/repetition.service.ts:179-202 | repeated ticks never add or drop rows and never lower the count |
| RepetitionProperties.HandlerOutcomeLeavesStateAlone | src/repetition/repetition.service.ts:199-210 | whether the handler resolves or rejects, the tick leaves the same tables, timers and handler count, since the increment is saved before the handler runs |
| RepetitionProperties.TicksCount | src/repetition/repetition.service.ts:189-202 | below the cap, k ticks add exactly k to the count and k handler invocations, and leave the row active and the timers unchanged |
| RepetitionProperties.FireTimesSplit | src/repetition/repetition.service.ts:179-211 | k+1 ticks are k ticks followed by one |
| RepetitionProperties.BoundedRunExhausts | src/repetition/repetition.service.ts:189-198 | with cap n and count c ≤ n, the next n−c ticks notify n−c times and the following tick deactivates and disarms without notifying |
| RepetitionProperties.CreatedRunsExactly | src/repetition/repetition.service.ts:54-66 | a repetition created with `repeatCount` n > 0 notifies exactly n times, and tick n+1 deactivates it and stops its timer |
| RepetitionProperties.UnboundedNeverExhausts | src/repetition/repetition.service.ts:189-191 | with `repeatCount` 0 every tick raises the count and the row stays active and armed |
| RepetitionProperties.ReactivatedExhaustedStopsAtOnce | src/repetition/repetition.service.ts:115-122 | reactivating an exhausted row arms it without resetting `currentCount`, and its next tick deactivates and disarms it without notifying |
| RepetitionProperties.LoweringCapLeavesCountAbove | src/repetition/repetition.service.ts:124-126 | lowering `repeatCount` to any positive value below the count is accepted, leaving count above cap while armed, until the next tick deactivates |
| Decimal.NatToString | src/repetition/handlers/email-repetition.handler.ts:26-29 | a count renders as a non-empty string of digits with no leading zero |
| Decimal.ParseNatToString | src/repetition/handlers/email-repetition.handler.ts:26-29 | parsing the rendered count gives the count back |
| Decimal.NatToStringInjective | src/repetition/handlers/email-repetition.handler.ts:26-29 | distinct counts render differently |
| EmailHandler.PlainTextMentions | src/repetition/handlers/email-repetition.handler.ts:101 | the plain-text body contains `reminder #<countText>` and the topic title |
| EmailHandler.Handle | src/repetition/handlers/email-repetition.handler.ts:19-110 | a missing user escapes as NotFound; otherwise the email goes to the owner with subject `Reminder: <title>`, a body naming the reminder number and title, and a failed send does not make the handler fail |
| EmailHandler.CountTextRoundTrip | src/repetition/handlers/email-repetition.handler.ts:26-29 | the counter text is the bare count when unbounded and `<count> of <cap>` when bounded, and reading it back yields exactly the count and cap |
| EmailHandler.CountTextInjective | src/repetition/handlers/email-repetition.handler.ts:26-29 | different count/cap pairs never render the same counter text |
| EmailHandler.TickEmailShowsNewCount | src/repetition/repetition.service.ts:201-210 | with the email handler injected in place of the default one, the email a counted tick sends shows the incremented count, which never exceeds a positive cap |
| Text.TrimStart | ui/components/styled-select/StyledSelect.tsx:58-59 | removes exactly the leading white space |
| Text.TrimEnd | ui/components/styled-select/StyledSelect.tsx:58-59 | removes exactly the trailing white space |
| Text.TrimOfLower | ui/components/styled-select/StyledSelect.tsx:58-59 | trimming the lower-cased query equals lower-casing the trimmed one, so the blank-query test and the needle agree |
| StyledSelect.FilterByLabel | ui/components/styled-select/StyledSelect.tsx:59-60 | keeps exactly the options whose lower-cased label contains the needle, each as many times as it occurs, as a subsequence of the options |
| StyledSelect.FilteredSpec | ui/components/styled-select/StyledSelect.tsx:57-61 | not searchable or blank query: the options unchanged; otherwise a non-empty needle and exactly the matching options, with their multiplicities, in original order |
| StyledSelect.FindIndex | ui/components/styled-select/StyledSelect.tsx:75-77 | returns the first position holding the value, or -1 when none does |
| StyledSelect.FocusOnOpen | ui/components/styled-select/StyledSelect.tsx:70-79 | -1 iff the filtered list is empty; otherwise the first position of the selected value, or 0 when it is not listed |
| StyledSelect.MoveFocus | ui/components/styled-select/StyledSelect.tsx:150-159 | no-op on an empty list; otherwise the result is in [0, len), past the end wraps to 0 and before the start to len−1 |
| SelectProperties.ClosedCoherent | ui/components/styled-select/StyledSelect.tsx:49-51 | the initial state is coherent |
| SelectProperties.EffectCoherent | ui/components/styled-select/StyledSelect.tsx:63-80 | after the focus effect, a closed menu has an empty query and focus -1, and an open one has focus -1 iff the list is empty, else inside it |
| SelectProperties.StepPreservesCoherent | ui/components/styled-select/StyledSelect.tsx:63-80 | every event, including typing that changes the filtered list, keeps the focus coherent with the open flag and the filtered list |
| SelectProperties.DisabledIgnoresInput | ui/components/styled-select/StyledSelect.tsx:116-128 | a disabled component ignores open, toggle and every key (the key guard at line 167) |
| SelectProperties.ClickOptionRule | ui/components/styled-select/StyledSelect.tsx:130-134 | a click on an option of the open menu runs `handleOptionSelect` and then the bubbled `toggleMenu` (line 247): an enabled option is reported and the menu stays open, a disabled one is not reported and closes it; on a disabled component an enabled option is reported and closes the menu |
| SelectProperties.OptionSelectAloneCloses | ui/components/styled-select/StyledSelect.tsx:130-134 | `handleOptionSelect` on its own ignores a disabled option and otherwise reports the option and closes the menu with query and focus reset |
| SelectProperties.EnterSelectsFocused | ui/components/styled-select/StyledSelect.tsx:194-199 | Enter on an open menu with focus ≥ 0 selects the focused option and closes, or does nothing if that option is disabled |
| SelectProperties.EnterOpens | ui/components/styled-select/StyledSelect.tsx:201-205 | Enter on a closed menu opens it with the open-effect focus |
| SelectProperties.EscapeCloses | ui/components/styled-select/StyledSelect.tsx:207-211 | Escape closes the menu and resets query and focus |
| SelectProperties.ArrowRule | ui/components/styled-select/StyledSelect.tsx:169-192 | an arrow on a closed menu opens it and the effect decides the focus; on an open menu it moves the focus one step with wrap-around |
| SelectProperties.EdgeKeyRule | ui/components/styled-select/StyledSelect.tsx:161-185 | Home/End on an open menu focus the first/last option, or keep -1 when nothing is listed; on a closed menu they open it and the effect decides the focus |
| SelectProperties.MoveBackUndoesForward | ui/components/styled-select/StyledSelect.tsx:150-159 | one step back undoes one step forward, and vice versa |
| SelectProperties.ForwardVisitsInOrder | ui/components/styled-select/StyledSelect.tsx:150-159 | from the first option, k < len steps forward reach option k |
| SelectProperties.ForwardShift | ui/components/styled-select/StyledSelect.tsx:150-159 | k+1 forward steps are k steps followed by one |
| SelectProperties.ForwardCycles | ui/components/styled-select/StyledSelect.tsx:150-159 | len steps forward from the first option come back to it |

## Left out

- `findAll`, `findOne` and `findByTopicId` read accessors: they are query-builder reads with no logic. `findOne`'s NotFound is modelled inside `Update` and `Remove`.
- Real time: `setInterval` periods are recorded but never elapse. A tick is the explicit `Fire` step, so timing, phase and drift are not modelled. Arming on a new handle stands for "the period restarts".
- Concurrency: overlapping ticks, and ticks interleaved with `update`/`remove` inside their `await`s. The source has no per-id lock, and each method is one atomic step here.
- RepetitionService.Update: every save succeeds here. In the source, `update` stops and starts the timers (src/repetition/repetition.service.ts:115-134) before its only `save` (line 136). A failing save therefore leaves the timers changed and the row unchanged, which breaks `TimersMatch`. A body the schema accepts can cause this: `{"interval": 2147483648}` overflows the `int4` column. Node also clamps a delay above 2^31−1 to 1 ms, which is not modelled either.
- Other database failures (a lost connection, an `int4` overflow of a count in `create` or in a tick), and the bookkeeping timestamps.
- Generated uuids are replaced by a counter (`nextId`). Job names `repetition-<id>` are replaced by the id, which they encode one-to-one.
- RepetitionDtos.ValidateCreate, RepetitionDtos.ValidateUpdate: JSON numbers are exact rationals, but `JSON.parse` rounds every numeric literal to the nearest double before the schema sees it. So a fraction that rounds to an integer (`1.0000000000000001`), a literal that underflows to 0 (`1e-400`), an overflow to Infinity (`1e400`, which `.int()` refuses) and integers above 2^53 are judged on the exact value here. Bodies that are not objects are not modelled either.
- The email handler's HTML body, its `toLocaleString` date and the SMTP transport. The default handler's logging is not modelled; its user lookup is, as the `Rejected` outcome. What the runtime does with a handler rejection that escapes a tick, which by default ends the process, is left to `Restart`: the run lemmas chain ticks only for handlers that resolve or are absent.
- `toLowerCase` folds ASCII letters only. `trim` and `\s` use the full ECMAScript white-space set.
- StyledSelect: the clear button, the search input's `onChange`, scrolling, focusing the input, ARIA attributes and class strings. A click outside is the `CloseMenu` event. Changes of the `value`/`options` props, which would re-run the focus effect, are not modelled. An option click's bubbling is modelled only as far as the container's `toggleMenu`.
- EmailHandler.Handle: states that the body contains the reminder number and the title, not its whole fixed wording (that wording is `PlainText`).
- The question-answering services, authentication, controllers, the topic and page-content services and module wiring: they are outside the scheduler and select logic.
