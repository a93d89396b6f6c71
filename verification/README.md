# Tree selector prompt — a Dafny model

This project models the core of an interactive terminal prompt that walks a
tree of named items, level by level, and lets the user pick one value
(single mode) or a list of values (multiple mode). The tree's children may be
given as static lists or produced by resolver functions. The core is the
prompt session of `treeSelector`: on every key event it decides the next
session state, and it decides when the prompt ends with `done(...)`.

The model has these parts:

- `Items` (`items.dfy`) is the `Item` record. It has a name, an optional
  value, and children that are absent, a static list, or an opaque resolver.
- `Keys` (`keys.dfy`) holds the five name-based key classifiers. It also
  holds the four framework classifiers (Up, Down, Enter, Space), which a
  session is given as parameters.
- `Cursor` (`cursor.dfy`) is the cursor arithmetic. It works on JavaScript
  numbers, which here are an integer or NaN. It models `%` with truncating
  semantics, the clamp, and the loop branch exactly as written.
- `Selection` (`selection.dfy`) holds the seeded selection list, `indexOf`,
  the Space toggle, and the "row is selected" test.
- `Summary` (`summary.dfy`) is the `"<n> item(s) selected"` text, with a
  decimal writer that reads back.
- `Prompt` (`prompt.dfy`) is the pure state machine:
  - the session state and the defaults;
  - the key handler's fixed-priority dispatch and its step;
  - the loading effect and its completion;
  - the render's decisions.
- `PromptProperties` (`properties.dfy`) holds the lemmas about the state
  machine.
- `Session` (`session.dfy`) is a class whose fields are the session's state
  cells. Its methods update those fields in place, and each method is proved
  to perform the matching `Prompt` step.

The model follows the code as written, including these behaviours, some of
which differ from what the option comments and the resolver's type suggest:

- With `loop` on, `children?.length ?? 0 % newOffset` (src/index.ts:159)
  parses as `children?.length ?? (0 % newOffset)`. A cursor key therefore
  puts the cursor one past the last loaded item, and no item is active
  afterwards. While the children are pending, the cursor becomes `0 % raw`,
  which is NaN when the raw offset is 0. No wrap-around is implemented. The
  documented behaviour is that navigation loops from the last item to the
  first (src/types/config.ts:20-23). `Cursor.LoopWrapped` is that wrap-around,
  defined beside the branch as written and proved correct; the session keeps
  the branch as written (see "## Findings").
- A load result is applied whichever node is current when it arrives. There
  is no staleness check.
- Navigating with Right or Left does not reset the cursor.
- A resolver is called with no argument, not with the parent node
  (src/index.ts:82).
- The selection list can hold duplicates and `undefined`. An absent
  `initialSelection` seeds the list `[undefined]`.
- Toggling a value held once, twice, moves it to the end of the list.
  Toggling an absent value twice restores the list exactly. A value held
  twice loses both copies, because each toggle removes the first one.
- The handler does not check the status. No key sets it back to Idle, but a
  key arriving after `done` could still turn Done into Canceled. That the
  status changes at most once is the framework's guarantee (it delivers no
  key after `done`), not the handler's.
- In multiple mode, the count summary is drawn only when an item is under
  the cursor (src/index.ts:195). Otherwise the finished prompt is drawn as
  if it were idle.

## Model

| member | source | states |
|---|---|---|
| `Keys.IsEscapeKey` | src/utils/key.ts:5-7 | the Escape classifier; no contract of its own, see the `Keys.Classifiers*` rows |
| `Keys.IsLeftKey` | src/utils/key.ts:9-11 | the Left classifier; no contract of its own, see the `Keys.Classifiers*` rows |
| `Keys.IsRightKey` | src/utils/key.ts:13-15 | the Right classifier; no contract of its own, see the `Keys.Classifiers*` rows |
| `Keys.IsPageUp` | src/utils/key.ts:17-19 | the PageUp classifier; no contract of its own, see the `Keys.Classifiers*` rows |
| `Keys.IsPageDown` | src/utils/key.ts:21-23 | the PageDown classifier; no contract of its own, see the `Keys.Classifiers*` rows |
| `Items.Selectable` | src/types/item.ts:4-5 | an item is selectable when it has a value; no contract of its own, see `PromptProperties.ConfirmInSingleMode` and `PromptProperties.SpaceTogglesInMultipleMode` |
| `Items.Navigable` | src/index.ts:134 | an item can be entered when its `children` field is set; no contract of its own, see `PromptProperties.RightThenLeft` and `PromptProperties.RightOnLeafIgnored` |
| `Keys.ClassifiersMatchTable` | src/utils/key.ts:5-23 | `isEscapeKey` holds exactly for "escape" and "q", `isLeftKey` for "left", `isRightKey` for "right", `isPageUp` for "pageup", `isPageDown` for "pagedown", as given by one reference table |
| `Keys.ClassifiersDisjoint` | src/utils/key.ts:5-23 | no key satisfies two of the five classifiers, and one holds exactly for the six recognised names |
| `Keys.ClassifiersReadOnlyName` | src/utils/key.ts:5-23 | each classifier depends on the key's name only |
| `Cursor.Raw` | src/index.ts:150-156 | the unclamped offset is the cursor minus 1 or pageSize for Up/PageUp, plus 1 or pageSize for Down/PageDown; NaN stays NaN |
| `Cursor.Clamp` | src/index.ts:160-164 | `min(max(raw, 0), count - 1)` lies in `[0, count-1]` for a non-empty list and is -1 for an empty one; it is 0 below the range, `count-1` above it, the identity inside it, and NaN for NaN |
| `Cursor.JsRem` | src/index.ts:159 | JavaScript `%`: NaN for a NaN operand or a zero divisor; otherwise smaller than the divisor in magnitude, with the dividend's sign, and `abs(a) = abs(b)*q + abs(r)` |
| `Cursor.ActiveItem` | src/index.ts:94 | an item is active exactly when the children are loaded and the cursor is an integer index inside the list, and it is then `children[active]` |
| `Cursor.ClampedMoveInRange` | src/index.ts:142-167 | without looping, a cursor key leaves the cursor inside a non-empty loaded list, or at exactly -1 when the list is empty or pending; an item is then active exactly when the list is non-empty |
| `Cursor.NavigateInRange` | src/index.ts:142-167 | the same bound holds after any non-empty sequence of cursor keys |
| `Cursor.NextActive` | src/index.ts:150-165 | the new cursor after a cursor key; no contract of its own, see `Cursor.ClampedMoveInRange`, `Cursor.LoopLandsPastEnd` and `Cursor.LoopWhilePending` |
| `Cursor.LoopAsWritten` | src/index.ts:159 | the loop branch as written; no contract of its own, see `Cursor.LoopLandsPastEnd`, `Cursor.LoopWhilePending` and `Cursor.LoopAsWrittenIsNotWrap` |
| `Cursor.LoopLandsPastEnd` | src/index.ts:158-159 | with looping and loaded children, any cursor key in any direction sets the cursor to the child count, and then no item is active |
| `Cursor.LoopWhilePending` | src/index.ts:158-159 | with looping and pending children, the cursor becomes 0, or NaN exactly when the raw offset is 0 or NaN |
| `Cursor.LoopWrapped` | src/types/config.ts:20 | the documented wrap-around `((raw % count) + count) % count`: 0 for an empty or pending list, NaN exactly for a NaN offset otherwise |
| `Cursor.LoopWrappedInRange` | src/types/config.ts:20 | the wrapped cursor lies in `[0, count-1]` for a non-empty list |
| `Cursor.LoopWrappedIsEuclidean` | src/types/config.ts:20 | the wrapped cursor is the Euclidean remainder of the raw offset by the count |
| `Cursor.LoopAsWrittenIsNotWrap` | src/index.ts:159 | on a loaded non-empty list the branch as written never yields the wrapped cursor, for any raw offset |
| `Selection.Seed` | src/index.ts:69-71 | an array seed is taken entry by entry; a scalar becomes a one-element list; the list holds `undefined` exactly when the seed is absent |
| `Selection.IndexOf` | src/index.ts:118 | `indexOf` gives the first position holding the value, or -1 exactly when the value is absent |
| `Selection.Toggle` | src/index.ts:117-126 | an absent value is appended; otherwise the value's multiplicity drops by one and all other entries are kept |
| `Selection.ToggleRemovesFirst` | src/index.ts:118-123 | a present value loses exactly its first occurrence, and the rest keep their order |
| `Selection.ToggleTwiceAbsent` | src/index.ts:117-126 | toggling an absent value twice restores the list exactly |
| `Selection.ToggleTwicePresent` | src/index.ts:117-126 | toggling twice a value held once moves it to the end of the list |
| `Selection.DuplicateSurvivesToggle` | src/index.ts:117-126 | a value held twice is still selected after one toggle |
| `Selection.ToggleKeepsNoDuplicates` | src/index.ts:117-126 | toggling keeps a duplicate-free list duplicate-free and flips the value's membership |
| `Selection.RowSelected` | src/index.ts:180-181 | a row is selected when its item has a value held in the selection; no contract of its own, see `PromptProperties.IdleView` |
| `Summary.Decimal` | src/index.ts:200 | the count is written as a non-empty string of decimal digits without a leading zero |
| `Summary.DecimalReadsBack` | src/index.ts:200 | the decimal text reads back as the count |
| `Summary.SummaryText` | src/index.ts:198-200 | the count summary; no contract of its own, see `Summary.SummaryStatesCount` |
| `Summary.SummaryStatesCount` | src/index.ts:196-200 | the summary begins with the decimal count and a space, and ends "item selected" when the count is 1 and "items selected" otherwise |
| `Prompt.WithDefaults` | src/index.ts:55-64 | options that are left out take their defaults (10 rows, no loop, no cancel, single mode, "Canceled." and "No items available."); options that are given are kept |
| `Prompt.Init` | src/index.ts:66-92 | the session starts idle with no answer, the stack `[tree]`, children pending, cursor 0, no active item, and the selection seeded from `initialSelection` (`[undefined]` when unset) |
| `Prompt.ActiveValue` | src/index.ts:94-113 | the active item's value (`activeItem?.value`); no contract of its own, see `PromptProperties.ConfirmInSingleMode` and `PromptProperties.SpaceTogglesInMultipleMode` |
| `Prompt.Dispatch` | src/index.ts:96-156 | the fixed priority of the handler: each of Enter, Space, Right, Left above the root, Escape/"q" with cancelling allowed, Up, Down, PageUp and PageDown is taken exactly when its own test holds and every earlier test fails; a key is ignored exactly when all tests fail |
| `Prompt.KeyStep` | src/index.ts:96-169 | the stack changes only by pushing the active navigable item or by popping above the root |
| `Prompt.LoadFor` | src/index.ts:79-90 | the load the effect starts for a node; no contract of its own, see `Session.Session.CurrentChanged` |
| `Prompt.StartLoad` | src/index.ts:79-90 | the synchronous part of the effect; no contract of its own, see `PromptProperties.StaticLoadShowsCurrentChildren` and `PromptProperties.ResolverLoadPending` |
| `Prompt.Resolved` | src/index.ts:82-88 | the completion of a load; no contract of its own, see `PromptProperties.ResolverLoadPending` and `PromptProperties.StaleResultShownUnderParent` |
| `Prompt.RowsOf` | src/index.ts:171-184 | the rows handed to the pagination; no contract of its own, see `PromptProperties.IdleView` |
| `Prompt.View` | src/index.ts:189-214 | what is drawn; no contract of its own, see the `*View` and `SingleDoneShowsName` rows |
| `PromptProperties.LeftPops` | src/index.ts:137-138 | Left above the root pops the top of the stack from any state and changes nothing else |
| `PromptProperties.OtherKeyIgnored` | src/index.ts:96-169 | a key that is none of the nine the handler tests changes nothing |
| `PromptProperties.KeyStepKeepsConsistent` | src/index.ts:96-169 | a key handled while idle keeps the root at the bottom of a non-empty stack and every entered item navigable; the status leaves Idle only together with `done` and the matching answer (null exactly on cancel) |
| `PromptProperties.FinishedNeverIdle` | src/index.ts:96-169 | no key sets a finished session's status back to Idle or takes back its answer |
| `PromptProperties.KeyAfterDoneCancels` | src/index.ts:139-141 | the handler does not check the status: Escape with cancelling allowed turns Done into Canceled with a null answer |
| `PromptProperties.LoadEventsTouchOnlyChildren` | src/index.ts:79-90 | the loading effect and its completion change only the loaded children |
| `PromptProperties.RunKeepsConsistent` | src/index.ts:66-169 | over any event sequence whose keys arrive only while idle, the invariant holds, and a finished session's status and answer never change again (the second part rests on the framework delivering no key after `done`) |
| `PromptProperties.KeyStepAnswerFits` | src/index.ts:29-47 | the answer a key gives from an idle state is one value only in single mode, a list only in multiple mode, and null only when cancelling is allowed |
| `PromptProperties.RunAnswerFits` | src/index.ts:29-47 | over any event sequence whose keys arrive only while idle, the answer keeps fitting the configuration in the same way |
| `PromptProperties.RightThenLeft` | src/index.ts:132-138 | Right on a navigable item pushes it and changes nothing else; Left then restores the state exactly |
| `PromptProperties.RightLoadsLeft` | src/index.ts:132-138 | with any loading events between Right and Left, everything except the loaded children is restored |
| `PromptProperties.LoadsTouchOnlyChildren` | src/index.ts:79-90 | any sequence of loading events changes only the loaded children |
| `PromptProperties.RightOnLeafIgnored` | src/index.ts:132-136 | Right with no active item, or on an item without children, changes nothing |
| `PromptProperties.LeftAtRootIgnored` | src/index.ts:137-147 | Left at the root falls through to the cursor keys and otherwise changes nothing |
| `PromptProperties.SpaceTogglesInMultipleMode` | src/index.ts:111-126 | in multiple mode Space toggles the active value and changes nothing else; with no active item or no value it changes nothing |
| `PromptProperties.SpaceTwiceRestores` | src/index.ts:111-126 | two Space presses on an unselected active value leave the session as it was |
| `PromptProperties.ConfirmInSingleMode` | src/index.ts:97-131 | in single mode Enter or Space ends the session with the active value exactly when an item with a value is active; otherwise nothing changes |
| `PromptProperties.EnterInMultipleMode` | src/index.ts:97-101 | in multiple mode Enter always ends the session with the current selection list, even an empty one |
| `PromptProperties.EnterAtStart` | src/index.ts:69-71 | Enter at the start of multiple mode answers with the seed, which is `[undefined]` when no seed is given |
| `PromptProperties.CancelOnlyWhenAllowed` | src/index.ts:139-141 | a session is cancelled only by Escape or "q" with cancelling allowed, and then answers null; with cancelling allowed, such a key always cancels unless the framework calls it Enter or Space |
| `PromptProperties.EscapeIgnoredWhenDisallowed` | src/index.ts:139-147 | without cancelling, Escape or "q" changes nothing unless the framework calls it a cursor key |
| `PromptProperties.CursorKeysMoveOnlyCursor` | src/index.ts:142-167 | a cursor key changes only the cursor; without looping the cursor lands inside a non-empty list, or at -1 |
| `PromptProperties.CursorRunIsNavigate` | src/index.ts:142-167 | a sequence of keys that all take the cursor branch moves the cursor as `Cursor.Navigate` does and changes nothing else, so `Cursor.NavigateInRange` bounds the session's cursor |
| `PromptProperties.LoopOffCursorFinite` | src/index.ts:142-167 | without looping, an integer cursor stays an integer (never NaN) over any event sequence |
| `PromptProperties.LoopingLosesActiveItem` | src/index.ts:158-159 | with looping and loaded children, a cursor key leaves no active item, so a following single-mode Enter does nothing |
| `PromptProperties.StaticLoadShowsCurrentChildren` | src/index.ts:85-88 | for a node without a resolver, the effect and the next tick show the node's static children, or the empty list for a leaf |
| `PromptProperties.ResolverLoadPending` | src/index.ts:80-84 | a resolver node is pending, with no active item, until its result arrives; a null or undefined result shows as an empty list |
| `PromptProperties.StaleResultShownUnderParent` | src/index.ts:82-84 | a result from a child's resolver that arrives after Left is shown under the parent |
| `PromptProperties.SingleDoneShowsName` | src/index.ts:202-203 | a single-mode session that ends answers with the active value and shows that item's name |
| `PromptProperties.MultipleDoneView` | src/index.ts:195-201 | a multiple-mode session that ends shows the count summary when an item is active, and otherwise the idle prompt |
| `PromptProperties.CanceledView` | src/index.ts:191-193 | a cancelled session shows the cancel text |
| `PromptProperties.IdleView` | src/index.ts:171-214 | an idle prompt shows a loading text while children are pending and the configured `emptyText` for an empty list; otherwise it shows one row per child, marked active exactly at the cursor and selected exactly when its value is in the selection |
| `Session.Session.constructor` | src/index.ts:55-92 | the object starts in the initial state, with the defaulted configuration |
| `Session.Session.HandleKey` | src/index.ts:96-169 | the fields after a key are the key step of the fields before, and the invariant is kept |
| `Session.Session.CurrentChanged` | src/index.ts:79-90 | the effect starts the current node's load and marks the children pending for a resolver only |
| `Session.Session.ChildrenResolved` | src/index.ts:82-88 | the completion sets the children to the result, or to the empty list for null or undefined |

## Left out

- Terminal I/O is not modelled: `rl.clearLine`, the hidden-cursor sequence,
  the prefix, the help line, the message styling and theming (`src/theme.ts`).
  The screen is modelled by the decisions it depends on (`Prompt.View`).
- The pagination window (`usePagination`) is a framework call. The model
  assumes that its page is empty exactly when the list is empty, and it
  lists every child as a row.
- The framework hooks (`createPrompt`, `useState`, `useEffect`,
  `useKeypress`) are not modelled. Their state cells are the class fields,
  and `done(...)` sets the `result` field. That the framework stops
  delivering keys after `done` is a precondition of `Session.HandleKey`.
  That the effect runs after every change of the current node is left to
  the caller of `Session.CurrentChanged`.
- `isUpKey`, `isDownKey`, `isEnterKey` and `isSpaceKey` come from the
  framework. Their definitions are not part of this model, so they are
  parameters of the configuration.
- Asynchronous scheduling (`Promise.resolve(...).then`, `process.nextTick`)
  is not modelled. A completion is the separate `ChildrenResolved` event,
  and events are serial. A resolver that rejects is not modelled, since the
  code leaves the rejection unhandled.
- Resolvers are opaque tokens. What one returns is the argument of the
  completion event.
- `Cursor.Raw`: cursor values are integers or NaN, and page sizes are
  integers. A fractional, infinite or NaN `pageSize`, and JavaScript's signed
  zero, are not modelled.
- `src/types/config.ts` and `dist/index.d.ts` are declarations only, and
  are not part of this model.

## Findings

| source | as written | input that shows it | evidently intended | confidence | as-written member | corrected member |
|---|---|---|---|---|---|---|
| src/index.ts:159 | `children?.length ?? 0 % newOffset` parses as `children?.length ?? (0 % newOffset)`, so with loaded children every cursor key sets the cursor to the child count | `loop: true`, three loaded children, cursor 0, Down: the cursor becomes 3 and no item is active | wrap-around `((raw % count) + count) % count` (cursor 1 here), as the `loop` option documents at src/types/config.ts:20 | high; not executed | `Cursor.LoopLandsPastEnd` | `Cursor.LoopWrapped` |
