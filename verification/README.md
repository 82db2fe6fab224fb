# Feature walkthrough controller, modelled in Dafny

The repository's `walkthrough(itemCount)` function runs an on-page guided tour.
Page elements tagged `js__walkthrough1`, `js__walkthrough2`, … are shown one
after another. Each gets a callout with the element's `data-walkthrough` text,
placed to the right of the element. The user moves with Next and Back or
leaves with Close. This project models that closure and proves what it does.

- `layout.dfy` (module `Layout`): the callout placement arithmetic as a pure
  function over the target's bounding rectangle.
- `tour_state.dfy` (module `TourState`): the closure's state as a value and
  one function per operation. These are `_init` (as `Start`), `nextFeature`,
  `removeWalkthrough`, `step` and the three click handlers. The file also
  holds the invariant every reachable state keeps, a lemma that the initial
  variables and the start establish it, and one lemma per click handler (and
  for `step`) showing that it preserves it. `nextFeature` and
  `removeWalkthrough` are steps inside those and have no invariant lemma of
  their own.
- `tour_properties.dfy` (module `TourProperties`): whole tours. `Run` is the
  state after the start and any sequence of clicks, and it satisfies the
  invariant, so every reachable state does. Some lemmas are stated over `Run`
  or over any state satisfying the invariant: the highlight, the step bounds,
  the single warning, the last-step buttons, close and next-then-back. Others
  follow chains of next clicks from the start: a complete traversal
  (`ForwardPrefix`, `CompleteTour`, `FinalClick`) and two concrete tours.
- `walkthrough.dfy` (module `FeatureWalkthrough`): class `Walkthrough`. Its
  fields are the closure's variables `currentStep` and `$focusedElement`
  (`focused`), plus the page state the closure changes: highlighted elements,
  callout text and position, button labels, whether the background is still
  up, and an event log. Its methods follow the source statement by statement.
  Each is proved to produce exactly the state given by the matching
  `TourState` function. The constructor establishes `Valid()` (the invariant
  of the fields); `Init`, `Step`, `OnNext`, `OnBack` and `OnClose` keep it.
  `NextFeature` and `RemoveWalkthrough` are internal steps of those and are
  only proved equal to their functions.

The page is two inputs. The first is a map from index to element, which stands
in for `$('.js__walkthrough' + i)`. Each element has an optional description
and a rectangle. The second is `itemCount`. What the closure prints or removes
goes into a log: `Show(step, text, position)` when the callout is filled and
moved, `Warn(step)` for `console.warn`, and `End` when the background is
removed.

Behaviour the model keeps as the code has it, even where a tour's intended
behaviour would read otherwise:
- `itemCount <= 0` is never checked. If a first element exists, step 1 is shown.
- `currentStep` is incremented before the end-of-tour and missing-element checks.
  After the tour ends through `step()` it therefore stays one past the last
  step shown. After a close it is the step shown; after a failed start it is 1.
- When `_init` finds no first element, it warns and stops. No background is put
  up and no handlers are attached. The model calls this phase `Ended`, but no
  `End` event is logged.
- `_init` never switches to the last-step buttons, even when `itemCount == 1`.
- Ending the tour does not clear the last highlight.
- On steps other than the last, `nextFeature` passes `undefined` to `.html`.
  That sets nothing, so the buttons keep their labels. Likewise the callout
  keeps its old text when an element has no `data-walkthrough`. In `_init`,
  a missing description is concatenated into the template as the text
  `"undefined"`.

## Model

| member | source | states |
|---|---|---|
| `Layout.Placement` | feature-walkthrough/app.js:27-29 | the callout's top is equidistant from the target's top and bottom edges; its left is exactly 10 right of the target's right edge |
| `Layout.PlacementUnique` | feature-walkthrough/app.js:104-106 | those two properties determine the placement: any position satisfying them is `Placement(r)` |
| `TourState.Start` | feature-walkthrough/app.js:98-158 | without element 1, the log is just `Warn(1)`, nothing is highlighted or placed, and the tour never becomes active; with element 1, step 1 is active whatever `itemCount` is, only element 1 is highlighted, the callout carries its text and sits at its placement, and the start buttons stay even when `itemCount == 1` |
| `TourState.NextFeature` | feature-walkthrough/app.js:25-70 | clears the highlight of the step just left (±1 according to direction) and highlights the focused step; places the callout at the focused element's placement and logs that Show; switches to the last-step buttons exactly when the step equals `itemCount` and otherwise leaves the buttons alone; keeps the old text when the element has no description |
| `TourState.RemoveWalkthrough` | feature-walkthrough/app.js:73-75 | ends the tour and logs `End`; the step, the highlight and the buttons are left as they were |
| `TourState.Step` | feature-walkthrough/app.js:78-94 | the step grows by exactly 1; past `itemCount` the tour ends with only `End` logged (no warning, no Show); at a missing index within range, exactly `Warn(index)` then `End` are logged; otherwise the new step is shown at its element's placement with that element's text (or the previous text when it has none); an ending step keeps the old highlight |
| `TourState.Next` | feature-walkthrough/app.js:135-137 | a next click does nothing unless the tour is active, and otherwise advances the step by exactly 1 |
| `TourState.Back` | feature-walkthrough/app.js:140-145 | at step 1, or when not active, nothing changes (state, highlight, last placement); from n > 1 the step becomes n - 1, the callout is placed for step n - 1 with that element's text (or the previous text when it has none) and a Show for n - 1 is logged |
| `TourState.Close` | feature-walkthrough/app.js:148-150 | from any active step the tour ends with `End` logged and the highlight kept; otherwise nothing changes |
| `TourState.InitialInvariant` | feature-walkthrough/app.js:19-21 | the closure's freshly declared variables satisfy the invariant |
| `TourState.StartInvariant` | feature-walkthrough/app.js:98-112 | `_init` establishes the invariant |
| `TourState.StepInvariant` | feature-walkthrough/app.js:78-94 | `step()` preserves the invariant: while active, `1 <= currentStep <= max(1, itemCount)`, every index up to it has an element, the highlight is exactly `{currentStep}`, the callout sits at its placement; at most one element is ever highlighted; every Show is for a present, in-range step at its own element's placement; every Warn names a missing index; no Warn is logged while the tour can go on, and at most one in all; the last-step buttons are on exactly when step `itemCount >= 2` has been shown; `End` is logged at most once |
| `TourState.NextInvariant` | feature-walkthrough/app.js:135-137 | a next click preserves the invariant |
| `TourState.BackInvariant` | feature-walkthrough/app.js:140-145 | a back click preserves the invariant (so the step returned to always has an element) |
| `TourState.CloseInvariant` | feature-walkthrough/app.js:148-150 | a close click preserves the invariant |
| `TourProperties.Apply` | feature-walkthrough/app.js:135-150 | each of the three click handlers keeps the invariant |
| `TourProperties.Run` | feature-walkthrough/app.js:19-163 | every state reached from `walkthrough(itemCount)` by any sequence of clicks satisfies the invariant |
| `TourProperties.HighlightAndBounds` | feature-walkthrough/app.js:41-53 | in every reachable state at most one element is highlighted; while active it is exactly the current step's, the step lies in `1..max(1, itemCount)`, and the callout sits at that step's placement |
| `TourProperties.MissingNeverShown` | feature-walkthrough/app.js:86-92 | no reachable log ever shows an index that has no element, or one beyond `max(1, itemCount)` |
| `TourProperties.SingleWarning` | feature-walkthrough/app.js:86-92 | a run logs at most one warning, and none while the tour has not ended: the warning for a missing step always comes with the end of the tour |
| `TourProperties.LastControlsExactly` | feature-walkthrough/app.js:31-38 | in every reachable state the buttons are either the start ones or the last-step ones; the last-step ones are on exactly when step `itemCount` (at least 2) has been shown, so nothing ever restores the start ones |
| `TourProperties.CloseEndsForGood` | feature-walkthrough/app.js:148-150 | after close the tour is not active, ignores next, back and close (a second close adds nothing), and has logged `End` at most once |
| `TourProperties.NextThenBack` | feature-walkthrough/app.js:140-145 | from an active step n whose next click stays active, next then back returns to step n with the same highlight and position, and logs a fresh Show for n placed at n's element |
| `TourProperties.ForwardPrefix` | feature-walkthrough/app.js:78-94 | with elements for 1..itemCount, k < itemCount next clicks after the start show steps 1..k+1 in order, each at its own element's placement, with the highlight on k+1 and the last-step buttons exactly at `k + 1 == itemCount >= 2` |
| `TourProperties.CompleteTour` | feature-walkthrough/app.js:78-85 | with elements for 1..itemCount, `itemCount - 1` next clicks reach step `itemCount` (with the last-step buttons when itemCount >= 2); one more click ends the tour with exactly one `End` and no warning anywhere |
| `TourProperties.FinalClick` | feature-walkthrough/app.js:78-85 | a next click on step `itemCount` after only Shows ends the tour, logs only `End`, so exactly one `End` and no warning |
| `TourProperties.FourStepScenario` | feature-walkthrough/app.js:78-94 | a four-step tour described "A".."D": three next clicks show A, B, C, D at their placements with the last-step buttons, and a fourth click logs only `End` |
| `TourProperties.GapScenario` | feature-walkthrough/app.js:86-92 | with elements 1, 3 and 4 and `itemCount` 3, the first next click logs `Warn(2)` then `End` and the tour ends, although elements 3 and 4 exist |
| `FeatureWalkthrough.Walkthrough.constructor` | feature-walkthrough/app.js:19-21 | the object starts in the initial state (step 1, focused on element 1, nothing highlighted) and satisfies the invariant |
| `FeatureWalkthrough.Walkthrough.Init` | feature-walkthrough/app.js:98-158 | `_init` produces exactly `TourState.Start` and keeps the invariant |
| `FeatureWalkthrough.Walkthrough.NextFeature` | feature-walkthrough/app.js:25-70 | updates the fields exactly as `TourState.NextFeature` describes |
| `FeatureWalkthrough.Walkthrough.RemoveWalkthrough` | feature-walkthrough/app.js:73-75 | updates the fields exactly as `TourState.RemoveWalkthrough` describes |
| `FeatureWalkthrough.Walkthrough.Step` | feature-walkthrough/app.js:78-94 | increments `currentStep` by one, produces exactly `TourState.Step` and keeps the invariant |
| `FeatureWalkthrough.Walkthrough.OnNext` | feature-walkthrough/app.js:135-137 | the next handler produces exactly `TourState.Next` and keeps the invariant |
| `FeatureWalkthrough.Walkthrough.OnBack` | feature-walkthrough/app.js:140-145 | the back handler produces exactly `TourState.Back` and keeps the invariant; at step 1 it changes nothing |
| `FeatureWalkthrough.Walkthrough.OnClose` | feature-walkthrough/app.js:148-150 | the close handler produces exactly `TourState.Close` and keeps the invariant |

## Left out

- DOM and jQuery plumbing are modelled only by their effects. This covers the
  template appended to `body` (app.js:115-132), the `.css`, `.html` and
  `.removeAttr` calls, and the wiring of the click handlers. The effects kept
  are the highlight set, the callout's text and position, the button labels
  and the event log.
- `getBoundingClientRect` returns floating-point numbers. The model uses exact
  reals, so IEEE rounding and the `'px'` string formatting are not modelled.
- The unused read of the modal's height (app.js:30) is not modelled.
- The text of the `console.warn` messages is not modelled; each becomes a
  `Warn(index)` event. The warning in `_init` names no index, and the model
  records it as `Warn(1)`.
- jQuery's `.data()` converts attribute values (numbers, JSON). The model does
  not; a description is either a string or absent.
- `itemCount` is modelled as an integer. JavaScript's loose numbers
  (fractions, `NaN`) are not modelled.
- The page's elements are fixed for the tour's lifetime. Elements added or
  removed while the tour runs are not modelled.
- Each index has one fixed rectangle. The code reads `getBoundingClientRect()`
  afresh on every show (app.js:27, 104), so scrolling or a layout change
  between steps would move the callout. The model does not capture that.
- Each index has at most one element. The selector `$('.js__walkthrough' + i)` may
  match several elements, and `.css` then highlights all of them; the model
  keeps one element per index.
- The `$(document).ready` bootstrap calling `walkthrough(4)` (app.js:166-169)
  is host wiring and not part of this model.
- Event delivery and timing are not modelled. The code is single-threaded and
  handler-driven.
- TourState.Back: a back click onto an index with no element would throw in
  `nextFeature` after the decrement. The model stops at that point. The
  invariant shows this never happens in a reachable state.
- Clicks are not gated by the hidden back button or the emptied close label
  of the last step (app.js:35-37). `TourProperties.Run` therefore also covers
  click sequences a user cannot make; everything proved about it holds for
  the real ones too.
- TourState.Step: requires an active tour. Only the next button calls
  `step()`, and that button exists only while the background is up.
