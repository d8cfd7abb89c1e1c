# Screen flow and evasive "No" button, modelled in Dafny

`script.js` drives a one-page flow. A navigator walks through eight screens:
`intro`, five questions, `valentine` and `final`. The `valentine` screen holds
a Yes button and a No button. Whenever the pointer or a finger comes close to
the No button, the button runs away. Each escape makes the Yes button wider
and changes the No button's taunt. Clicking Yes jumps to `final`.

The model has three modules:

- `Screens` (`screens.dfy`) models the navigator as a class. It holds the
  current index and an array with one active flag per screen. The set of
  screen names present on the page is fixed when the class is built.
  `ShowScreenByIndex`, `GoNext` and the Yes click keep one invariant: a flag is
  set exactly when its screen is the current one and exists on the page. After
  every successful move, exactly one flag is set.
- `Geometry` (`geometry.dfy`) holds the pure layout arithmetic:
  - `clamp` and `placeNoButton`;
  - the Yes bounds, widened by 20 px;
  - the inclusive overlap test;
  - the initial placement, with its fallback;
  - the 140 px and 160 px proximity tests, compared on squared distances.

  Coordinates are exact reals.
- `Evasion` (`evasion.dfy`) models the controller as a class. Its state is the
  attempt counter, the last flee time, the No button's text, the Yes scale and
  the No position.
  - `FleeFrom` applies the screen guard and the cooldown guard, runs the
    retry search and registers exactly one attempt.
  - `ChooseFleePosition` is the `do … while` search, written as a loop. It is
    proved to stop at the first clamped candidate that is clear of the Yes
    bounds, after at most ten candidates.
  - `FleeSeries` runs `FleeFrom` over a series of calls. The controller keeps
    a ghost history of flee times. After the series, that history has grown
    by exactly `FleeTimes` of the calls, so the spacing lemma about
    `FleeTimes` holds of the times the controller records.

Inputs the page would supply are parameters:

- the clock (`now`);
- the viewport width;
- live element geometry (a `Layout` value);
- whether the `valentine` screen is active (`valentineActive`);
- the touch list.

The random jump, jitter and direction changes are replaced by a supplied
stream of raw candidate positions, `draw: nat -> Point`. Candidate `k` is the
unclamped `(left, top)` that iteration `k` of the search would compute.

The model follows the code on these points, which a casual reading might expect otherwise:

- The Yes click only moves when the page has a `final` screen.
- "Exactly one active screen" needs the current screen to exist. If the page
  has no `intro` element, no screen is active until the first successful move.
- Before the first attempt, the No button shows the markup's own text.
- The retry search always runs; it is not optional.
- The Yes scale grows without a cap.
- The initial placement can start the No button on the Yes button's widened
  bounds. It tests only the preferred spot, before clamping, and takes the
  fallback without testing it. In one layout both spots overlap although the
  box has a clear spot
  (`Geometry.InitialPositionCanOverlapYes`). In another, a clear preferred
  spot is clamped onto the bounds (`Geometry.ClampCanMovePreferredOntoYes`).
  The source calls the placement "avoiding Yes button", but only the flee
  search retries.

## Model

| member | source | states |
|---|---|---|
| `Screens.IndexOf` | script.js:327 | `indexOf` gives -1 exactly when the name is absent; otherwise it gives a position holding the name with no earlier occurrence |
| `Screens.FinalIsLast` | script.js:8 | `"final"` is at index 7, the last of the eight screens |
| `Screens.CountTrueSingle` | script.js:50-52 | a flag list with only position `i` set has exactly one flag set |
| `Screens.Navigator.constructor` | script.js:3-9 | at load the index is 0 and only `intro` is active (when it exists) |
| `Screens.Navigator.ExactlyOneActive` | script.js:50-52 | when the current screen exists, exactly one screen is active |
| `Screens.Navigator.ShowScreenByIndex` | script.js:42-53 | an index out of range or without an element changes neither the index nor any flag; otherwise the index becomes `index`, only that screen is active, the previous one is off, and that also holds when `index` is the current index |
| `Screens.Navigator.GoNext` | script.js:55-57 | at the last screen nothing changes; otherwise it moves to the next screen exactly when that screen exists |
| `Screens.Navigator.YesClick` | script.js:326-328 | from any index, it moves to index 7 with only `final` active when `final` exists; otherwise nothing changes |
| `Screens.Navigator.ValentineScreenActive` | script.js:95-98 | the widget's screen is active exactly when it is current and exists |
| `Geometry.Clamp` | script.js:91-93 | the result never exceeds `max`; with `min <= max` it lies in `[min, max]`, equals `v` when `v` is in range, and equals the nearer end otherwise |
| `Geometry.UpperLimit` | script.js:103-107 | the upper limit is `Math.max(extent - button - padding, padding)`: at least both, and equal to one of them |
| `Geometry.ClampInto` | script.js:212-214 | the clamped position is inside `[padding, max(maxLimit, padding)]` on both axes; a position already inside is unchanged |
| `Geometry.ClampIntoIdempotent` | script.js:212-214 | clamping twice gives the same position as clamping once |
| `Geometry.InsideKeepsButtonInContainer` | script.js:100-108 | in a container wide and tall enough, a clamped position keeps the whole button `padding` away from every edge |
| `Geometry.PlaceNoButton` | script.js:100-108 | `placeNoButton` writes a position inside the padding-10 box; a request already inside it is kept |
| `Geometry.YesBounds` | script.js:142-151 | the bounds are the Yes rectangle in container coordinates widened by 20 px on every side: 40 px wider, 40 px taller, with the left and top edges 20 px before the Yes button's |
| `Geometry.Overlaps` | script.js:216-226 | the inclusive test holds exactly when the button's top-left corner lies in the closed box running from `bounds.left - width` to `bounds.right` and from `bounds.top - height` to `bounds.bottom` |
| `Geometry.OverlapsIffSharedPoint` | script.js:216-226 | the inclusive edge test holds exactly when the button rectangle and the Yes bounds share a point (both directions) |
| `Geometry.ClearOfYesKeepsMargin` | script.js:142-151 | a position clear of the widened bounds keeps the No button more than 20 px from the Yes button on some axis |
| `Geometry.PreferredStart` | script.js:252-253 | for a container of non-negative size, the 70%/30% spot lies within the container |
| `Geometry.FallbackStart` | script.js:262-263 | for a container of non-negative size, the 15%/60% spot lies within the container, left of and below the preferred spot |
| `Geometry.InitialPosition` | script.js:246-267 | the first placement is inside the padding-10 box; the preferred 70%/30% spot is used when it does not overlap, and the 15%/60% fallback only when it does |
| `Geometry.PreferredStartKept` | script.js:252-266 | a preferred spot that is clear and already inside the box is used unchanged, and the button then starts clear of the Yes bounds |
| `Geometry.InitialPositionCanOverlapYes` | script.js:252-266 | for a 400×400 container, an 80×40 No button and a 200×200 Yes button at (100, 100), both start spots overlap the Yes bounds and so does the first placement, although (10, 330) is inside the box and clear of them |
| `Geometry.ClampCanMovePreferredOntoYes` | script.js:252-266 | for a 200×400 container, an 80×40 No button and a 40×40 Yes button at (50, 100), the preferred spot is clear of the Yes bounds but clamping moves it onto them |
| `Geometry.CenterDistanceSquared` | script.js:274-277 | the value is `(cx - px)² + (cy - py)²` for the centre `cx = left + width/2`, `cy = top + height/2`, and is never negative |
| `Geometry.Near` | script.js:274-279 | the pointer is near exactly when the radius is non-negative and the squared distance from the button's centre `left + width/2`, `top + height/2` is below the radius squared |
| `Geometry.NearIsHypot` | script.js:277-279 | for `dist` the non-negative root of the squared centre distance (what `Math.hypot` returns), the squared test holds exactly when `dist < radius`, for any radius |
| `Evasion.FleeCooldown` | script.js:88-89 | the cooldown is 280 ms exactly when the viewport is at most 480 px wide, and 420 ms otherwise |
| `Evasion.LabelIndex` | script.js:126-128 | the taunt index is always within the 24 messages; for the first 24 attempts it is `attempts - 1` |
| `Evasion.Label` | script.js:128-129 | for the first 24 attempts, attempt `n` shows message `n - 1` |
| `Evasion.LabelPeriodic` | script.js:126-129 | the taunt after attempt `n + 24` is the taunt after attempt `n` |
| `Evasion.LabelWraps` | script.js:126-129 | attempt 1 shows message 0 and attempt 24 shows message 23; attempt 25 shows message 0 again |
| `Evasion.NeighbouringMessagesDiffer` | script.js:11-36 | consecutive messages in the list differ, including the last and the first |
| `Evasion.LabelChangesEveryAttempt` | script.js:126-129 | the label never freezes: every attempt shows a different taunt from the one before |
| `Evasion.ScaleX` | script.js:119 | the horizontal scale is at least 1, and above 1 after any attempt |
| `Evasion.ScaleY` | script.js:120 | the vertical scale is at least 1, above 1 after any attempt, and never above the horizontal scale |
| `Evasion.ScaleGrowth` | script.js:119-120 | both scales start at 1 and are strictly increasing; they grow faster horizontally than vertically |
| `Evasion.ScaleQuotedValues` | script.js:113-120 | scale 1.04 after 1 attempt; 1.6/1.195 after 15; 2.2/1.39 after 30; 3.0/1.65 after 50 |
| `Evasion.ScaleUncapped` | script.js:113-120 | no cap: for every bound there is an attempt count past which both scales exceed it |
| `Evasion.FleeAllowed` | script.js:155-158 | no flee when the screen is inactive; on the active screen a forced call always flees, and so does a call at least one cooldown after the last flee; an unforced call inside the cooldown never flees |
| `Evasion.FleeTimes` | script.js:157-159 | a series of calls flees at most once per call, and every flee time is the time of one of the calls |
| `Evasion.UnforcedFleesAreSpaced` | script.js:157-159 | without forced calls, flees are at least one cooldown apart, and the first is at least one cooldown after the previous flee |
| `Evasion.ForcedCallFlees` | script.js:158-159 | a forced call always flees and records its own time |
| `Evasion.RetryFrom` | script.js:207-237 | from candidate `k`, the search examines between `k + 1` and 10 candidates and ends at the last one it examined; it stops at the first clamped candidate clear of the Yes bounds, or at the 10th if all overlap |
| `Evasion.TryCandidate` | script.js:209-226 | one pass of the `do` body clamps candidate `k` exactly as `Candidate` does, and its inline edge test agrees with `CandidateOverlaps` |
| `Evasion.ChooseFleePosition` | script.js:191-237 | the loop gives the same result as the search function, with at most 10 candidates examined and all earlier ones overlapping; the result is clear of the Yes bounds unless ten were tried, and it lies in `[12, max(maxLimit, 12)]` |
| `Evasion.Controller.constructor` | script.js:83-89 | at setup: 0 attempts, last flee at 0, markup text, scale 1, and the cooldown chosen from the viewport, and an empty flee history |
| `Evasion.Controller.PlaceInitially` | script.js:246-267 | the No button moves to the initial position; nothing else changes |
| `Evasion.Controller.RegisterFlee` | script.js:110-130 | the attempt count goes up by exactly 1; the text becomes `noMessages[(n-1) % 24]` and the scales become `1 + 0.04n` and `1 + 0.013n`; the time, the position and the flee history are unchanged |
| `Evasion.Controller.FleeFrom` | script.js:153-243 | nothing changes when the screen is inactive, or when an unforced call comes within the cooldown; otherwise the time becomes `now` and is appended to the flee history, the button moves to the searched position and exactly one attempt is registered |
| `Evasion.Controller.MouseMove` | script.js:270-282 | an unforced flee happens exactly when the screen is active, the pointer is within 140 px and the cooldown has elapsed; otherwise nothing changes |
| `Evasion.Controller.TouchMove` | script.js:299-317 | an unforced flee happens exactly when there is a touch, the screen is active, the first touch is within 160 px and the cooldown has elapsed |
| `Evasion.Controller.TouchStart` | script.js:292-296 | a tap with a touch point forces a flee whenever the screen is active |
| `Evasion.Controller.FleeSeries` | script.js:153-243 | after a series of `fleeFrom` calls on the active screen, the flee history has grown by exactly `FleeTimes` of the calls, the attempt count by their number, the last flee time is the last of them (or unchanged if none), and the button sits at the searched position if it fled at all |

## Left out

- DOM access is not modelled. That covers `querySelectorAll`, `classList`,
  `style.left`/`style.top`, `textContent` and the transform strings written
  with `setProperty` (script.js:123-124). The model keeps the values written,
  not their text.
- Listener registration is not modelled (script.js:60-62, 65-66, 270, 285,
  292, 299, 320, 326). Only the handler bodies are modelled.
- The quiz-option celebration overlay is not modelled (script.js:64-80). It is
  a chain of `setTimeout` calls with no state of its own. Its only effect on
  the model is one `GoNext` at the end.
- `requestAnimationFrame` scheduling (script.js:246) is replaced by a direct
  call to `PlaceInitially`.
- The random and floating-point direction maths is not modelled
  (script.js:169-204, 209-210, 232-236). That covers `Math.random`,
  `Math.hypot`, unit vectors, jump size, the 0.7/1.0/1.5 jump bands and the
  jitter. The `draw` stream of raw candidates replaces all of it, so the model
  does not show that a flee moves away from the pointer.
- The per-flee mobile check (script.js:180) is not modelled. It only sizes the
  jump and the jitter (script.js:180-186), which `draw` abstracts. The cooldown's viewport check (script.js:88) is
  the constructor's `viewportWidth`.
- `Date.now()` is the `now` argument.
- `lastPointer` is not modelled (script.js:85, 271, 286-287, 322). It only
  feeds the flee direction, which `draw` abstracts.
- `mouseenter` and `click` on the No button (script.js:285-289, 320-323) have
  no members of their own. Each is `FleeFrom` with `force = true`.
- `isPointInYesButton` (script.js:132-140) is never called, so it is not
  modelled.
- The missing-element guards are not modelled (script.js:83, 154, 247). The
  controller exists only when both buttons exist, and a button on the page
  always has a parent element, so those branches cannot be taken.
- `Evasion.Controller.FleeFrom`: the widget is taken to sit in the `valentine`
  screen. `isValentineScreenActive` (script.js:95-98) is the `valentineActive`
  argument, and `Screens.Navigator.ValentineScreenActive` gives its value.
- JavaScript's double arithmetic is not modelled. Positions and scales are
  exact reals, so the model does not capture rounding (for example in
  `1 + 15 * 0.04`).
- `Geometry.PlaceNoButton`, `Geometry.InitialPosition` and
  `Evasion.Controller.PlaceInitially` use the No button's bounding-box size.
  The source reads `offsetWidth`/`offsetHeight` there (script.js:103-104,
  257, 259). For the untransformed No button these equal the bounding-box size
  only up to rounding to whole pixels, so the model does not capture that
  rounding.
- `Evasion.Controller.FleeSeries` uses one layout and one candidate stream for
  the whole series. Between real calls the layout changes as the button moves.
- `getScreenByName` returns the first element with a given name; the model
  keeps one flag per screen name, so duplicate screen elements are not
  modelled.
