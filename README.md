# Carousel position state machine

A model of the discrete logic of the `Carousel` React component in
`src/Carousel.js`: a draggable, optionally looping, optionally autoplaying
track of cards. The model covers

- the **sequence padder** (`itemsForRender`): in loop mode the track renders
  `[last, ...items, first]`, so it can run past either end;
- the **drag-gesture interpreter**: a release offset and velocity, compared
  against `DRAG_BUFFER = 50` and `VELOCITY_THRESHOLD = 500`, give a step of
  +1, 0 or -1;
- the **autoplay tick**: `position + 1` whenever the interval is armed;
- the **loop-jump correction**: when an animation completes on or past a
  synthetic end item, `position` is reset to the matching real item and
  `isJumping` is raised for one frame so the track is not animated;
- the **track geometry**: stride `baseWidth - 2*16 + 16`, target offset
  `-(position * stride)` and the drag bounds `[-stride * (length-1), 0]`.

Layout:

- `padding.dfy` (module `Padding`): the render sequence, and the fact that in
  loop mode it is a window of the cyclic item list.
- `gesture.dfy` (module `Gesture`): the drag direction, its precedence,
  monotonicity and mirror symmetry.
- `geometry.dfy` (module `Geometry`): stride, target offset, drag bounds.
- `machine.dfy` (module `Machine`): the component state as a record and one
  pure transition function per event, each giving the state after the
  handler and the effects it triggers.
- `widget.dfy` (module `Widget`): class `Carousel` with the state fields
  `position`, `offset` (the motion value `x`), `isHovered`, `isJumping`,
  `isAnimating` and the props, and one method per event (`DragEnd`,
  `AutoplayTick`, `AnimationStart`, `AnimationComplete`, `Frame`, `SetHover`,
  `SetProps`). Each method updates the fields in place and is proved to
  leave exactly the state its transition function describes.
- `traces.dfy` (module `Traces`): runs over sequences of events and the
  properties that span several events.

Modelling decisions:

- Pointer offsets and velocities are `real`; `baseWidth` and the track offset
  are integer pixels.
- The timer, the hover listeners, `requestAnimationFrame` and the animation
  library are replaced by events the host delivers one at a time. An
  `AnimationComplete` event means the spring has brought the track to the
  target of the current position, so the model sets `offset` to that target
  at completion.
- The offset effect (`src/Carousel.js:133-136`) runs only when one of its
  dependencies changes. So `Frame` with the flag already clear does nothing,
  and new props move the track only when the stride changed.

Behaviour of the code worth knowing:

- The initial position is `loop ? 1 : 0` even when there are no items. In
  loop mode with an empty list the position is 1 on an empty render sequence
  (`Machine.Initial`).
- Outside loop mode `position` is never clamped. Autoplay and drag move it
  past `length - 1` (or below 0), and only the visual drag constraint limits
  the track; `Traces.UnloopedAutoplayRunsPastEnd` shows autoplay running past
  the last item. The range guarantee the code gives is the loop-mode
  correction at animation completion (`Machine.OnAnimationComplete`).
- New props do not re-initialise or re-clamp `position`, because the state
  hook reads its initial value only on mount (`Machine.OnProps`).
- When both drag directions qualify (for example offset -100 with velocity
  +600), the forward test is made first and wins (`Gesture.DragStepMirror`).
- With an empty render sequence the left drag bound is `+stride`, to the
  right of the right bound (`Geometry.DragBounds`).

## Model

| member | source | states |
|---|---|---|
| `Padding.RenderSequence` | src/Carousel.js:94-98 | without loop the render sequence is exactly the items; with loop, empty input gives empty output, and N items give N+2 with the last item first, the first item last and the items in order between |
| `Padding.RenderLength` | src/Carousel.js:94-98 | the render sequence has N+2 elements in loop mode with N > 0, and N otherwise |
| `Padding.LoopWindow` | src/Carousel.js:96-97 | in loop mode render index i (0 <= i < N+2) shows real item (i-1) mod N, so the padded track is a window of the cyclic list |
| `Padding.BoundaryTwins` | src/Carousel.js:97 | the trailing synthetic item equals render index 1 and the leading one equals render index N, the two positions the loop jump moves to |
| `Gesture.DragStep` | src/Carousel.js:157-159 | the step is +1 exactly when offset < -50 or velocity < -500; -1 exactly when that fails and offset > 50 or velocity > 500; 0 exactly when neither holds |
| `Gesture.DragStepMonotone` | src/Carousel.js:159 | a smaller offset and a smaller velocity never give a smaller step |
| `Gesture.DragStepMirror` | src/Carousel.js:159 | negating offset and velocity negates the step unless both directions qualify, in which case both give +1 (forward precedence) |
| `Gesture.DragStepExamples` | src/Carousel.js:157-159 | -51 px gives +1, 51 px gives -1, 10 px snaps back, a -600 px/s flick gives +1, values on the thresholds snap back |
| `Geometry.ItemWidth` | src/Carousel.js:90-91 | a card is `baseWidth - 32` wide: the viewport less 16 px of padding on each side |
| `Geometry.Stride` | src/Carousel.js:90-92 | the stride is `baseWidth - 16`: item width `baseWidth - 32` plus the 16 px gap |
| `Geometry.TargetOffset` | src/Carousel.js:135 | the track offset for a position, `-(position * stride)`: zero exactly at position 0 (or zero stride), and with a positive stride negative exactly for positions past 0 |
| `Geometry.TargetStep` | src/Carousel.js:135 | one position forward moves the target offset by exactly one stride to the left |
| `Geometry.DragBounds` | src/Carousel.js:181-184 | the right bound is 0 and the left bound is the target offset of render index length-1, for every length (so `+stride` for an empty sequence) |
| `Geometry.TargetWithinBounds` | src/Carousel.js:181-184 | with a positive stride and any length (including an empty sequence, whose bounds are inverted), a position's target lies within the drag bounds if and only if the position is a render index 0..length-1 |
| `Machine.Initial` | src/Carousel.js:100-104 | position starts at 1 in loop mode and 0 otherwise, flags clear, track at its target; on non-empty input the first real item is on screen; loop mode with no items starts at 1 on an empty sequence |
| `Machine.MoveTo` | src/Carousel.js:133-136 | a position change moves the track to `-(position * stride)` unless a jump is in progress, when the track is left where it is |
| `Machine.OnDragEnd` | src/Carousel.js:157-166 | the position changes by exactly the drag step; a zero step keeps the position and resets the track to the current target even during a jump; flags are unchanged |
| `Machine.TickArmed` | src/Carousel.js:123-124 | the interval runs exactly when autoplay is on, the render sequence has more than one item (two items, or one item in loop mode) and the carousel is not paused by hover |
| `Machine.OnAutoplayTick` | src/Carousel.js:122-131 | the position grows by 1 exactly when the interval is armed; with autoplay off, at most one render item, or paused by hover the state is unchanged |
| `Machine.OnAnimationStart` | src/Carousel.js:140 | raises `isAnimating` and changes nothing else |
| `Machine.JumpsAt` | src/Carousel.js:144-150 | completion jumps exactly in loop mode with at least one item, when the position is at or past N+1 or at or before 0 |
| `Machine.OnAnimationComplete` | src/Carousel.js:142-155 | clears `isAnimating`; outside loop mode or with length <= 1 the position is kept; on or past the last index it becomes 1, else on or before 0 it becomes length-2, with `isJumping` raised; in loop mode with N >= 1 the position afterwards lies in [1, N] |
| `Machine.OnFrame` | src/Carousel.js:149-153 | clears `isJumping` and, if it was set, snaps the track to the target of the corrected position; otherwise nothing changes |
| `Machine.OnHover` | src/Carousel.js:108-120 | records the hover state only when pause-on-hover is configured; nothing else changes |
| `Machine.OnProps` | src/Carousel.js:94-100 | new props keep the position; the track moves to the new target only when the stride changed and no jump is in progress |
| `Machine.JumpIsInvisible` | src/Carousel.js:142-155 | a jump from exactly a synthetic end lands on a real index whose item is the same one that was on screen |
| `Widget.Carousel.constructor` | src/Carousel.js:100-104 | the mounted component holds the props and the initial state |
| `Widget.Carousel.SetPosition` | src/Carousel.js:133-136 | updates the fields as `Machine.MoveTo` describes |
| `Widget.Carousel.DragEnd` | src/Carousel.js:157-166 | updates the fields as `Machine.OnDragEnd` describes; position grows by the drag step |
| `Widget.Carousel.AutoplayTick` | src/Carousel.js:122-131 | reports whether the interval was armed, and updates the fields as `Machine.OnAutoplayTick` describes |
| `Widget.Carousel.AnimationStart` | src/Carousel.js:140 | updates the fields as `Machine.OnAnimationStart` describes |
| `Widget.Carousel.AnimationComplete` | src/Carousel.js:142-155 | updates the fields as `Machine.OnAnimationComplete` describes; in loop mode with items the position ends in [1, N] |
| `Widget.Carousel.Frame` | src/Carousel.js:149-153 | updates the fields as `Machine.OnFrame` describes |
| `Widget.Carousel.SetHover` | src/Carousel.js:108-120 | updates the fields as `Machine.OnHover` describes |
| `Widget.Carousel.SetProps` | src/Carousel.js:94-100 | installs the new props and updates the fields as `Machine.OnProps` describes |
| `Traces.StepMoves` | src/Carousel.js:122-166 | every event moves the position by the step it asks for, except a completion that triggers a loop jump |
| `Traces.UnloopedPosition` | src/Carousel.js:122-166 | outside loop mode, after any run of events the position is the start plus the sum of the steps, with no clamping |
| `Traces.TicksAdvance` | src/Carousel.js:122-131 | while the interval is armed, k ticks advance the position by exactly k and put the track at the new target |
| `Traces.HoverPausesAutoplay` | src/Carousel.js:122-124 | with pause-on-hover and the pointer inside, any number of ticks changes nothing |
| `Traces.UnloopedAutoplayRunsPastEnd` | src/Carousel.js:122-131 | outside loop mode, N ticks from mount put the position at N, past the last item, with the track beyond the left drag bound, whether or not pause-on-hover is set |
| `Traces.LoopStepRealIndex` | src/Carousel.js:142-155 | in loop mode each event moves the real item index by its step modulo N, and a loop jump from a render index moves it by nothing |
| `Traces.LoopRealIndex` | src/Carousel.js:142-155 | in loop mode, after any run whose completions all fire on render indices, the real item index is the start's shifted by the sum of the steps, modulo N |
| `Traces.LoopShowsNetItem` | src/Carousel.js:94-155 | in loop mode from mount, when such a run ends on a render index, the item on screen is item (net steps mod N) |
| `Traces.JumpProtocol` | src/Carousel.js:133-155 | from the trailing synthetic item, whether or not a jump is already in progress, completion raises the flag and sets position 1 while the offset record stays put; the next frame clears the flag and snaps the track to position 1's target |
| `Traces.JumpProtocolLeading` | src/Carousel.js:133-155 | from the leading synthetic item, completion raises the flag and sets position N while the offset record stays put; the next frame clears the flag and snaps the track to position N's target |

## Left out

- Spring physics and the animation library (`SPRING_OPTIONS`, the `animate`
  and `transition` props): floating-point dynamics inside a library that is
  not part of this model. Animation start and completion are events. This
  includes the switch at src/Carousel.js:138, which while `isJumping` holds
  makes the `animate` prop move the track to the new target with zero
  duration. So `offset` records only the effect's `x.set` calls, the
  snap-back on release and the value reached at completion, not every
  position the screen shows; "left where it is" in the rows for
  `Machine.MoveTo` and `Traces.JumpProtocol` is about that record.
- The per-card `rotateY` and `zIndex` interpolation and `perspectiveOrigin`:
  continuous library transforms used only for display.
- All JSX and styling, including the `round` prop and the image-card branch.
- The `setInterval` timer, its `autoplayDelay` and phase, the mouse listeners,
  `requestAnimationFrame` and teardown: host scheduling. Ticks, hover changes
  and frames are events; nothing models the component after unmount.
- The track offset while a drag is in progress (the library moves it with the
  pointer); only the release is modelled.
- `isAnimating` is kept but never read, as in the code.
- Handlers capturing a stale `position` between renders: the model applies
  each event to the current state.
- `Traces.LoopRealIndex`: only covers runs in which every completion fires on
  a render index. When steps pile up past the trailing end before the track
  settles, the code resets to position 1 whatever the overshoot, so the real
  item index is not preserved then.
- src/FuzzyText.js is not part of this model (canvas rendering, random
  numbers, font measurement); src/App.js is not part of this model (page
  composition and static data).
