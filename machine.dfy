/** The carousel's position state machine as pure transition functions: one
    function per event, each giving the state after the event's handler and
    the effects it triggers have run. The class in module Widget is proved
    against these functions. */
module Machine {
  import opened Padding
  import opened Gesture
  import opened Geometry

  /** The props the state logic reads (src/Carousel.js:81-89). */
  datatype Config<T> = Config(items: seq<T>, baseWidth: int, autoplay: bool, pauseOnHover: bool, loop: bool)

  /** The component's mutable state: the `position` index, the track offset
      `x` in pixels, and the three flags (src/Carousel.js:100-104). */
  datatype State = State(position: int, offset: int, isHovered: bool, isJumping: bool, isAnimating: bool)

  function Render<T>(c: Config<T>): seq<T> {
    RenderSequence(c.items, c.loop)
  }

  function Target<T>(c: Config<T>, position: int): int {
    TargetOffset(position, Stride(c.baseWidth))
  }

  /** State on mount (src/Carousel.js:100-104, with the effect at 133-136
      setting the offset once). */
  function Initial<T>(c: Config<T>): (s: State)
    ensures s.position == (if c.loop then 1 else 0)
    ensures s.offset == Target(c, s.position)
    ensures !s.isHovered && !s.isJumping && !s.isAnimating
    // On non-empty input the first real item is the one on screen.
    ensures |c.items| > 0 ==> 0 <= s.position < |Render(c)| && Render(c)[s.position] == c.items[0]
    // Loop mode with no items starts one past the end of an empty sequence.
    ensures c.loop && |c.items| == 0 ==> |Render(c)| == 0 && s.position == 1
  {
    var p := if c.loop then 1 else 0;
    State(p, Target(c, p), false, false, false)
  }

  /** Moving to `p` re-runs the offset effect (src/Carousel.js:133-136),
      which does nothing while a loop jump is in progress. */
  function MoveTo<T>(c: Config<T>, s: State, p: int): (t: State)
    ensures t.position == p
    ensures t.offset == if s.isJumping then s.offset else Target(c, p)
    ensures t.isHovered == s.isHovered && t.isJumping == s.isJumping && t.isAnimating == s.isAnimating
  {
    s.(position := p, offset := if s.isJumping then s.offset else Target(c, p))
  }

  /** Drag release (src/Carousel.js:157-166). */
  function OnDragEnd<T>(c: Config<T>, s: State, offset: real, velocity: real): (t: State)
    ensures t.position == s.position + DragStep(offset, velocity)
    // A snap-back leaves the position and resets the track to its target,
    // whether or not a jump is in progress.
    ensures DragStep(offset, velocity) == 0 ==> t == s.(offset := Target(c, s.position))
    ensures DragStep(offset, velocity) != 0 && !s.isJumping ==> t.offset == Target(c, t.position)
    ensures DragStep(offset, velocity) != 0 && s.isJumping ==> t.offset == s.offset
    ensures t.isHovered == s.isHovered && t.isJumping == s.isJumping && t.isAnimating == s.isAnimating
  {
    var d := DragStep(offset, velocity);
    if d == 0 then s.(offset := Target(c, s.position))
    else MoveTo(c, s, s.position + d)
  }

  /** Whether an autoplay interval is running (src/Carousel.js:122-125). */
  function TickArmed<T>(c: Config<T>, s: State): (armed: bool)
    // In loop mode a single item is enough, since padding renders three.
    ensures armed <==> c.autoplay && (|c.items| > 1 || (c.loop && |c.items| == 1)) && !(c.pauseOnHover && s.isHovered)
  {
    c.autoplay && |Render(c)| > 1 && !(c.pauseOnHover && s.isHovered)
  }

  /** One autoplay interval firing (src/Carousel.js:126-128). With no armed
      interval there is no timer, so nothing happens. */
  function OnAutoplayTick<T>(c: Config<T>, s: State): (t: State)
    ensures t.position == s.position + (if TickArmed(c, s) then 1 else 0)
    ensures !c.autoplay ==> t == s
    ensures |Render(c)| <= 1 ==> t == s
    ensures c.pauseOnHover && s.isHovered ==> t == s
    ensures TickArmed(c, s) && !s.isJumping ==> t.offset == Target(c, t.position)
    ensures !TickArmed(c, s) || s.isJumping ==> t.offset == s.offset
    ensures t.isHovered == s.isHovered && t.isJumping == s.isJumping && t.isAnimating == s.isAnimating
  {
    if TickArmed(c, s) then MoveTo(c, s, s.position + 1) else s
  }

  /** The track starts animating towards a new target (src/Carousel.js:140). */
  function OnAnimationStart(s: State): (t: State)
    ensures t.isAnimating
    ensures t.position == s.position && t.offset == s.offset
    ensures t.isHovered == s.isHovered && t.isJumping == s.isJumping
  {
    s.(isAnimating := true)
  }

  /** Whether completing at `position` triggers a loop jump (src/Carousel.js:144-150). */
  function JumpsAt<T>(c: Config<T>, position: int): (jumps: bool)
    ensures jumps <==> c.loop && |c.items| > 0 && (position >= |c.items| + 1 || position <= 0)
  {
    c.loop && |Render(c)| > 1 && (position >= |Render(c)| - 1 || position <= 0)
  }

  /** The track has settled at the target of the current position
      (src/Carousel.js:142-155). In loop mode a position on or past either
      synthetic end is replaced by the matching real position and the jump
      flag is raised, so that the offset effect leaves the track where it is. */
  function OnAnimationComplete<T>(c: Config<T>, s: State): (t: State)
    ensures !t.isAnimating && t.isHovered == s.isHovered
    ensures t.offset == Target(c, s.position)
    ensures !JumpsAt(c, s.position) ==> t.position == s.position && t.isJumping == s.isJumping
    ensures JumpsAt(c, s.position) ==> t.isJumping
    ensures c.loop && |Render(c)| > 1 && s.position >= |Render(c)| - 1 ==> t.position == 1
    ensures c.loop && |Render(c)| > 1 && s.position <= 0 ==> t.position == |Render(c)| - 2
    // The range guarantee: in loop mode the settled position is a real item.
    ensures c.loop && |c.items| > 0 ==> 1 <= t.position <= |c.items|
  {
    var settled := s.(isAnimating := false, offset := Target(c, s.position));
    var n := |Render(c)|;
    if !c.loop || n <= 1 then settled
    else if s.position >= n - 1 then settled.(position := 1, isJumping := true)
    else if s.position <= 0 then settled.(position := n - 2, isJumping := true)
    else settled
  }

  /** The animation frame after a jump clears the flag (src/Carousel.js:149,
      153); the offset effect then runs again and snaps the track to the
      target of the corrected position. If the flag is already clear nothing
      re-renders. */
  function OnFrame<T>(c: Config<T>, s: State): (t: State)
    ensures !t.isJumping
    ensures t.position == s.position && t.isHovered == s.isHovered && t.isAnimating == s.isAnimating
    ensures s.isJumping ==> t.offset == Target(c, s.position)
    ensures !s.isJumping ==> t == s
  {
    if s.isJumping then s.(isJumping := false, offset := Target(c, s.position)) else s
  }

  /** Pointer entering or leaving the container (src/Carousel.js:108-120);
      the listeners exist only when pause-on-hover is configured. */
  function OnHover<T>(c: Config<T>, s: State, hovered: bool): (t: State)
    ensures t.isHovered == (if c.pauseOnHover then hovered else s.isHovered)
    ensures t.position == s.position && t.offset == s.offset
    ensures t.isJumping == s.isJumping && t.isAnimating == s.isAnimating
  {
    if c.pauseOnHover then s.(isHovered := hovered) else s
  }

  /** New props (src/Carousel.js:94-100, 131, 136): the render sequence is
      recomputed but `position` keeps its value, since the initial value
      passed to the state hook is read only on mount. The offset effect runs
      again only when the stride changed. */
  function OnProps<T>(old_c: Config<T>, c: Config<T>, s: State): (t: State)
    ensures t.position == s.position
    ensures Stride(c.baseWidth) != Stride(old_c.baseWidth) && !s.isJumping ==> t.offset == Target(c, s.position)
    ensures Stride(c.baseWidth) == Stride(old_c.baseWidth) || s.isJumping ==> t.offset == s.offset
    ensures t.isHovered == s.isHovered && t.isJumping == s.isJumping && t.isAnimating == s.isAnimating
  {
    if Stride(c.baseWidth) != Stride(old_c.baseWidth) && !s.isJumping then s.(offset := Target(c, s.position)) else s
  }

  /** A loop jump from exactly the synthetic end keeps the same item on
      screen: the item at the old position equals the item at the new one. */
  lemma JumpIsInvisible<T>(c: Config<T>, s: State)
    requires c.loop && |c.items| > 0
    requires s.position == 0 || s.position == |c.items| + 1
    ensures var t := OnAnimationComplete(c, s);
      t.isJumping && 1 <= t.position <= |c.items| && Render(c)[t.position] == Render(c)[s.position]
  {
    BoundaryTwins(c.items);
  }
}
