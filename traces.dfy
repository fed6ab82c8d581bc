/** Runs of the state machine over sequences of events, and what they keep:
    outside loop mode the position is the plain sum of the steps taken,
    while in loop mode the item on screen follows that sum modulo the
    number of items, however often the loop jump has fired. */
module Traces {
  import opened Padding
  import opened Gesture
  import opened Geometry
  import opened Machine

  /** The events the host delivers to the carousel, one at a time. */
  datatype Event =
    | DragEnd(dragOffset: real, velocity: real)
    | AutoplayTick
    | AnimationStart
    | AnimationComplete
    | Frame
    | Hover(hovered: bool)

  function Step<T>(c: Config<T>, s: State, e: Event): State {
    match e
    case DragEnd(o, v) => OnDragEnd(c, s, o, v)
    case AutoplayTick => OnAutoplayTick(c, s)
    case AnimationStart => OnAnimationStart(s)
    case AnimationComplete => OnAnimationComplete(c, s)
    case Frame => OnFrame(c, s)
    case Hover(h) => OnHover(c, s, h)
  }

  function Run<T>(c: Config<T>, s: State, es: seq<Event>): State
    decreases |es|
  {
    if es == [] then s else Run(c, Step(c, s, es[0]), es[1..])
  }

  /** The step an event asks for: a drag direction or an armed autoplay tick. */
  function Moves<T>(c: Config<T>, s: State, e: Event): int {
    match e
    case DragEnd(o, v) => DragStep(o, v)
    case AutoplayTick => if TickArmed(c, s) then 1 else 0
    case _ => 0
  }

  /** Sum of the steps asked for along a run. */
  function NetMoves<T>(c: Config<T>, s: State, es: seq<Event>): int
    decreases |es|
  {
    if es == [] then 0 else Moves(c, s, es[0]) + NetMoves(c, Step(c, s, es[0]), es[1..])
  }

  /** Every event moves the position by the step it asks for, except a
      completion that triggers a loop jump. */
  lemma StepMoves<T>(c: Config<T>, s: State, e: Event)
    ensures !(e.AnimationComplete? && JumpsAt(c, s.position)) ==>
      Step(c, s, e).position == s.position + Moves(c, s, e)
  {
  }

  /** Without loop mode nothing ever corrects the position: after any run
      it is the start plus the sum of the steps, with no clamping. */
  lemma {:induction false} UnloopedPosition<T>(c: Config<T>, s: State, es: seq<Event>)
    requires !c.loop
    ensures Run(c, s, es).position == s.position + NetMoves(c, s, es)
    decreases |es|
  {
    if es != [] {
      StepMoves(c, s, es[0]);
      UnloopedPosition(c, Step(c, s, es[0]), es[1..]);
    }
  }

  function Ticks(k: nat): (es: seq<Event>)
    ensures |es| == k && forall i :: 0 <= i < k ==> es[i] == AutoplayTick
  {
    if k == 0 then [] else [AutoplayTick] + Ticks(k - 1)
  }

  /** While the interval stays armed, k ticks advance the position by k and
      bring the track to the new target (when no jump is in progress). */
  lemma {:induction false} TicksAdvance<T>(c: Config<T>, s: State, k: nat)
    requires TickArmed(c, s)
    ensures var t := Run(c, s, Ticks(k));
      t.position == s.position + k && t.isHovered == s.isHovered && t.isJumping == s.isJumping &&
      (k > 0 && !s.isJumping ==> t.offset == Target(c, t.position))
    decreases k
  {
    if k > 0 {
      assert Ticks(k)[1..] == Ticks(k - 1);
      TicksAdvance(c, OnAutoplayTick(c, s), k - 1);
    }
  }

  /** While the pointer rests on a pause-on-hover carousel, no number of
      interval firings changes anything. */
  lemma {:induction false} HoverPausesAutoplay<T>(c: Config<T>, s: State, k: nat)
    requires c.pauseOnHover && s.isHovered
    ensures Run(c, s, Ticks(k)) == s
    decreases k
  {
    if k > 0 {
      assert Ticks(k)[1..] == Ticks(k - 1);
      HoverPausesAutoplay(c, s, k - 1);
    }
  }

  /** Outside loop mode autoplay runs off the end, with or without
      pause-on-hover: from mount, N ticks put
      the position at N, one past the last item, with the track target
      beyond the left drag bound. */
  lemma UnloopedAutoplayRunsPastEnd<T>(c: Config<T>)
    requires !c.loop && c.autoplay && |c.items| >= 2 && Stride(c.baseWidth) > 0
    ensures var t := Run(c, Initial(c), Ticks(|c.items|));
      t.position == |Render(c)| &&
      t.offset == Target(c, t.position) && t.offset < DragBounds(Stride(c.baseWidth), |Render(c)|).left
  {
    var n := |c.items|;
    TicksAdvance(c, Initial(c), n);
    TargetWithinBounds(n, Stride(c.baseWidth), n);
  }

  /** A run is aligned when every completion fires with the position on a
      rendered item, that is, no step was taken past a synthetic end while
      the track was still moving. */
  predicate Aligned<T>(c: Config<T>, s: State, es: seq<Event>)
    decreases |es|
  {
    es == [] ||
    ((es[0].AnimationComplete? ==> 0 <= s.position < |Render(c)|) && Aligned(c, Step(c, s, es[0]), es[1..]))
  }

  lemma ModShift(x: int, y: int, k: int, n: int)
    requires n > 0 && x % n == y % n
    ensures (x + k) % n == (y + k) % n
  {
    var q := x / n - y / n;
    assert x == n * (x / n) + x % n;
    assert y == n * (y / n) + y % n;
    assert x + k == (y + k) + n * q;
    ModAddMultiple(y + k, q, n);
  }

  lemma ModAddMultiple(a: int, q: int, n: int)
    requires n > 0
    ensures (a + n * q) % n == a % n
  {
    var r := a % n;
    assert a == n * (a / n) + r;
    assert a + n * q == n * (a / n + q) + r;
    DivModUnique(a + n * q, a / n + q, r, n);
  }

  lemma DivModUnique(m: int, d: int, r: int, n: int)
    requires n > 0 && 0 <= r < n && m == n * d + r
    ensures m % n == r
  {
    var d', r' := m / n, m % n;
    assert m == n * d' + r';
    var k := d - d';
    assert n * k == r' - r by {
      assert n * d - n * d' == n * k;
    }
    if k >= 1 {
      MulAtLeast(n, k);
    } else if k <= -1 {
      MulAtLeast(n, -k);
    }
  }

  lemma MulAtLeast(n: int, k: int)
    requires n > 0 && k >= 1
    ensures n * k >= n
  {
    assert n * k == n * (k - 1) + n;
  }

  /** One aligned event in loop mode moves the real item on screen by the
      step the event asks for; a loop jump moves it by nothing. */
  lemma LoopStepRealIndex<T>(c: Config<T>, s: State, e: Event)
    requires c.loop && |c.items| > 0
    requires e.AnimationComplete? ==> 0 <= s.position < |Render(c)|
    ensures RealIndex(|c.items|, Step(c, s, e).position) == RealIndex(|c.items|, s.position + Moves(c, s, e))
  {
    var n := |c.items|;
    StepMoves(c, s, e);
    if e.AnimationComplete? && JumpsAt(c, s.position) {
      if s.position == 0 {
        ModOfPredecessor(n);
        assert RealIndex(n, 0) == n - 1;
      } else {
        assert s.position == n + 1;
        DivModUnique(n, 1, 0, n);
      }
    }
  }

  /** In loop mode the real item on screen after an aligned run is the one
      at the start shifted by the sum of the steps, modulo the item count:
      the loop jumps are invisible in the index they show. */
  lemma {:induction false} LoopRealIndex<T>(c: Config<T>, s: State, es: seq<Event>)
    requires c.loop && |c.items| > 0 && Aligned(c, s, es)
    ensures RealIndex(|c.items|, Run(c, s, es).position) == RealIndex(|c.items|, s.position + NetMoves(c, s, es))
    decreases |es|
  {
    if es != [] {
      var n := |c.items|;
      var s1 := Step(c, s, es[0]);
      var m := Moves(c, s, es[0]);
      var rest := NetMoves(c, s1, es[1..]);
      LoopStepRealIndex(c, s, es[0]);
      LoopRealIndex(c, s1, es[1..]);
      ModShift(s1.position - 1, s.position + m - 1, rest, n);
      assert s.position + NetMoves(c, s, es) - 1 == s.position + m - 1 + rest;
    }
  }

  /** From mount, in loop mode, whenever an aligned run leaves the position
      on a rendered item, that item is the real item numbered by the net
      steps taken, modulo N. */
  lemma LoopShowsNetItem<T>(c: Config<T>, es: seq<Event>)
    requires c.loop && |c.items| > 0 && Aligned(c, Initial(c), es)
    requires 0 <= Run(c, Initial(c), es).position < |Render(c)|
    ensures Render(c)[Run(c, Initial(c), es).position] == c.items[NetMoves(c, Initial(c), es) % |c.items|]
  {
    var n := |c.items|;
    var t := Run(c, Initial(c), es);
    LoopRealIndex(c, Initial(c), es);
    LoopWindow(c.items, t.position);
  }

  /** The two-frame jump protocol from the trailing synthetic item: the
      completion raises the flag and corrects the position while the offset
      record stays put, and the next frame clears the flag and snaps the
      track to the real item's target. */
  lemma JumpProtocol<T>(c: Config<T>, s: State)
    requires c.loop && |c.items| > 0 && s.position == |c.items| + 1
    ensures var mid := Step(c, s, AnimationComplete);
      mid.isJumping && mid.position == 1 && mid.offset == Target(c, |c.items| + 1)
    ensures var t := Run(c, s, [AnimationComplete, Frame]);
      !t.isJumping && t.position == 1 && t.offset == Target(c, 1)
  {
    var mid := Step(c, s, AnimationComplete);
    assert Run(c, s, [AnimationComplete, Frame]) == Run(c, mid, [Frame]);
  }

  /** The same protocol from the leading synthetic item, which lands on the
      last real item N. */
  lemma JumpProtocolLeading<T>(c: Config<T>, s: State)
    requires c.loop && |c.items| > 0 && s.position == 0
    ensures var mid := Step(c, s, AnimationComplete);
      mid.isJumping && mid.position == |c.items| && mid.offset == Target(c, 0)
    ensures var t := Run(c, s, [AnimationComplete, Frame]);
      !t.isJumping && t.position == |c.items| && t.offset == Target(c, |c.items|)
  {
    var mid := Step(c, s, AnimationComplete);
    assert Run(c, s, [AnimationComplete, Frame]) == Run(c, mid, [Frame]);
  }
}
