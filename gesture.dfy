/** The drag-gesture interpreter: a release offset and velocity become a
    discrete step of +1 (advance), -1 (go back) or 0 (snap back). */
module Gesture {

  /** Distance, in pixels, a drag must exceed to count as a step. */
  const DRAG_BUFFER: real := 50.0
  /** Release speed, in pixels per second, that counts as a flick. */
  const VELOCITY_THRESHOLD: real := 500.0

  /** A release that asks to advance: dragged or flicked towards lower offsets. */
  predicate Forward(offset: real, velocity: real) {
    offset < -DRAG_BUFFER || velocity < -VELOCITY_THRESHOLD
  }

  /** A release that asks to go back: dragged or flicked towards higher offsets. */
  predicate Backward(offset: real, velocity: real) {
    offset > DRAG_BUFFER || velocity > VELOCITY_THRESHOLD
  }

  /** Direction chosen at drag end (src/Carousel.js:157-159); the forward
      test is made first, so it wins when both directions qualify. */
  function DragStep(offset: real, velocity: real): (d: int)
    ensures d == 1 || d == 0 || d == -1
    ensures d == 1 <==> Forward(offset, velocity)
    ensures d == -1 <==> !Forward(offset, velocity) && Backward(offset, velocity)
    ensures d == 0 <==> !Forward(offset, velocity) && !Backward(offset, velocity)
  {
    if Forward(offset, velocity) then 1
    else if Backward(offset, velocity) then -1
    else 0
  }

  /** Dragging further towards lower offsets, or flicking faster in that
      direction, never yields a smaller step. */
  lemma DragStepMonotone(o1: real, v1: real, o2: real, v2: real)
    requires o1 <= o2 && v1 <= v2
    ensures DragStep(o1, v1) >= DragStep(o2, v2)
  {
  }

  /** Mirror symmetry holds unless the two signals disagree, in which case
      the precedence of the forward test breaks it. */
  lemma DragStepMirror(offset: real, velocity: real)
    ensures !(Forward(offset, velocity) && Backward(offset, velocity)) ==>
      DragStep(-offset, -velocity) == -DragStep(offset, velocity)
    ensures Forward(offset, velocity) && Backward(offset, velocity) ==>
      DragStep(offset, velocity) == 1 && DragStep(-offset, -velocity) == 1
  {
  }

  /** Each signal alone is enough: a long slow drag and a short fast flick
      both step, and a short slow drag snaps back. */
  lemma DragStepExamples()
    ensures DragStep(-51.0, 0.0) == 1
    ensures DragStep(51.0, 0.0) == -1
    ensures DragStep(10.0, 0.0) == 0
    ensures DragStep(0.0, -600.0) == 1
    ensures DragStep(-50.0, -500.0) == 0
    ensures DragStep(-100.0, 600.0) == 1
  {
  }
}
