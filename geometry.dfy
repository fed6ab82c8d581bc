/** Track geometry: item width, the stride between neighbouring items, the
    offset the track settles at for a position, and the drag bounds. */
module Geometry {

  const CONTAINER_PADDING: int := 16
  const GAP: int := 16

  /** Width of one card (src/Carousel.js:90-91). */
  function ItemWidth(baseWidth: int): (w: int)
    ensures w == baseWidth - 32
  {
    baseWidth - CONTAINER_PADDING * 2
  }

  /** Distance between the left edges of neighbouring cards (src/Carousel.js:92). */
  function Stride(baseWidth: int): (s: int)
    ensures s == baseWidth - 16
  {
    ItemWidth(baseWidth) + GAP
  }

  /** Offset of the track when `position` is the current render index
      (src/Carousel.js:135, 162, 193). */
  function TargetOffset(position: int, stride: int): (x: int)
    ensures x == 0 <==> position == 0 || stride == 0
    ensures stride > 0 ==> (x < 0 <==> position > 0)
  {
    -(position * stride)
  }

  /** Moving one position forward shifts the target by exactly one stride. */
  lemma TargetStep(position: int, stride: int)
    ensures TargetOffset(position + 1, stride) == TargetOffset(position, stride) - stride
  {
  }

  /** Left and right limits the track may be dragged to (src/Carousel.js:181-184). */
  datatype Bounds = Bounds(left: int, right: int)

  function DragBounds(stride: int, length: int): (b: Bounds)
    ensures b.right == 0
    ensures b.left == TargetOffset(length - 1, stride)
  {
    Bounds(-stride * (length - 1), 0)
  }

  /** With a positive stride the drag bounds hold exactly the targets of the
      rendered positions 0 .. length-1; for an empty sequence the bounds are
      inverted and hold no target at all. */
  lemma TargetWithinBounds(position: int, stride: int, length: nat)
    requires stride > 0
    ensures DragBounds(stride, length).left <= TargetOffset(position, stride) <= DragBounds(stride, length).right
        <==> 0 <= position <= length - 1
  {
  }
}
