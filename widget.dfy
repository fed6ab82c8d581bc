/** The carousel component as an object whose event handlers update its
    state fields in place. Each method is proved to leave exactly the state
    the matching transition function of module Machine describes. */
module Widget {
  import opened Gesture
  import opened Geometry
  import opened Machine

  class Carousel<T> {
    var config: Config<T>
    var position: int
    var offset: int
    var isHovered: bool
    var isJumping: bool
    var isAnimating: bool

    /** The fields, read as one state record. */
    function Snapshot(): State
      reads this
    {
      State(position, offset, isHovered, isJumping, isAnimating)
    }

    /** Mount (src/Carousel.js:100-104, 133-136). */
    constructor (c: Config<T>)
      ensures config == c && Snapshot() == Initial(c)
    {
      var p := if c.loop then 1 else 0;
      config := c;
      position := p;
      isHovered, isJumping, isAnimating := false, false, false;
      offset := TargetOffset(p, Stride(c.baseWidth));
    }

    /** Shared tail of the handlers that change `position`: the offset
        effect of src/Carousel.js:133-136. */
    method SetPosition(p: int)
      modifies this
      ensures config == old(config)
      ensures Snapshot() == MoveTo(config, old(Snapshot()), p)
    {
      position := p;
      if !isJumping {
        offset := TargetOffset(position, Stride(config.baseWidth));
      }
    }

    /** src/Carousel.js:157-166 */
    method DragEnd(dragOffset: real, velocity: real)
      modifies this
      ensures config == old(config)
      ensures Snapshot() == OnDragEnd(config, old(Snapshot()), dragOffset, velocity)
      ensures position == old(position) + DragStep(dragOffset, velocity)
    {
      var direction := DragStep(dragOffset, velocity);
      if direction == 0 {
        offset := TargetOffset(position, Stride(config.baseWidth));
        return;
      }
      SetPosition(position + direction);
    }

    /** src/Carousel.js:122-131: the interval fires only while it is armed.
        Returns whether it was. */
    method AutoplayTick() returns (fired: bool)
      modifies this
      ensures config == old(config)
      ensures fired == TickArmed(config, old(Snapshot()))
      ensures Snapshot() == OnAutoplayTick(config, old(Snapshot()))
      ensures position == old(position) + (if fired then 1 else 0)
    {
      fired := TickArmed(config, Snapshot());
      if fired {
        SetPosition(position + 1);
      }
    }

    /** src/Carousel.js:140 */
    method AnimationStart()
      modifies this
      ensures config == old(config)
      ensures Snapshot() == OnAnimationStart(old(Snapshot()))
    {
      isAnimating := true;
    }

    /** src/Carousel.js:142-155, where completion means the track has reached
        the target of the current position. */
    method AnimationComplete()
      modifies this
      ensures config == old(config)
      ensures Snapshot() == OnAnimationComplete(config, old(Snapshot()))
      ensures config.loop && |config.items| > 0 ==> 1 <= position <= |config.items|
    {
      isAnimating := false;
      offset := TargetOffset(position, Stride(config.baseWidth));
      var length := |Render(config)|;
      if !config.loop || length <= 1 {
        return;
      }
      if position >= length - 1 {
        isJumping := true;
        position := 1;
      } else if position <= 0 {
        isJumping := true;
        position := length - 2;
      }
    }

    /** The animation frame requested by a loop jump (src/Carousel.js:149, 153). */
    method Frame()
      modifies this
      ensures config == old(config)
      ensures Snapshot() == OnFrame(config, old(Snapshot()))
    {
      if isJumping {
        isJumping := false;
        offset := TargetOffset(position, Stride(config.baseWidth));
      }
    }

    /** Mouse enter (`true`) or leave (`false`) (src/Carousel.js:108-120). */
    method SetHover(hovered: bool)
      modifies this
      ensures config == old(config)
      ensures Snapshot() == OnHover(config, old(Snapshot()), hovered)
    {
      if config.pauseOnHover {
        isHovered := hovered;
      }
    }

    /** The parent re-renders with new props. */
    method SetProps(c: Config<T>)
      modifies this
      ensures config == c
      ensures Snapshot() == OnProps(old(config), c, old(Snapshot()))
    {
      var strideChanged := Stride(c.baseWidth) != Stride(config.baseWidth);
      config := c;
      if strideChanged && !isJumping {
        offset := TargetOffset(position, Stride(c.baseWidth));
      }
    }
  }
}
