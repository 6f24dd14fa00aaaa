/**
 * Installing a looping driver on a cache file: the step both add-ons share
 * once they know the loop's start frame and period.
 */
module LoopDriver {
  import opened LoopExpression
  import opened Host

  /**
   * Reuses the cache's last driver, or adds one on `frame` when it has
   * none, switches the frame override on and writes the loop expression
   * for `startFrame` and `loopFrames` over the frame term. With no cache
   * (`None`) the first attribute read raises `AttributeError` and nothing
   * changes.
   */
  method SetLoopDriver(cache: CacheFile?, speed: real, offset: real, startFrame: int, loopFrames: int, show: real -> string)
    returns (outcome: Outcome)
    modifies cache
    ensures outcome == if cache == null then AttributeError else Returned
    ensures cache != null ==>
      && cache.overrideFrame && cache.objectPaths == old(cache.objectPaths)
      && cache.drivers == Installed(old(cache.drivers), Render(Synthesize(startFrame, loopFrames), FrameText(speed, offset, show)))
  {
    if cache == null {
      return AttributeError;
    }

    // Reuse the last driver; create a `frame` driver only when there is none.
    var index: int;
    if |cache.drivers| > 0 {
      index := |cache.drivers| - 1;
    } else {
      cache.drivers := cache.drivers + [Driver("frame", "")];
      index := 0;
    }

    cache.overrideFrame := true;
    var frameText := FrameText(speed, offset, show);
    var expression: string;
    if startFrame == 0 {
      // No hold: the frame wraps from the start.
      expression := Render(Wrap(loopFrames), frameText);
    } else {
      // Frames before `startFrame` play once, later ones wrap.
      expression := Render(HoldThenWrap(startFrame, loopFrames), frameText);
    }
    cache.drivers := cache.drivers[index := cache.drivers[index].(expression := expression)];
    outcome := Returned;
  }
}
