/**
 * Horizontal swipe detection: a touch start records where the finger went down, a
 * touch end classifies the displacement and fires the left or right callback.
 */
module SwipeNavigation {
  import opened Base

  /** The callback a gesture fires. */
  datatype Direction = SwipeLeft | SwipeRight

  /** The hook's options as they stand at the time of an event. */
  datatype SwipeOptions = SwipeOptions(minDistance: real, enabled: bool)

  /** Pixels a finger must travel horizontally, when the caller gives no `minDistance`. */
  const DefaultMinDistance: real := 50.0

  /** The options with every default taken. */
  const Defaults: SwipeOptions := SwipeOptions(DefaultMinDistance, true)

  function Abs(x: real): real
  {
    if x < 0.0 then -x else x
  }

  /**
   * The callbacks a touch end fires, in order, for a displacement (dx, dy): nothing for
   * a mostly vertical gesture, left from -minDistance down, right from minDistance up.
   */
  function Classify(dx: real, dy: real, minDistance: real): (fired: seq<Direction>)
    ensures Abs(dy) > Abs(dx) ==> fired == []
    ensures SwipeLeft in fired <==> Abs(dy) <= Abs(dx) && dx <= -minDistance
    ensures SwipeRight in fired <==> Abs(dy) <= Abs(dx) && dx >= minDistance
    ensures minDistance > 0.0 ==> |fired| <= 1
    ensures Abs(dx) < minDistance ==> fired == []
  {
    if Abs(dy) > Abs(dx) then []
    else
      (if dx <= -minDistance then [SwipeLeft] else []) +
      (if dx >= minDistance then [SwipeRight] else [])
  }

  /** The two touch-start refs. */
  class SwipeState {
    var touchStartX: Option<real>
    var touchStartY: Option<real>

    constructor ()
      ensures touchStartX == None && touchStartY == None
    {
      touchStartX := None;
      touchStartY := None;
    }

    /** `onTouchStart`: records the position only when enabled. */
    method OnTouchStart(opts: SwipeOptions, x: real, y: real)
      modifies this
      ensures !opts.enabled ==> touchStartX == old(touchStartX) && touchStartY == old(touchStartY)
      ensures opts.enabled ==> touchStartX == Some(x) && touchStartY == Some(y)
    {
      if !opts.enabled {
        return;
      }
      touchStartX := Some(x);
      touchStartY := Some(y);
    }

    /**
     * `onTouchEnd`: nothing when disabled or without a recorded start; a mostly
     * vertical gesture fires nothing and keeps the start; any other gesture is
     * classified and then clears both refs.
     */
    method OnTouchEnd(opts: SwipeOptions, x: real, y: real) returns (fired: seq<Direction>)
      modifies this
      ensures !opts.enabled || old(touchStartX).None? || old(touchStartY).None? ==>
                fired == [] && touchStartX == old(touchStartX) && touchStartY == old(touchStartY)
      ensures opts.enabled && old(touchStartX).Some? && old(touchStartY).Some? ==>
                var dx, dy := x - old(touchStartX).value, y - old(touchStartY).value;
                fired == Classify(dx, dy, opts.minDistance) &&
                if Abs(dy) > Abs(dx) then touchStartX == old(touchStartX) && touchStartY == old(touchStartY)
                else touchStartX == None && touchStartY == None
    {
      if !opts.enabled || touchStartX.None? || touchStartY.None? {
        return [];
      }
      var dx := x - touchStartX.value;
      var dy := y - touchStartY.value;
      if Abs(dy) > Abs(dx) {
        return [];
      }
      fired := [];
      if dx <= -opts.minDistance {
        fired := fired + [SwipeLeft];
      }
      if dx >= opts.minDistance {
        fired := fired + [SwipeRight];
      }
      touchStartX := None;
      touchStartY := None;
    }
  }

  /** With the default options, a 60-pixel drag to the left fires exactly the left callback. */
  lemma DefaultLeftSwipe()
    ensures Defaults.minDistance == 50.0 && Defaults.enabled
    ensures Classify(-60.0, 10.0, Defaults.minDistance) == [SwipeLeft]
  {
  }
}
