/**
 * The score card's gesture recogniser (`hooks/useScoreGestures.ts`): a pointer-down stores where
 * and when the touch began, and the pointer-up classifies the movement as a tap, a vertical swipe
 * or nothing, calling at most one of the score callbacks.
 */
module Gestures {
  import opened Types

  /** `SWIPE_THRESHOLD`, `TAP_MAX_DURATION_MS` and `TAP_MAX_MOVE`. */
  const SwipeThreshold: int := 50
  const TapMaxDuration: int := 800
  const TapMaxMove: int := 40

  datatype Gesture = Tap | SwipeUp | SwipeDown | NoGesture

  /**
   * The callbacks a handler requests, in order. `onInteractionStart` and `onInteractionEnd` are
   * optional props: `InteractionStart` and `InteractionEnd` are called only when the card passes
   * them, and are no-ops otherwise.
   */
  datatype Callback = InteractionStart | InteractionEnd | OnAdd | OnSubtract

  function Abs(x: int): (r: int)
    ensures r >= 0 && (r == x || r == -x)
  {
    if x < 0 then -x else x
  }

  /** The decision of `handlePointerUp` from the movement (`dy < 0` is upwards) and the elapsed time. */
  function Classify(dx: int, dy: int, dt: int): Gesture
  {
    if dt < TapMaxDuration && Abs(dx) < TapMaxMove && Abs(dy) < TapMaxMove then Tap
    else if Abs(dy) > SwipeThreshold && Abs(dy) > Abs(dx) then (if dy < 0 then SwipeUp else SwipeDown)
    else NoGesture
  }

  /** The score callback a gesture calls: a tap and an upward swipe add, a downward swipe subtracts. */
  function Fire(g: Gesture): (r: seq<Callback>)
    ensures |r| <= 1
    ensures r == [] <==> g == NoGesture
    ensures forall c :: c in r ==> c == OnAdd || c == OnSubtract
  {
    match g
    case Tap => [OnAdd]
    case SwipeUp => [OnAdd]
    case SwipeDown => [OnSubtract]
    case NoGesture => []
  }

  /** A quick release that barely moved is a tap; a slow one that barely moved does nothing. */
  lemma SmallMoves(dx: int, dy: int, dt: int)
    requires Abs(dx) < TapMaxMove && Abs(dy) < TapMaxMove
    ensures dt < TapMaxDuration ==> Fire(Classify(dx, dy, dt)) == [OnAdd]
    ensures dt >= TapMaxDuration ==> Classify(dx, dy, dt) == NoGesture
  {
  }

  /**
   * Outside a tap, a release is a swipe exactly when it moved more than 50 vertically and more
   * vertically than horizontally; mirroring the vertical movement turns an upward swipe into a
   * downward one and back, so swiping up adds and swiping down subtracts.
   */
  lemma SwipeMirror(dx: int, dy: int, dt: int)
    ensures Classify(dx, dy, dt) == SwipeUp <==> Classify(dx, -dy, dt) == SwipeDown
    ensures Classify(dx, dy, dt) != Tap ==>
      ((Classify(dx, dy, dt) == SwipeUp || Classify(dx, dy, dt) == SwipeDown) <==> Abs(dy) > SwipeThreshold && Abs(dy) > Abs(dx))
    ensures Classify(dx, dy, dt) == SwipeUp ==> dy < -SwipeThreshold
    ensures Classify(dx, dy, dt) == SwipeDown ==> dy > SwipeThreshold
  {
    assert Abs(-dy) == Abs(dy);
  }

  /** A tap never moves as far as a swipe must: the two rules never compete. */
  lemma TapNotSwipe(dx: int, dy: int, dt: int)
    ensures Classify(dx, dy, dt) == Tap ==> !(Abs(dy) > SwipeThreshold)
  {
  }

  /** The three start refs of the hook. */
  class ScoreGestures {
    var startX: Option<int>
    var startY: Option<int>
    var startTime: Option<int>

    /** No touch is in progress. */
    predicate Cleared()
      reads this
    {
      startX.None? && startY.None? && startTime.None?
    }

    /** The refs are set together and cleared together. */
    predicate Valid()
      reads this
    {
      Cleared() || (startX.Some? && startY.Some? && startTime.Some?)
    }

    constructor()
      ensures Cleared()
    {
      startX, startY, startTime := None, None, None;
    }

    /** `handlePointerDown`: ignored while the card is locked; otherwise records the touch. */
    method PointerDown(isLocked: bool, x: int, y: int, now: int) returns (calls: seq<Callback>)
      modifies this
      ensures isLocked ==> calls == [] && unchanged(this)
      ensures !isLocked ==> calls == [InteractionStart] && startX == Some(x) && startY == Some(y) && startTime == Some(now)
      ensures old(Valid()) ==> Valid()
    {
      if isLocked {
        return [];
      }
      calls := [InteractionStart];
      startX, startY, startTime := Some(x), Some(y), Some(now);
    }

    /**
     * `handlePointerUp`: always ends the interaction; with a touch recorded, calls the callback of
     * the classified gesture, and forgets the touch.
     */
    method PointerUp(x: int, y: int, now: int) returns (calls: seq<Callback>)
      requires Valid()
      modifies this
      ensures Cleared()
      ensures old(Cleared()) ==> calls == [InteractionEnd]
      ensures !old(Cleared()) ==>
        calls == [InteractionEnd] + Fire(Classify(x - old(startX).value, y - old(startY).value, now - old(startTime).value))
    {
      calls := [InteractionEnd];
      if startX.None? || startY.None? || startTime.None? {
        return;
      }
      var deltaTime := now - startTime.value;
      var deltaX := x - startX.value;
      var deltaY := y - startY.value;
      var absDeltaX := Abs(deltaX);
      var absDeltaY := Abs(deltaY);
      if deltaTime < TapMaxDuration && absDeltaX < TapMaxMove && absDeltaY < TapMaxMove {
        calls := calls + [OnAdd];
      } else if absDeltaY > SwipeThreshold && absDeltaY > absDeltaX {
        if deltaY < 0 {
          calls := calls + [OnAdd];
        } else {
          calls := calls + [OnSubtract];
        }
      }
      startX, startY, startTime := None, None, None;
    }

    /** `handlePointerCancel`: ends the interaction and forgets the touch. */
    method PointerCancel() returns (calls: seq<Callback>)
      modifies this
      ensures calls == [InteractionEnd] && Cleared()
    {
      calls := [InteractionEnd];
      startX, startY, startTime := None, None, None;
    }
  }

  /** With no touch in progress, a locked pointer-down and the release after it change no score. */
  method LockedPressScoresNothing(g: ScoreGestures, x0: int, y0: int, t0: int, x1: int, y1: int, t1: int)
    returns (calls: seq<Callback>)
    requires g.Cleared()
    modifies g
    ensures calls == [InteractionEnd]
  {
    var down := g.PointerDown(true, x0, y0, t0);
    calls := g.PointerUp(x1, y1, t1);
    calls := down + calls;
  }
}
