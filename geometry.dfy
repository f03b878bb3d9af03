/**
 * Placement of the highlighted message and its reaction bar.
 * A `CGRect` is modelled with `real` coordinates; the y axis grows downwards,
 * as on screen, so a small `minY` means "near the top of the list".
 */
module Geometry {

  /** A resolved frame: origin and size. Like a `CGRect`, its size may be negative. */
  datatype Rect = Rect(x: real, y: real, width: real, height: real)

  datatype Point = Point(x: real, y: real)

  /** Frames whose top edge lies above this line shift down instead of up. */
  const MoveDownThreshold: real := 100.0

  /** How far the highlighted message shifts once `overlayAnimating` holds. */
  const ShiftDistance: real := 50.0

  /** How far above the highlighted message the reaction bar sits. */
  const ReactionBarLift: real := 60.0

  /** `CGRect.minY`: the upper of the two horizontal edges, whatever the sign of the height. */
  function MinY(r: Rect): (top: real)
    ensures top <= r.y && top <= r.y + r.height
    ensures top == r.y || top == r.y + r.height
  {
    if r.height < 0.0 then r.y + r.height else r.y
  }

  /** `CGRect.midX`: equally far from both vertical edges. */
  function MidX(r: Rect): (mid: real)
    ensures mid - r.x == (r.x + r.width) - mid
  {
    r.x + r.width / 2.0
  }

  /** `CGRect.midY`: equally far from both horizontal edges. */
  function MidY(r: Rect): (mid: real)
    ensures mid - r.y == (r.y + r.height) - mid
    ensures MinY(r) <= mid
  {
    r.y + r.height / 2.0
  }

  /** `shouldMoveDown`: the frame's top edge is closer than the threshold to the top of the list. */
  function ShouldMoveDown(frame: Rect): (down: bool)
    ensures down <==> frame.y < MoveDownThreshold || frame.y + frame.height < MoveDownThreshold
  {
    MinY(frame) < MoveDownThreshold
  }

  /** Vertical offset added to `midY` in the `.position` of the highlighted message. */
  function Displacement(frame: Rect, overlayAnimating: bool): (dy: real)
    ensures dy == 0.0 || dy == ShiftDistance || dy == -ShiftDistance
    ensures dy == 0.0 <==> !overlayAnimating
    ensures overlayAnimating ==> (dy > 0.0 <==> MinY(frame) < MoveDownThreshold)
  {
    if overlayAnimating then
      if ShouldMoveDown(frame) then ShiftDistance else -ShiftDistance
    else
      0.0
  }

  /** The `.position` of the highlighted message. */
  function OverlayPosition(frame: Rect, overlayAnimating: bool): Point
  {
    Point(MidX(frame), MidY(frame) + Displacement(frame, overlayAnimating))
  }

  /** Centre of the reaction bar: the overlay of the highlighted message, offset upwards. */
  function ReactionBarCenter(frame: Rect, overlayAnimating: bool): Point
  {
    var p := OverlayPosition(frame, overlayAnimating);
    Point(p.x, p.y - ReactionBarLift)
  }

  /** The three placements: centred in place before the shift, then 50 down near the top, 50 up elsewhere. */
  lemma OverlayPlacement(frame: Rect, overlayAnimating: bool)
    ensures OverlayPosition(frame, overlayAnimating).x == MidX(frame)
    ensures !overlayAnimating ==> OverlayPosition(frame, overlayAnimating).y == MidY(frame)
    ensures overlayAnimating && MinY(frame) < 100.0 ==>
              OverlayPosition(frame, overlayAnimating).y == MidY(frame) + 50.0
    ensures overlayAnimating && MinY(frame) >= 100.0 ==>
              OverlayPosition(frame, overlayAnimating).y == MidY(frame) - 50.0
  {
  }

  /**
   * Once shifted, the message moves 50 down when its top is above y = 100 and 50 up
   * otherwise, whatever the height of the list; the horizontal placement never moves.
   */
  lemma ShiftDirection(frame: Rect)
    ensures OverlayPosition(frame, true).x == OverlayPosition(frame, false).x
    ensures ShouldMoveDown(frame) <==> OverlayPosition(frame, true).y > OverlayPosition(frame, false).y
    ensures !ShouldMoveDown(frame) <==> OverlayPosition(frame, true).y < OverlayPosition(frame, false).y
  {
  }

  /**
   * The reaction bar sits 60 above the shifted message: 10 above the original centre
   * when the message moved down, 110 above it when the message moved up.
   */
  lemma ReactionBarPlacement(frame: Rect)
    ensures ReactionBarCenter(frame, true).x == MidX(frame)
    ensures ReactionBarCenter(frame, true).y < OverlayPosition(frame, true).y
    ensures ShouldMoveDown(frame) ==> ReactionBarCenter(frame, true).y == MidY(frame) - 10.0
    ensures !ShouldMoveDown(frame) ==> ReactionBarCenter(frame, true).y == MidY(frame) - 110.0
  {
  }

  /** A frame whose top is at 50 shifts down; one whose top is at 200 shifts up. */
  lemma ThresholdExamples()
    ensures ShouldMoveDown(Rect(0.0, 50.0, 320.0, 44.0))
    ensures !ShouldMoveDown(Rect(0.0, 200.0, 320.0, 44.0))
    ensures ShouldMoveDown(Rect(0.0, 120.0, 320.0, -44.0))
  {
  }
}
