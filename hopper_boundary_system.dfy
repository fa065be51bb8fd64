/** The hopper boundary system: raises a game event when the hopper has
    fallen below the bottom of the screen, with some margin. */
module HopperBoundary {
  import opened Common

  /** Offset of the boundary from the screen's bottom edge; being negative,
      it puts the boundary above the edge. */
  const HopperLowerYBoundary: real := -10.0

  /** The events specific to this game (`GameEvent`). */
  datatype GameEvent = PlayerOutOfBounds

  /** The lowest height the hopper may be at with the camera at `cameraY`
      and a screen `screenHeight` high. */
  function LowerBoundary(cameraY: real, screenHeight: real): (r: real)
    // half a screen below the camera, then ten units back up
    ensures r == cameraY - screenHeight / 2.0 + 10.0
    ensures r < cameraY <==> screenHeight > 20.0
  {
    cameraY - screenHeight / 2.0 - HopperLowerYBoundary
  }

  /** The events one run writes. */
  function OutOfBoundsEvents(hopperY: real, cameraY: real, screenHeight: real): (r: seq<GameEvent>)
    ensures |r| <= 1
    ensures r != [] <==> hopperY < cameraY - screenHeight / 2.0 + 10.0
    ensures r != [] ==> r == [PlayerOutOfBounds]
  {
    if hopperY < LowerBoundary(cameraY, screenHeight) then [PlayerOutOfBounds] else []
  }

  /** A hopper level with or above the camera is in bounds on any screen
      taller than twenty units. */
  lemma AtCameraInBounds(hopperY: real, cameraY: real, screenHeight: real)
    requires screenHeight > 20.0 && hopperY >= cameraY
    ensures OutOfBoundsEvents(hopperY, cameraY, screenHeight) == []
  {
  }

  /** Lower is worse: a hopper below one that is out of bounds is out of
      bounds too. */
  lemma OutOfBoundsDownwardClosed(hopperY: real, lowerY: real, cameraY: real, screenHeight: real)
    requires lowerY <= hopperY
    requires OutOfBoundsEvents(hopperY, cameraY, screenHeight) != []
    ensures OutOfBoundsEvents(lowerY, cameraY, screenHeight) != []
  {
  }

  /** `HopperBoundarySystem::run`: the transforms are only read. */
  method Run(player: Entity, camera: Entity, screenHeight: real, transforms: map<Entity, Transform>,
             eventChannel: EventChannel<GameEvent>)
    requires player in transforms && camera in transforms
    modifies eventChannel
    ensures eventChannel.events
         == old(eventChannel.events) + OutOfBoundsEvents(transforms[player].y, transforms[camera].y, screenHeight)
  {
    var hopperY := transforms[player].y;
    var cameraY := transforms[camera].y;
    var lowerBoundary := cameraY - screenHeight / 2.0 - HopperLowerYBoundary;
    if hopperY < lowerBoundary {
      eventChannel.SingleWrite(PlayerOutOfBounds);
    }
  }
}
