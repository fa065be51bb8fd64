/** The hopper (player) component: its motion state and the jump and nudge
    force it still has to apply. */
module HopperComponents {

  /** How hard to jump when the jump button is pressed. */
  const JumpForce: real := 5200.0
  /** How hard to push left or right when a nudge button is pressed. */
  const SidewaysForce: real := 80.0

  /** The motion states of the hopper. `Bouncing(frames)` counts the frames of
      debouncing against a roof. */
  datatype HopperState = Rising | Peaking | Falling | Bouncing(frames: nat) | Resting
  {
    /** The hopper is in the air: rising, peaking or falling. */
    predicate IsSoaring(): (r: bool)
      // the soaring states are exactly those that are neither a bounce (of
      // any count) nor resting on a roof
      ensures r <==> !this.Bouncing? && this != Resting
    {
      match this
      case Rising => true
      case Peaking => true
      case Falling => true
      case _ => false
    }

    /** The hopper may respond to a jump request: it is on a roof, so this is
        exactly the complement of soaring. */
    predicate CanJump(): (r: bool)
      ensures r <==> !IsSoaring()
    {
      match this
      case Bouncing(_) => true
      case Resting => true
      case _ => false
    }

    /** The hopper may respond to a left/right nudge: only while rising, so a
        nudge is only ever accepted in the air. */
    predicate CanNudge(): (r: bool)
      ensures r <==> this == Rising
      ensures r ==> IsSoaring() && !CanJump()
    {
      match this
      case Rising => true
      case _ => false
    }
  }

  /** The state of the hopper entity (`HopperComponent`). */
  class HopperComponent {
    var hopperState: HopperState
    /** Left/right force still to apply; negative is leftward. */
    var nudgeForce: real
    /** Upward force still to apply. */
    var jumpForce: real

    /** `Default`: a falling hopper with no force pending. */
    constructor ()
      ensures hopperState == Falling && hopperState.IsSoaring() && !hopperState.CanNudge()
      ensures nudgeForce == 0.0 && jumpForce == 0.0
    {
      hopperState := Falling;
      nudgeForce := 0.0;
      jumpForce := 0.0;
    }

    predicate IsSoaring(): (r: bool)
      reads this
      ensures r <==> hopperState.IsSoaring()
    {
      hopperState.IsSoaring()
    }

    predicate CanJump(): (r: bool)
      reads this
      ensures r <==> !IsSoaring()
    {
      hopperState.CanJump()
    }

    predicate CanNudge(): (r: bool)
      reads this
      ensures r ==> IsSoaring()
      ensures r <==> hopperState == Rising
    {
      hopperState.CanNudge()
    }

    /** Starts the jump sequence: stores the full jump force, whatever was
        left of the previous one. */
    method StartJump()
      modifies this
      ensures jumpForce == JumpForce
      ensures hopperState == old(hopperState) && nudgeForce == old(nudgeForce)
    {
      jumpForce := JumpForce;
    }

    /** Starts the nudge sequence, leftward when `moveLeft`. */
    method StartNudge(moveLeft: bool)
      modifies this
      ensures nudgeForce == if moveLeft then -SidewaysForce else SidewaysForce
      ensures hopperState == old(hopperState) && jumpForce == old(jumpForce)
    {
      nudgeForce := SidewaysForce * if moveLeft then -1.0 else 1.0;
    }
  }
}
