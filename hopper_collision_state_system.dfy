/** The hopper collision state system: the debouncing state machine that
    moves the hopper between soaring, bouncing and resting from its contact
    state and its pending jump force. The physics engine cannot damp the
    rebound of a landing, so the game counts frames of contact instead. */
module HopperCollisionState {
  import opened Common
  import opened HopperComponents
  import opened CollisionComponents

  /** The bounce counter never exceeds `2 * debouncingFrameCount + 1`. */
  predicate BounceBounded(s: HopperState, debouncingFrameCount: nat)
  {
    s.Bouncing? ==> s.frames <= 2 * debouncingFrameCount + 1
  }

  /** The state the system assigns, from the current state, the contact
      state and the pending jump force. */
  function NextHopperState(state: HopperState, inCollision: bool, jumpForce: real, debouncingFrameCount: nat): (r: HopperState)
    // a pending jump overrides everything else
    ensures jumpForce > Epsilon ==> r == Rising
    // contact without a jump always puts the hopper on the roof
    ensures jumpForce <= Epsilon && inCollision ==> r.CanJump()
    // soaring without contact is left to the soaring system
    ensures jumpForce <= Epsilon && !inCollision && state.IsSoaring() ==> r == state
    // leaving the roof never settles the hopper
    ensures jumpForce <= Epsilon && !inCollision && state.CanJump() ==> r == Rising || (r.Bouncing? && r.frames >= 1)
    ensures BounceBounded(state, debouncingFrameCount) ==> BounceBounded(r, debouncingFrameCount)
  {
    if jumpForce > Epsilon then
      Rising
    else if inCollision then
      match state
      case Rising | Peaking | Falling => Bouncing(debouncingFrameCount)
      case Bouncing(framesLeft) => if framesLeft > 1 then Bouncing(framesLeft - 1) else Resting
      case Resting => Resting
    else
      match state
      case Rising => Rising
      case Peaking => Peaking
      case Falling => Falling
      case Bouncing(framesLeft) =>
        if framesLeft > debouncingFrameCount * 2 then Rising else Bouncing(framesLeft + 1)
      case Resting => Bouncing(1)
  }

  /** `HopperCollisionStateSystem::run` for the player entity. */
  method Run(player: Entity, collisions: map<Entity, CollisionComponent>, hoppers: map<Entity, HopperComponent>,
             debouncingFrameCount: nat)
    requires player in collisions && player in hoppers
    modifies hoppers[player]
    ensures hoppers[player].hopperState
         == NextHopperState(old(hoppers[player].hopperState), collisions[player].IsInCollision(),
                            old(hoppers[player].jumpForce), debouncingFrameCount)
    ensures hoppers[player].jumpForce == old(hoppers[player].jumpForce)
    ensures hoppers[player].nudgeForce == old(hoppers[player].nudgeForce)
  {
    var inCollision := collisions[player].IsInCollision();
    var hopper := hoppers[player];
    var jumpForce := hopper.jumpForce;
    hopper.hopperState := NextHopperState(hopper.hopperState, inCollision, jumpForce, debouncingFrameCount);
  }

  /** `n` consecutive runs with the same contact state and jump force. */
  function Ticks(s: HopperState, n: nat, inCollision: bool, jumpForce: real, debouncingFrameCount: nat): HopperState
    decreases n
  {
    if n == 0 then s
    else Ticks(NextHopperState(s, inCollision, jumpForce, debouncingFrameCount), n - 1, inCollision, jumpForce, debouncingFrameCount)
  }

  /** One tick after any jump request, the hopper is rising, in contact or
      not. */
  lemma StartJumpForcesRising(s: HopperState, inCollision: bool, debouncingFrameCount: nat)
    ensures NextHopperState(s, inCollision, JumpForce, debouncingFrameCount) == Rising
  {
  }

  /** In contact and without a jump, `Bouncing(k)` counts down one per tick
      and settles to `Resting` after exactly `k` ticks. */
  lemma {:induction false} ContactCountsDown(k: nat, j: nat, jumpForce: real, debouncingFrameCount: nat)
    requires 1 <= k && j <= k && jumpForce <= Epsilon
    ensures Ticks(Bouncing(k), j, true, jumpForce, debouncingFrameCount) == if j < k then Bouncing(k - j) else Resting
  {
    if j > 0 {
      if k > 1 {
        ContactCountsDown(k - 1, j - 1, jumpForce, debouncingFrameCount);
      } else {
        assert Ticks(Bouncing(k), j, true, jumpForce, debouncingFrameCount)
            == Ticks(Resting, 0, true, jumpForce, debouncingFrameCount);
      }
    }
  }

  /** The in-contact rows of the transition table, without a pending jump:
      a landing starts the debounce count at `debouncingFrameCount`, a bounce
      counts down to `Resting` (a count of 0 or 1 rests at once), and a
      resting hopper stays resting. */
  lemma ContactTransitions(s: HopperState, jumpForce: real, debouncingFrameCount: nat)
    requires jumpForce <= Epsilon
    ensures s.IsSoaring() ==> NextHopperState(s, true, jumpForce, debouncingFrameCount) == Bouncing(debouncingFrameCount)
    ensures s.Bouncing? ==> NextHopperState(s, true, jumpForce, debouncingFrameCount)
                            == if s.frames > 1 then Bouncing(s.frames - 1) else Resting
    ensures s == Resting ==> NextHopperState(s, true, jumpForce, debouncingFrameCount) == Resting
  {
  }

  /** A landing hopper (any soaring state, kept in contact, no jump) rests
      after `debouncingFrameCount + 1` ticks: one to start bouncing, then one
      per debouncing frame; with no debouncing frames it still takes two. */
  lemma LandingSettles(s: HopperState, jumpForce: real, debouncingFrameCount: nat)
    requires s.IsSoaring() && jumpForce <= Epsilon
    ensures var settle := if debouncingFrameCount == 0 then 1 else debouncingFrameCount;
      Ticks(s, settle + 1, true, jumpForce, debouncingFrameCount) == Resting
  {
    if debouncingFrameCount == 0 {
      assert Ticks(s, 2, true, jumpForce, debouncingFrameCount) == Ticks(Bouncing(0), 1, true, jumpForce, debouncingFrameCount);
      assert Ticks(Bouncing(0), 1, true, jumpForce, debouncingFrameCount) == Ticks(Resting, 0, true, jumpForce, debouncingFrameCount);
    } else {
      ContactCountsDown(debouncingFrameCount, debouncingFrameCount, jumpForce, debouncingFrameCount);
    }
  }

  /** A resting hopper stays resting while in contact and no jump is
      pending. */
  lemma {:induction false} RestingIsStable(n: nat, jumpForce: real, debouncingFrameCount: nat)
    requires jumpForce <= Epsilon
    ensures Ticks(Resting, n, true, jumpForce, debouncingFrameCount) == Resting
  {
    if n > 0 {
      RestingIsStable(n - 1, jumpForce, debouncingFrameCount);
    }
  }

  /** The out-of-contact rows of the transition table, without a pending
      jump: a soaring hopper keeps its state, a bounce counts up until it
      passes twice the debouncing frames and is then released as `Rising`,
      and a resting hopper that loses contact starts bouncing at 1. */
  lemma AirborneTransitions(s: HopperState, jumpForce: real, debouncingFrameCount: nat)
    requires jumpForce <= Epsilon
    ensures s.IsSoaring() ==> NextHopperState(s, false, jumpForce, debouncingFrameCount) == s
    ensures s.Bouncing? ==> NextHopperState(s, false, jumpForce, debouncingFrameCount)
                            == if s.frames > 2 * debouncingFrameCount then Rising else Bouncing(s.frames + 1)
    ensures s == Resting ==> NextHopperState(s, false, jumpForce, debouncingFrameCount) == Bouncing(1)
  {
  }

  /** Out of contact and without a jump, `Bouncing(n)` counts up one per
      tick, and is released as `Rising` after exactly
      `2 * debouncingFrameCount + 2 - n` ticks. */
  lemma {:induction false} AirborneBounceReleases(n: nat, j: nat, jumpForce: real, debouncingFrameCount: nat)
    requires n <= 2 * debouncingFrameCount + 1 && j <= 2 * debouncingFrameCount + 2 - n
    requires jumpForce <= Epsilon
    ensures Ticks(Bouncing(n), j, false, jumpForce, debouncingFrameCount)
            == if j < 2 * debouncingFrameCount + 2 - n then Bouncing(n + j) else Rising
    decreases j
  {
    if j > 0 {
      if n <= 2 * debouncingFrameCount {
        AirborneBounceReleases(n + 1, j - 1, jumpForce, debouncingFrameCount);
      } else {
        assert Ticks(Bouncing(n), j, false, jumpForce, debouncingFrameCount)
            == Ticks(Rising, 0, false, jumpForce, debouncingFrameCount);
      }
    }
  }

  /** A resting hopper that loses contact bounces for
      `2 * debouncingFrameCount + 1` ticks, counting 1, 2, ..., and is
      released as `Rising` on the next one. */
  lemma LeavingRestReleases(j: nat, jumpForce: real, debouncingFrameCount: nat)
    requires 1 <= j <= 2 * debouncingFrameCount + 2 && jumpForce <= Epsilon
    ensures Ticks(Resting, j, false, jumpForce, debouncingFrameCount)
            == if j < 2 * debouncingFrameCount + 2 then Bouncing(j) else Rising
  {
    AirborneBounceReleases(1, j - 1, jumpForce, debouncingFrameCount);
  }

  function RunInputs(s: HopperState, inputs: seq<(bool, real)>, debouncingFrameCount: nat): HopperState
    decreases |inputs|
  {
    if inputs == [] then s
    else RunInputs(NextHopperState(s, inputs[0].0, inputs[0].1, debouncingFrameCount), inputs[1..], debouncingFrameCount)
  }

  /** Whatever the contacts and jump forces, a bounce counter that starts
      within `2 * debouncingFrameCount + 1` stays within it. */
  lemma {:induction false} BounceStaysBounded(s: HopperState, inputs: seq<(bool, real)>, debouncingFrameCount: nat)
    requires BounceBounded(s, debouncingFrameCount)
    ensures BounceBounded(RunInputs(s, inputs, debouncingFrameCount), debouncingFrameCount)
    decreases |inputs|
  {
    if inputs != [] {
      BounceStaysBounded(NextHopperState(s, inputs[0].0, inputs[0].1, debouncingFrameCount), inputs[1..], debouncingFrameCount);
    }
  }
}
