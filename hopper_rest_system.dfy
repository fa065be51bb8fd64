/** The hopper rest system: keeps a bouncing or resting hopper on the roof
    by replacing the next-frame velocity the physics engine computed with a
    small constant downward one, until a jump is pending. */
module HopperRest {
  import opened Common
  import opened HopperComponents
  import HopperCollisionState

  /** The velocity the override imposes. */
  function RestVelocity(downwardPressure: real): Velocity
  {
    Velocity(Vec2(0.0, -downwardPressure), 0.0)
  }

  /** The next-frame velocity after the system ran, for a hopper in `state`
      with `jumpForce` pending whose engine-computed velocity is `v`. */
  function OverriddenVelocity(v: Velocity, state: HopperState, jumpForce: real, downwardPressure: real): (r: Velocity)
    // the velocity of a soaring hopper is never touched
    ensures state.IsSoaring() ==> r == v
    // a pending jump keeps the engine's velocity
    ensures jumpForce >= Epsilon ==> r == v
    // on a roof with no jump pending, the engine's velocity is discarded
    ensures state.CanJump() && jumpForce < Epsilon ==> r.linear == Vec2(0.0, -downwardPressure) && r.angular == 0.0
  {
    if state.CanJump() && jumpForce < Epsilon then RestVelocity(downwardPressure) else v
  }

  /** Running the override twice is running it once. */
  lemma OverrideIdempotent(v: Velocity, state: HopperState, jumpForce: real, downwardPressure: real)
    ensures var once := OverriddenVelocity(v, state, jumpForce, downwardPressure);
      OverriddenVelocity(once, state, jumpForce, downwardPressure) == once
  {
  }

  /** A jump force of exactly `Epsilon` triggers neither the forced rise of
      the collision state system (which needs more than `Epsilon`) nor the
      override (which needs less). */
  lemma EpsilonJumpFiresNeither(v: Velocity, state: HopperState, inCollision: bool, debouncingFrameCount: nat, downwardPressure: real)
    ensures HopperCollisionState.NextHopperState(state, inCollision, Epsilon, debouncingFrameCount)
         == HopperCollisionState.NextHopperState(state, inCollision, 0.0, debouncingFrameCount)
    ensures OverriddenVelocity(v, state, Epsilon, downwardPressure) == v
  {
  }

  /** `HopperRestSystem::run` for the player entity. The hopper component is
      only read. */
  method Run(player: Entity, hoppers: map<Entity, HopperComponent>, nextVelocities: Storage<Velocity>, downwardPressure: real)
    requires player in hoppers && player in nextVelocities.items
    modifies nextVelocities
    ensures nextVelocities.items
         == old(nextVelocities.items)[player := OverriddenVelocity(old(nextVelocities.items)[player],
                                                                   hoppers[player].hopperState,
                                                                   hoppers[player].jumpForce, downwardPressure)]
  {
    var hopper := hoppers[player];
    if hopper.CanJump() && hopper.jumpForce < Epsilon {
      nextVelocities.items := nextVelocities.items[player := Velocity(Vec2(0.0, -downwardPressure), 0.0)];
    }
  }
}
