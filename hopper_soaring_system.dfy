/** The hopper soaring system: refines the three soaring states from the
    vertical velocity the physics engine predicts for the next frame. */
module HopperSoaring {
  import opened Common
  import opened HopperComponents

  /** Vertical speed below which a soaring hopper counts as peaking. */
  const PeakingThreshold: real := 1.2

  /** The state the system assigns to a hopper in `state` whose predicted
      upward velocity is `upwardVelocity`. */
  function SoaringState(state: HopperState, upwardVelocity: real): (r: HopperState)
    // bouncing and resting are not this system's business
    ensures !state.IsSoaring() ==> r == state
    ensures state.IsSoaring() ==> r.IsSoaring()
    ensures state.IsSoaring() ==> (r == Rising <==> upwardVelocity > PeakingThreshold)
    ensures state.IsSoaring() ==> (r == Falling <==> upwardVelocity < -PeakingThreshold)
    ensures state.IsSoaring() ==> (r == Peaking <==> -PeakingThreshold <= upwardVelocity <= PeakingThreshold)
  {
    if state.IsSoaring() then
      if upwardVelocity > PeakingThreshold then Rising
      else if upwardVelocity < -PeakingThreshold then Falling
      else Peaking
    else
      state
  }

  /** With the same velocity, a second refinement changes nothing. */
  lemma SoaringIdempotent(state: HopperState, upwardVelocity: real)
    ensures SoaringState(SoaringState(state, upwardVelocity), upwardVelocity) == SoaringState(state, upwardVelocity)
  {
  }

  /** Distinct entities own distinct hopper components, as in an ECS
      storage. */
  ghost predicate Injective(hoppers: map<Entity, HopperComponent>)
  {
    forall e1, e2 :: e1 in hoppers && e2 in hoppers && e1 != e2 ==> hoppers[e1] != hoppers[e2]
  }

  /** `HopperSoaringSystem::run`: every hopper that also has a next-frame
      velocity is refined, each independently; no force changes. */
  method Run(nextVelocities: map<Entity, Velocity>, hoppers: map<Entity, HopperComponent>)
    requires Injective(hoppers)
    modifies set e | e in hoppers :: hoppers[e]
    ensures forall e :: e in hoppers ==>
      hoppers[e].hopperState
        == if e in nextVelocities then SoaringState(old(hoppers[e].hopperState), nextVelocities[e].linear.y)
           else old(hoppers[e].hopperState)
    ensures forall e :: e in hoppers ==>
      hoppers[e].jumpForce == old(hoppers[e].jumpForce) && hoppers[e].nudgeForce == old(hoppers[e].nudgeForce)
  {
    var pending := hoppers.Keys * nextVelocities.Keys;
    while pending != {}
      invariant pending <= hoppers.Keys * nextVelocities.Keys
      invariant forall e :: e in hoppers && e !in pending ==>
        hoppers[e].hopperState
          == if e in nextVelocities then SoaringState(old(hoppers[e].hopperState), nextVelocities[e].linear.y)
             else old(hoppers[e].hopperState)
      invariant forall e :: e in pending ==> hoppers[e].hopperState == old(hoppers[e].hopperState)
      invariant forall e :: e in hoppers ==>
        hoppers[e].jumpForce == old(hoppers[e].jumpForce) && hoppers[e].nudgeForce == old(hoppers[e].nudgeForce)
      decreases pending
    {
      var e :| e in pending;
      var hopper := hoppers[e];
      if hopper.IsSoaring() {
        var upwardVelocity := nextVelocities[e].linear.y;
        hopper.hopperState :=
          if upwardVelocity > PeakingThreshold then Rising
          else if upwardVelocity < -PeakingThreshold then Falling
          else Peaking;
      }
      pending := pending - {e};
    }
  }
}
