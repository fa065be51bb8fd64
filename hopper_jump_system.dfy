/** The hopper jump system: spreads the stored jump and nudge force over
    several frames, submitting at most a capped amount per frame to the
    physics engine's force accumulator. */
module HopperJump {
  import opened Common
  import opened HopperComponents

  const MaxJumpForcePerFrame: real := 4000.0
  const MaxNudgeForcePerFrame: real := 400.0

  /** The jump force submitted this frame: the stored force, capped at
      `MaxJumpForcePerFrame` (the minimum of the two). */
  function JumpContribution(jumpForce: real): (r: real)
    ensures r <= MaxJumpForcePerFrame && r <= jumpForce
    ensures r == jumpForce || r == MaxJumpForcePerFrame
  {
    if jumpForce >= MaxJumpForcePerFrame then MaxJumpForcePerFrame else jumpForce
  }

  /** The nudge force submitted this frame. The upper cap is
      `MaxNudgeForcePerFrame`, but a leftward nudge is only capped once it
      reaches `-MaxJumpForcePerFrame`; anything between passes whole. */
  function NudgeContribution(nudgeForce: real): (r: real)
    ensures -MaxJumpForcePerFrame < r <= MaxNudgeForcePerFrame
    ensures r == nudgeForce
         || (nudgeForce >= MaxNudgeForcePerFrame && r == MaxNudgeForcePerFrame)
         || (nudgeForce <= -MaxJumpForcePerFrame && r == -MaxNudgeForcePerFrame)
    ensures (r > 0.0 <==> nudgeForce > 0.0) && (r < 0.0 <==> nudgeForce < 0.0)
  {
    if nudgeForce >= MaxNudgeForcePerFrame then MaxNudgeForcePerFrame
    else if nudgeForce <= -MaxJumpForcePerFrame then -MaxNudgeForcePerFrame
    else nudgeForce
  }

  /** The bounds are asymmetric: a leftward nudge of 1000 passes whole, a
      rightward one is cut to 400; the nudge of a button press passes whole. */
  lemma AsymmetricNudgeBounds()
    ensures NudgeContribution(-1000.0) == -1000.0 && NudgeContribution(1000.0) == MaxNudgeForcePerFrame
    ensures NudgeContribution(-4000.0) == -MaxNudgeForcePerFrame
    ensures NudgeContribution(-SidewaysForce) == -SidewaysForce && NudgeContribution(SidewaysForce) == SidewaysForce
  {
  }

  /** The stored forces of a hopper. */
  datatype Forces = Forces(jump: real, nudge: real)

  /** One frame: the stored forces afterwards and the force submitted, if
      any. */
  datatype Emission = Emission(after: Forces, force: Option<Vec2>)

  /** What the system does to the stored forces in one frame. */
  function Step(f: Forces): (e: Emission)
    // only a positive jump force or a non-zero nudge force is submitted
    ensures e.force.Some? <==> f.jump > 0.0 || f.nudge != 0.0
    ensures e.force.None? ==> e.after == f
    // what is submitted is taken from the store: nothing is lost or created
    ensures e.force.Some? ==> e.force.value.y + e.after.jump == f.jump && e.force.value.x + e.after.nudge == f.nudge
    ensures e.force.Some? ==> e.force.value.y <= MaxJumpForcePerFrame && e.force.value.x <= MaxNudgeForcePerFrame
    // the stored jump force never increases and never goes negative
    ensures f.jump >= 0.0 ==> 0.0 <= e.after.jump <= f.jump
  {
    if f.jump > 0.0 || f.nudge != 0.0 then
      var jump := JumpContribution(f.jump);
      var nudge := NudgeContribution(f.nudge);
      Emission(Forces(f.jump - jump, f.nudge - nudge), Some(Vec2(nudge, jump)))
    else
      Emission(f, None)
  }

  /** `HopperJumpSystem::run` for the player entity: submits this frame's
      force to the player's accumulator, adding to what it already holds,
      and takes it off the stored forces. */
  method Run(player: Entity, hoppers: map<Entity, HopperComponent>, forceAccumulators: Storage<Vec2>)
    requires player in hoppers && player in forceAccumulators.items
    modifies hoppers[player], forceAccumulators
    ensures var e := Step(Forces(old(hoppers[player].jumpForce), old(hoppers[player].nudgeForce)));
      && hoppers[player].jumpForce == e.after.jump
      && hoppers[player].nudgeForce == e.after.nudge
      && forceAccumulators.items
         == if e.force.Some? then
              var acc := old(forceAccumulators.items)[player];
              old(forceAccumulators.items)[player := Vec2(acc.x + e.force.value.x, acc.y + e.force.value.y)]
            else old(forceAccumulators.items)
    ensures hoppers[player].hopperState == old(hoppers[player].hopperState)
  {
    var hopper := hoppers[player];
    if hopper.jumpForce > 0.0 || hopper.nudgeForce != 0.0 {
      var jumpForce := JumpContribution(hopper.jumpForce);
      var nudgeForce := NudgeContribution(hopper.nudgeForce);
      var acc := forceAccumulators.items[player];
      forceAccumulators.items := forceAccumulators.items[player := Vec2(acc.x + nudgeForce, acc.y + jumpForce)];
      hopper.jumpForce := hopper.jumpForce - jumpForce;
      hopper.nudgeForce := hopper.nudgeForce - nudgeForce;
    }
  }

  /** The forces submitted over `n` frames with no new request. */
  function Emitted(f: Forces, n: nat): seq<Option<Vec2>>
    decreases n
  {
    if n == 0 then [] else [Step(f).force] + Emitted(Step(f).after, n - 1)
  }

  /** The stored forces after `n` frames with no new request. */
  function After(f: Forces, n: nat): Forces
    decreases n
  {
    if n == 0 then f else After(Step(f).after, n - 1)
  }

  /** The upward force of the submitted forces. */
  function TotalJump(forces: seq<Option<Vec2>>): real
  {
    if forces == [] then 0.0
    else (if forces[0].Some? then forces[0].value.y else 0.0) + TotalJump(forces[1..])
  }

  /** Without nudge, a stored jump force above one frame's cap and at most
      two frames' worth is submitted as the cap, then the rest, then nothing. */
  lemma TwoFrameJump(f: Forces)
    requires f.nudge == 0.0 && MaxJumpForcePerFrame < f.jump <= 2.0 * MaxJumpForcePerFrame
    ensures Emitted(f, 3) == [Some(Vec2(0.0, MaxJumpForcePerFrame)), Some(Vec2(0.0, f.jump - MaxJumpForcePerFrame)), None]
    ensures After(f, 2) == Forces(0.0, 0.0)
  {
    var f1 := Step(f).after;
    var f2 := Step(f1).after;
    assert f1 == Forces(f.jump - MaxJumpForcePerFrame, 0.0);
    assert f2 == Forces(0.0, 0.0) && Step(f2).force == None;
    assert Emitted(f1, 2) == [Step(f1).force] + Emitted(f2, 1);
  }

  /** A fresh jump (and no nudge) submits 4000, then 1200, then nothing. */
  lemma StartJumpSchedule()
    ensures Emitted(Forces(JumpForce, 0.0), 3) == [Some(Vec2(0.0, 4000.0)), Some(Vec2(0.0, 1200.0)), None]
    ensures After(Forces(JumpForce, 0.0), 2) == Forces(0.0, 0.0)
  {
    TwoFrameJump(Forces(JumpForce, 0.0));
  }

  /** A nudge from a button press is submitted whole in one frame. */
  lemma NudgeAppliedInOneFrame(jump: real, moveLeft: bool)
    ensures var nudge := if moveLeft then -SidewaysForce else SidewaysForce;
      Step(Forces(jump, nudge)).force.Some?
      && Step(Forces(jump, nudge)).force.value.x == nudge
      && Step(Forces(jump, nudge)).after.nudge == 0.0
  {
  }

  /** A stored jump force is used up within `n` frames once
      `n * MaxJumpForcePerFrame` covers it, whatever the nudge; without
      nudge, nothing is left stored at all. */
  lemma {:induction false} JumpDrains(f: Forces, n: nat)
    requires 0.0 <= f.jump <= n as real * MaxJumpForcePerFrame
    ensures After(f, n).jump == 0.0
    ensures f.nudge == 0.0 ==> After(f, n) == Forces(0.0, 0.0)
    decreases n
  {
    if n > 0 {
      JumpDrains(Step(f).after, n - 1);
    }
  }

  /** What has been submitted upward plus what is still stored is the jump
      force first stored, whatever the nudge. */
  lemma {:induction false} JumpConserved(f: Forces, n: nat)
    ensures TotalJump(Emitted(f, n)) + After(f, n).jump == f.jump
    decreases n
  {
    if n > 0 {
      JumpConserved(Step(f).after, n - 1);
      assert Emitted(f, n)[1..] == Emitted(Step(f).after, n - 1);
    }
  }
}
