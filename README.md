# Roof Hopper — a verified model of the per-frame game logic

Roof Hopper is a 2D game built on an entity-component-system engine. The
player (the hopper) jumps from rooftop to rooftop. Each frame, a set of
systems reads and writes per-entity components. This project models those
systems and the components they touch, and proves what each system
guarantees:

- **Hopper motion state.** `HopperState` is one of Rising, Peaking, Falling,
  Bouncing(n) or Resting, with the predicates soaring, can-jump and
  can-nudge. `HopperComponent` is a class whose `StartJump` and `StartNudge`
  store a force in place.
- **Collision state system.** The debouncing state machine. It is proved to
  settle a landing hopper, keep a resting hopper resting, release a bounce
  after a fixed number of frames, and keep the bounce counter bounded.
- **Soaring system.** Refines the three soaring states from the predicted
  vertical velocity.
- **Jump system.** Drains the stored jump and nudge force in capped
  per-frame portions. It is proved to conserve force, never to let the jump
  force go negative, and to drain it within a fixed number of frames. A jump
  submits 4000, then 1200, then nothing.
- **Rest system.** Replaces the engine's velocity with a small downward
  push while the hopper is on a roof and no jump is pending.
- **Entity collision system.** Clears every contact, then replays the
  frame's contact events, the last event winning. After a run, an entity is
  in collision exactly when a drained event names it.
- **Rooftop collider management.** A one-way latch that arms a rooftop once
  the hopper is a leeway above it, mirrored into the collider's enabled
  flag. Running it twice is running it once.
- **Camera movement.** The camera ratchets upward with the hopper, and the
  backgrounds shift by the same amount.
- **Boundary system.** Emits one out-of-bounds event when the hopper falls
  below the screen's bottom edge plus a margin.
- **Game data.** Named dispatch groups: finding a group by name, the run
  order of `update`, and the draining order of `dispose`.
- **Loading state.** Its event and progress transition tables.

Each system is a standalone step, because the game registers no system
schedule (`src/systems.rs` is empty). The shared types (entities, vectors,
velocities, transforms, contact events, component storages and event
channels) are in `common.dfy`.

A storage that a system writes is a `Storage<T>` object whose `items` map the
system reassigns; a storage it only reads is a map parameter. Hopper
components are objects, so a storage of them is a map of references. The
player and camera lookups that the source unwraps become preconditions.

The configuration values the systems read are parameters:
`debouncingFrameCount`, `leeway` and `downwardPressure`. The configuration
file defines only gravity. `f32` values are modelled as `real`, and
`f32::EPSILON` is the exact constant 2^-23.

Two constants and bounds shape the jump system:

- `JUMP_FORCE` is 5200 (`src/components/hopper_component.rs:6`), so a jump
  submits 4000 and then 1200.
- The nudge clamp is asymmetric (`src/systems/hopper_jump_system.rs:45-51`).
  The upper cap is 400. A leftward nudge is only clamped once it reaches
  -4000, and then it becomes -400. Any nudge between passes whole. The model
  keeps this bound and states it in `HopperJump.NudgeContribution` and
  `HopperJump.AsymmetricNudgeBounds`.

## Model

| member | source | states |
|---|---|---|
| HopperComponents.HopperState.IsSoaring | src/components/hopper_component.rs:33-40 | the hopper is soaring exactly when it is neither bouncing (at any count) nor resting |
| HopperComponents.HopperState.CanJump | src/components/hopper_component.rs:33-49 | a hopper can jump exactly when it is not soaring, so exactly one of the two holds in every state |
| HopperComponents.HopperState.CanNudge | src/components/hopper_component.rs:53-58 | nudging is allowed only while Rising, which is a soaring state in which jumping is not allowed |
| HopperComponents.HopperComponent.constructor | src/components/hopper_component.rs:62-70 | the default hopper is Falling (the default state, lines 25-29) with no jump or nudge force |
| HopperComponents.HopperComponent.IsSoaring | src/components/hopper_component.rs:75 | the component's soaring predicate is its state's |
| HopperComponents.HopperComponent.CanJump | src/components/hopper_component.rs:78 | the component can jump exactly when it is not soaring |
| HopperComponents.HopperComponent.CanNudge | src/components/hopper_component.rs:82 | the component can nudge exactly when its state is Rising, and then it is soaring |
| HopperComponents.HopperComponent.StartJump | src/components/hopper_component.rs:85 | stores the full jump force 5200, replacing what was left, and leaves the state and nudge force alone |
| HopperComponents.HopperComponent.StartNudge | src/components/hopper_component.rs:87-89 | stores -80 for a leftward nudge and +80 otherwise; nothing else changes |
| CollisionComponents.CollisionComponent.IsInCollision | src/components/collision_component.rs:25 | in collision exactly when a contact event is recorded |
| CollisionComponents.DefaultCollisionComponent | src/components/collision_component.rs:15-19 | the default component is not in collision |
| CollisionComponents.InCollisionIgnoresContents | src/components/collision_component.rs:25 | two components agree on being in collision exactly when both or neither record a contact, whatever the contacts are |
| EntityCollision.Cleared | src/systems/entity_collision_system.rs:39-41 | the clear step keeps the tracked entities and leaves none in collision |
| EntityCollision.Replay | src/systems/entity_collision_system.rs:45-55 | replaying events never adds or removes a tracked entity |
| EntityCollision.ReplayInCollision | src/systems/entity_collision_system.rs:45-55 | after a replay an entity is in collision exactly when it was before or a replayed event names it as either body |
| EntityCollision.ReplayUnnamed | src/systems/entity_collision_system.rs:49-53 | an entity that no event names keeps its component |
| EntityCollision.LastWriteWins | src/systems/entity_collision_system.rs:46-52 | the stored contact is the last event, in channel order, that names the entity |
| EntityCollision.NoCarryOver | src/systems/entity_collision_system.rs:39-45 | a run that drains no events leaves every entity out of collision |
| EntityCollision.InCollisionAfterRun | src/systems/entity_collision_system.rs:39-55 | after a run an entity is in collision exactly when a drained event names it |
| EntityCollision.EntityCollisionSystem.constructor | src/systems/entity_collision_system.rs:12-15 | a new system has no reader |
| EntityCollision.EntityCollisionSystem.Setup | src/systems/entity_collision_system.rs:18-24 | a new reader starts at the end of the channel, so it sees only later events |
| EntityCollision.EntityCollisionSystem.Run | src/systems/entity_collision_system.rs:32-56 | the storage becomes the replay of the events written since the last run over the cleared storage; the reader moves to the end of the channel |
| HopperCollisionState.NextHopperState | src/systems/hopper_collision_state_system.rs:45-71 | a jump force above EPSILON forces Rising; contact without a jump puts the hopper on the roof; soaring out of contact is unchanged; leaving the roof gives Rising or a bounce count of at least 1; the bounce bound 2D+1 is preserved (the exact rows are `ContactTransitions` and `AirborneTransitions`) |
| HopperCollisionState.Run | src/systems/hopper_collision_state_system.rs:36-71 | the player's state becomes the transition of its old state, contact and jump force; the forces are unchanged |
| HopperCollisionState.StartJumpForcesRising | src/systems/hopper_collision_state_system.rs:45-46 | one frame after a jump request the hopper is Rising, in contact or not |
| HopperCollisionState.ContactTransitions | src/systems/hopper_collision_state_system.rs:47-58 | in contact and without a jump, a landing starts Bouncing(D), Bouncing(n) counts down to Resting (n of 0 or 1 rests at once), and Resting stays |
| HopperCollisionState.ContactCountsDown | src/systems/hopper_collision_state_system.rs:52-56 | in contact, Bouncing(k) reaches Resting after exactly k frames, passing Bouncing(k-j) |
| HopperCollisionState.LandingSettles | src/systems/hopper_collision_state_system.rs:47-56 | a soaring hopper kept in contact rests after D+1 frames (2 when D is 0) |
| HopperCollisionState.RestingIsStable | src/systems/hopper_collision_state_system.rs:57 | Resting stays Resting for any number of frames in contact without a jump |
| HopperCollisionState.AirborneTransitions | src/systems/hopper_collision_state_system.rs:60-70 | out of contact and without a jump, a soaring state stays, Bouncing(n) becomes Rising when n exceeds 2D and Bouncing(n+1) otherwise, and Resting becomes Bouncing(1) |
| HopperCollisionState.AirborneBounceReleases | src/systems/hopper_collision_state_system.rs:64-68 | out of contact, Bouncing(n) with n at most 2D+1 counts up one per frame, passing Bouncing(n+j), and becomes Rising after exactly 2D+2-n frames |
| HopperCollisionState.LeavingRestReleases | src/systems/hopper_collision_state_system.rs:64-69 | a resting hopper that loses contact is Bouncing(j) after j frames for j up to 2D+1, and Rising after 2D+2 frames |
| HopperCollisionState.BounceStaysBounded | src/systems/hopper_collision_state_system.rs:45-71 | for any sequence of contacts and jump forces, a bounce counter within 2D+1 stays within it |
| HopperSoaring.SoaringState | src/systems/hopper_soaring_system.rs:38-46 | Bouncing and Resting are untouched; a soaring state stays soaring and is Rising above 1.2, Falling below -1.2 and Peaking in between, bounds included |
| HopperSoaring.SoaringIdempotent | src/systems/hopper_soaring_system.rs:38-46 | with the same velocity, refining twice is refining once |
| HopperSoaring.Run | src/systems/hopper_soaring_system.rs:36-50 | every hopper with a predicted velocity is refined independently, any other hopper is untouched, and no force changes |
| HopperJump.JumpContribution | src/systems/hopper_jump_system.rs:44 | the jump portion is the smaller of the stored force and 4000 |
| HopperJump.NudgeContribution | src/systems/hopper_jump_system.rs:45-51 | the nudge portion is 400 at or above 400, -400 at or below -4000, the stored nudge otherwise; it keeps the sign |
| HopperJump.AsymmetricNudgeBounds | src/systems/hopper_jump_system.rs:45-51 | -1000 passes whole while +1000 is cut to 400; a button nudge of 80 passes whole |
| HopperJump.Step | src/systems/hopper_jump_system.rs:41-61 | a force is submitted exactly when the jump force is positive or the nudge is non-zero; otherwise nothing changes; submitted plus remaining equals stored; the caps hold; a non-negative jump force never grows or goes negative |
| HopperJump.Run | src/systems/hopper_jump_system.rs:36-61 | the player's forces become those after one step, the submitted force is added to what the accumulator already holds, and the state is unchanged |
| HopperJump.TwoFrameJump | src/systems/hopper_jump_system.rs:44-60 | without nudge, a jump force between 4000 and 8000 is submitted as 4000, then the rest, then nothing |
| HopperJump.StartJumpSchedule | src/systems/hopper_jump_system.rs:44-60 | a fresh jump submits 4000, then 1200, then nothing, and leaves no force stored |
| HopperJump.NudgeAppliedInOneFrame | src/systems/hopper_jump_system.rs:45-51 | a button nudge is submitted whole in one frame and leaves no nudge stored |
| HopperJump.JumpDrains | src/systems/hopper_jump_system.rs:44-60 | whatever the nudge, a jump force of at most n times 4000 is used up within n frames; without nudge nothing at all is left stored |
| HopperJump.JumpConserved | src/systems/hopper_jump_system.rs:53-60 | whatever the nudge, the upward force submitted over n frames plus what is still stored equals the force first stored |
| HopperRest.OverriddenVelocity | src/systems/hopper_rest_system.rs:49-53 | a soaring hopper's velocity is never touched; a pending jump of at least EPSILON keeps it; on a roof with no jump the velocity becomes (0, -pressure) with no spin |
| HopperRest.OverrideIdempotent | src/systems/hopper_rest_system.rs:49-53 | overriding twice is overriding once |
| HopperRest.EpsilonJumpFiresNeither | src/systems/hopper_rest_system.rs:49 | a jump force of exactly EPSILON triggers neither the forced rise nor the override |
| HopperRest.Run | src/systems/hopper_rest_system.rs:44-54 | only the player's next-frame velocity changes, to its overridden value; the hopper is only read |
| RooftopComponents.RooftopComponent.WithCollisionEnabled | src/components/rooftop_component.rs:22-25 | the builder's result has the given flag, and setting the flag it already has changes nothing |
| RooftopComponents.DefaultRooftopComponent | src/components/rooftop_component.rs:10-14 | a default rooftop is not armed |
| RooftopComponents.WithCollisionEnabledLastWins | src/components/rooftop_component.rs:22-25 | chained builders keep the last flag |
| RooftopComponents.NewRooftopComponent | src/entities/rooftop_entity.rs:97 | a new rooftop component has the flag its creator chose |
| RooftopComponents.BaseRooftop | src/entities/rooftop_entity.rs:50-52 | the base rooftop is created with collision enabled |
| RooftopComponents.PathRooftops | src/entities/rooftop_entity.rs:125-183 | the initial path has six rooftops, each created with collision disabled |
| RooftopComponents.OnlyBaseArmed | src/entities/rooftop_entity.rs:50-183 | of the seven rooftops a level starts with, exactly the base is armed |
| RooftopColliderManagement.Armed | src/systems/rooftop_collider_management_system.rs:47-49 | a rooftop is armed afterwards exactly when it was already armed or the hopper is strictly above it by more than the leeway |
| RooftopColliderManagement.ArmAll | src/systems/rooftop_collider_management_system.rs:45-49 | no rooftop is ever disarmed; each visited rooftop follows the latch; a rooftop lacking a transform or collider is untouched |
| RooftopColliderManagement.SyncShapes | src/systems/rooftop_collider_management_system.rs:55 | each visited collider is enabled exactly when its rooftop is armed, with its shape unchanged; other colliders are untouched |
| RooftopColliderManagement.AtLeewayNotArmed | src/systems/rooftop_collider_management_system.rs:47 | a hopper exactly at the leeway does not arm a rooftop |
| RooftopColliderManagement.RunTwiceIsRunOnce | src/systems/rooftop_collider_management_system.rs:45-56 | with the positions fixed, a second run changes neither rooftops nor colliders |
| RooftopColliderManagement.Run | src/systems/rooftop_collider_management_system.rs:38-56 | the rooftop storage is armed by the latch and the collider storage mirrors it; transforms are only read |
| CameraMovement.Rise | src/systems/camera_movement_system.rs:47-50 | the shift is how far the hopper is above the camera, or 0 when it is not above |
| CameraMovement.CameraFollow | src/systems/camera_movement_system.rs:36-58 | only heights change; the camera never moves down and ends level with a hopper above it; each background moves up by the same shift; nothing else moves |
| CameraMovement.HopperNotAboveCamera | src/systems/camera_movement_system.rs:47-51 | afterwards the hopper is not above the camera |
| CameraMovement.CameraFollowIdempotent | src/systems/camera_movement_system.rs:47-56 | a second run changes nothing |
| CameraMovement.Run | src/systems/camera_movement_system.rs:36-58 | the transforms become the camera-follow result |
| HopperBoundary.LowerBoundary | src/systems/hopper_boundary_system.rs:48-50 | the boundary is the camera height minus half the screen plus 10, which is below the camera exactly when the screen is taller than 20 |
| HopperBoundary.OutOfBoundsEvents | src/systems/hopper_boundary_system.rs:60-63 | at most one event, PlayerOutOfBounds, and one exactly when the hopper is strictly below the boundary |
| HopperBoundary.AtCameraInBounds | src/systems/hopper_boundary_system.rs:48-62 | a hopper level with or above the camera is in bounds on a screen taller than 20 |
| HopperBoundary.OutOfBoundsDownwardClosed | src/systems/hopper_boundary_system.rs:60 | a hopper lower than one that is out of bounds is out of bounds too |
| HopperBoundary.Run | src/systems/hopper_boundary_system.rs:36-63 | the channel gains exactly the out-of-bounds events; transforms are only read |
| Dispatching.BaseList | src/game_data.rs:78-81 | the base dispatcher runs once if present, and nothing runs once it has been taken |
| Dispatching.DispatchersOf | src/game_data.rs:118-121 | the group dispatchers in index order |
| Dispatching.Selected | src/game_data.rs:82-87 | one dispatcher runs per present index, and each one is a group's own dispatcher |
| Dispatching.SelectedAt | src/game_data.rs:82-87 | the present index at position k runs the dispatcher of the group it names, in the slot counted by the present indices before it |
| Dispatching.SelectedSingle | src/game_data.rs:85 | the single index i runs exactly group i's dispatcher |
| Dispatching.SelectedAppend | src/game_data.rs:82-87 | selecting a concatenation of index lists runs each list in turn |
| Dispatching.SelectedNoneIsEmpty | src/game_data.rs:83 | absent indices run nothing |
| Dispatching.GameData.constructor | src/game_data.rs:58-63 | the base dispatcher is stored as present and the groups are kept in the given order |
| Dispatching.GameData.GetDispatcherId | src/game_data.rs:100-107 | returns the smallest index whose name matches, and returns nothing exactly when no name matches |
| Dispatching.GameData.Update | src/game_data.rs:77-88 | runs the base dispatcher first if present, then each present index's own group dispatcher (`SelectedAt`) in list order, repeats included |
| Dispatching.GameData.Dispose | src/game_data.rs:114-122 | disposes the base, then the groups in index order, leaving no base and no groups; a second dispose disposes nothing |
| HopperLoading.HandleEvent | src/states/hopper_loading_state.rs:22-33 | quits exactly on a window close request or an Escape key press; any other event gives no transition |
| HopperLoading.OnlyEscapePressQuits | src/states/hopper_loading_state.rs:27-30 | releasing Escape or pressing another key does not quit |
| HopperLoading.UpdateTransition | src/states/hopper_loading_state.rs:41-51 | Failed quits, Complete switches to the game state, Loading stays |
| HopperLoading.Update | src/states/hopper_loading_state.rs:36-52 | only the base dispatcher runs, and the transition follows the load progress |

## Left out

- The physics engine is left out: contact detection, the next-frame velocity computation and force integration. Contacts come from the contact event channel, the predicted velocity is a stored record, and the force accumulator is an additive sum.
- Floating point is not modelled: `f32` values are `real`, and nothing is claimed about rounding.
- HopperCollisionState.NextHopperState: the bounce counter is a `nat`, so the `u32` overflow of `frames_left + 1` and `2 * debouncing_frame_count` is not modelled. `HopperCollisionState.BounceStaysBounded` shows that the counter stays at most 2D+1.
- Entity construction, sprite and asset loading, configuration file loading and logging are left out. They are engine calls and I/O.
- The configuration values are parameters.
- Building dispatchers (`DataInit::build`, `DispatchGroupBuilder`, `make_dispatcher_operation`) and thread pools are left out.
- A dispatcher is modelled by its identity. Running or disposing one is recorded by listing it in the method's result, and the systems inside it are not modelled.
- Dispatching.GameData.Update: indexing past the last group panics in the source, so the model requires every present index to name a group.
- A `Transform` keeps only its translation, because the systems never read rotation or scale.
- A collision shape keeps only its enabled flag and its extent.
- The contact channel's reader is a cursor into the sequence of every event written. The engine's bounded ring buffer, which can drop events a slow reader missed, is not modelled.
- Window input is reduced to close requests and key presses. The payloads of user-interface, input and collision events are dropped, because the loading state ignores them.
- `HopperLoadingState::on_start` is empty, so it is not modelled.
- The game state (`HopperGameState`) is only named as a transition target.
- Each system is a standalone step, because the game registers no schedule. No composed frame is modelled.
- Each system that the source runs on the player alone (collision state, jump, rest) is modelled for the player alone. The soaring system's join runs over every hopper with a predicted velocity.
