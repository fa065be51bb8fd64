/** The camera movement system: the camera follows the hopper upward (never
    downward), and the background entities move up with it, so the rooftops
    appear to fall. */
module CameraMovement {
  import opened Common

  /** How far the hopper is above the camera, or 0 when it is not. */
  function Rise(hopperY: real, cameraY: real): (r: real)
    ensures r >= 0.0 && r >= hopperY - cameraY
    ensures r == 0.0 || r == hopperY - cameraY
  {
    if hopperY - cameraY > 0.0 then hopperY - cameraY else 0.0
  }

  /** The transforms after a run. `backgrounds` are the entities that carry
      a background component. */
  function CameraFollow(transforms: map<Entity, Transform>, player: Entity, camera: Entity,
                        backgrounds: set<Entity>): (r: map<Entity, Transform>)
    requires player in transforms && camera in transforms
    ensures r.Keys == transforms.Keys
    // only heights change
    ensures forall e :: e in transforms ==> r[e].x == transforms[e].x && r[e].z == transforms[e].z
    // the camera never moves down
    ensures r[camera].y >= transforms[camera].y
    // a camera that is not itself a background ends level with the hopper, if it was below it
    ensures camera !in backgrounds ==>
      r[camera].y == if transforms[player].y > transforms[camera].y then transforms[player].y else transforms[camera].y
    // every background moves up by as much as the hopper was above the camera (the camera twice, if it is one)
    ensures forall e :: e in transforms && e in backgrounds && e != camera ==>
      r[e].y == transforms[e].y + Rise(transforms[player].y, transforms[camera].y)
    ensures camera in backgrounds ==>
      r[camera].y == transforms[camera].y + 2.0 * Rise(transforms[player].y, transforms[camera].y)
    // nothing else moves
    ensures forall e :: e in transforms && e !in backgrounds && e != camera ==> r[e] == transforms[e]
  {
    var above := transforms[player].y - transforms[camera].y;
    if above > 0.0 then
      var moved := transforms[camera := transforms[camera].(y := transforms[camera].y + above)];
      map e | e in moved :: if e in backgrounds then moved[e].(y := moved[e].y + above) else moved[e]
    else
      transforms
  }

  /** When neither the hopper nor the camera is a background, the hopper is
      never above the camera afterwards. */
  lemma HopperNotAboveCamera(transforms: map<Entity, Transform>, player: Entity, camera: Entity, backgrounds: set<Entity>)
    requires player in transforms && camera in transforms
    requires player !in backgrounds && camera !in backgrounds
    ensures var r := CameraFollow(transforms, player, camera, backgrounds);
      r[player].y <= r[camera].y
  {
  }

  /** When neither the hopper nor the camera is a background, a second run
      changes nothing. */
  lemma {:induction false} CameraFollowIdempotent(transforms: map<Entity, Transform>, player: Entity, camera: Entity,
                                                   backgrounds: set<Entity>)
    requires player in transforms && camera in transforms
    requires player !in backgrounds && camera !in backgrounds
    ensures var r := CameraFollow(transforms, player, camera, backgrounds);
      CameraFollow(r, player, camera, backgrounds) == r
  {
    var r := CameraFollow(transforms, player, camera, backgrounds);
    HopperNotAboveCamera(transforms, player, camera, backgrounds);
    assert !(r[player].y - r[camera].y > 0.0);
  }

  /** `CameraMovementSystem::run`. */
  method Run(player: Entity, camera: Entity, backgrounds: set<Entity>, transforms: Storage<Transform>)
    requires player in transforms.items && camera in transforms.items
    modifies transforms
    ensures transforms.items == CameraFollow(old(transforms.items), player, camera, backgrounds)
  {
    var hopperY := transforms.items[player].y;
    var cameraTransform := transforms.items[camera];
    var above := hopperY - cameraTransform.y;
    if above > 0.0 {
      var items := transforms.items[camera := cameraTransform.(y := cameraTransform.y + above)];
      ghost var moved := items;
      var pending := backgrounds * items.Keys;
      while pending != {}
        invariant pending <= backgrounds * moved.Keys
        invariant items.Keys == moved.Keys
        invariant forall e :: e in pending ==> items[e] == moved[e]
        invariant forall e :: e in items && e !in pending ==>
          items[e] == if e in backgrounds then moved[e].(y := moved[e].y + above) else moved[e]
        decreases pending
      {
        var e :| e in pending;
        items := items[e := items[e].(y := items[e].y + above)];
        pending := pending - {e};
      }
      transforms.items := items;
    }
  }
}
