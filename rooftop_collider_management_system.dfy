/** The rooftop collider management system: arms a rooftop for collision the
    first time the player has risen a leeway above it, and mirrors the flag
    into the physics engine's collider. */
module RooftopColliderManagement {
  import opened Common
  import opened RooftopComponents

  /** The physics engine's collision shape of an entity (`CollisionShape2`):
      whether it takes part in collision detection, and its rectangle. */
  datatype CollisionShape = CollisionShape(enabled: bool, halfExtents: Vec2)

  /** One rooftop's component after the arming test. */
  function Armed(c: RooftopComponent, hopperY: real, rooftopY: real, leeway: real): (r: RooftopComponent)
    // a latch: armed when already armed or the hopper is strictly above the leeway
    ensures r.isCollisionEnabled <==> c.isCollisionEnabled || hopperY > rooftopY + leeway
  {
    if hopperY > rooftopY + leeway then c.(isCollisionEnabled := true) else c
  }

  /** The system visits the entities that have a rooftop component, a
      transform and a collision shape. */
  predicate Visited(e: Entity, rooftopKeys: set<Entity>, transforms: map<Entity, Transform>, shapeKeys: set<Entity>)
  {
    e in rooftopKeys && e in transforms && e in shapeKeys
  }

  /** One rooftop of the storage after a run. */
  function ArmedAt(rooftops: map<Entity, RooftopComponent>, transforms: map<Entity, Transform>, shapeKeys: set<Entity>,
                   hopperY: real, leeway: real, e: Entity): RooftopComponent
    requires e in rooftops
  {
    if e in transforms && e in shapeKeys then Armed(rooftops[e], hopperY, transforms[e].y, leeway) else rooftops[e]
  }

  /** The rooftop storage after a run. */
  function ArmAll(rooftops: map<Entity, RooftopComponent>, transforms: map<Entity, Transform>, shapeKeys: set<Entity>,
                  hopperY: real, leeway: real): (r: map<Entity, RooftopComponent>)
    ensures r.Keys == rooftops.Keys
    // never reset: an armed rooftop stays armed
    ensures forall e :: e in rooftops && rooftops[e].isCollisionEnabled ==> r[e].isCollisionEnabled
    ensures forall e :: Visited(e, rooftops.Keys, transforms, shapeKeys) ==>
      (r[e].isCollisionEnabled <==> rooftops[e].isCollisionEnabled || hopperY > transforms[e].y + leeway)
    ensures forall e :: e in rooftops && !Visited(e, rooftops.Keys, transforms, shapeKeys) ==> r[e] == rooftops[e]
  {
    map e | e in rooftops :: ArmedAt(rooftops, transforms, shapeKeys, hopperY, leeway, e)
  }

  /** One collision shape of the storage after a run. */
  function SyncedAt(shapes: map<Entity, CollisionShape>, rooftops: map<Entity, RooftopComponent>,
                    transforms: map<Entity, Transform>, e: Entity): CollisionShape
    requires e in shapes
  {
    if e in rooftops && e in transforms then shapes[e].(enabled := rooftops[e].isCollisionEnabled) else shapes[e]
  }

  /** The collision shape storage after a run, given the rooftop storage
      after it. */
  function SyncShapes(shapes: map<Entity, CollisionShape>, rooftops: map<Entity, RooftopComponent>,
                      transforms: map<Entity, Transform>): (r: map<Entity, CollisionShape>)
    ensures r.Keys == shapes.Keys
    // a visited collider is enabled exactly when its rooftop is armed
    ensures forall e :: Visited(e, rooftops.Keys, transforms, shapes.Keys) ==>
      r[e].enabled == rooftops[e].isCollisionEnabled && r[e].halfExtents == shapes[e].halfExtents
    ensures forall e :: e in shapes && !Visited(e, rooftops.Keys, transforms, shapes.Keys) ==> r[e] == shapes[e]
  {
    map e | e in shapes :: SyncedAt(shapes, rooftops, transforms, e)
  }

  /** A storage that agrees with `ArmAll` on every entity is `ArmAll`. */
  lemma ArmAllPointwise(m: map<Entity, RooftopComponent>, rooftops: map<Entity, RooftopComponent>,
                        transforms: map<Entity, Transform>, shapeKeys: set<Entity>, hopperY: real, leeway: real)
    requires m.Keys == rooftops.Keys
    requires forall e :: e in m ==> m[e] == ArmedAt(rooftops, transforms, shapeKeys, hopperY, leeway, e)
    ensures m == ArmAll(rooftops, transforms, shapeKeys, hopperY, leeway)
  {
  }

  /** A storage that agrees with `SyncShapes` on every entity is `SyncShapes`. */
  lemma SyncShapesPointwise(m: map<Entity, CollisionShape>, shapes: map<Entity, CollisionShape>,
                            rooftops: map<Entity, RooftopComponent>, transforms: map<Entity, Transform>)
    requires m.Keys == shapes.Keys
    requires forall e :: e in m ==> m[e] == SyncedAt(shapes, rooftops, transforms, e)
    ensures m == SyncShapes(shapes, rooftops, transforms)
  {
  }

  /** A hopper exactly at the leeway does not arm a rooftop. */
  lemma AtLeewayNotArmed(c: RooftopComponent, rooftopY: real, leeway: real)
    ensures Armed(c, rooftopY + leeway, rooftopY, leeway) == c
  {
  }

  /** With the positions unchanged, a second run changes nothing. */
  lemma RunTwiceIsRunOnce(rooftops: map<Entity, RooftopComponent>, shapes: map<Entity, CollisionShape>,
                          transforms: map<Entity, Transform>, hopperY: real, leeway: real)
    ensures var r1 := ArmAll(rooftops, transforms, shapes.Keys, hopperY, leeway);
            var s1 := SyncShapes(shapes, r1, transforms);
            ArmAll(r1, transforms, s1.Keys, hopperY, leeway) == r1
            && SyncShapes(s1, r1, transforms) == s1
  {
    var r1 := ArmAll(rooftops, transforms, shapes.Keys, hopperY, leeway);
    var s1 := SyncShapes(shapes, r1, transforms);
    var r2 := ArmAll(r1, transforms, s1.Keys, hopperY, leeway);
    assert forall e :: e in r2 ==> r2[e] == r1[e];
    assert forall e :: e in s1 ==> SyncShapes(s1, r1, transforms)[e] == s1[e];
  }

  /** `RooftopColliderManagementSystem::run`. */
  method Run(player: Entity, transforms: map<Entity, Transform>, rooftops: Storage<RooftopComponent>,
             shapes: Storage<CollisionShape>, leeway: real)
    requires player in transforms
    modifies rooftops, shapes
    ensures rooftops.items == ArmAll(old(rooftops.items), transforms, old(shapes.items).Keys, transforms[player].y, leeway)
    ensures shapes.items == SyncShapes(old(shapes.items), rooftops.items, transforms)
  {
    var hopperPosition := transforms[player].y;
    var rooftopItems, shapeItems := rooftops.items, shapes.items;
    ghost var rooftops0, shapes0 := rooftopItems, shapeItems;
    var pending := rooftopItems.Keys * transforms.Keys * shapeItems.Keys;
    while pending != {}
      invariant pending <= rooftops0.Keys * transforms.Keys * shapes0.Keys
      invariant rooftopItems.Keys == rooftops0.Keys && shapeItems.Keys == shapes0.Keys
      invariant forall e :: e in rooftopItems ==>
        rooftopItems[e] == if e in pending then rooftops0[e] else ArmedAt(rooftops0, transforms, shapes0.Keys, hopperPosition, leeway, e)
      invariant forall e :: e in shapeItems ==>
        shapeItems[e] == if e in pending then shapes0[e] else SyncedAt(shapes0, rooftopItems, transforms, e)
      decreases pending
    {
      var e :| e in pending;
      var rooftop := rooftopItems[e];
      if hopperPosition > transforms[e].y + leeway {
        rooftop := rooftop.(isCollisionEnabled := true);
        rooftopItems := rooftopItems[e := rooftop];
      }
      shapeItems := shapeItems[e := shapeItems[e].(enabled := rooftop.isCollisionEnabled)];
      pending := pending - {e};
    }
    ArmAllPointwise(rooftopItems, rooftops0, transforms, shapes0.Keys, hopperPosition, leeway);
    SyncShapesPointwise(shapeItems, shapes0, rooftopItems, transforms);
    rooftops.items, shapes.items := rooftopItems, shapeItems;
  }
}
