/** Types shared by every part of the model: entity identities, the small
    value records the physics engine exchanges with the game (vectors,
    velocities, transforms, contact events), the engine's per-entity
    component storages and its event channels. */
module Common {

  /** An ECS entity identity. Only equality matters to the game logic. */
  type Entity = nat

  datatype Option<T> = None | Some(value: T)

  /** `f32::EPSILON`, the gap between 1.0 and the next `f32` (2^-23). */
  const Epsilon: real := 0.00000011920928955078125

  /** A 2D vector (`cgmath::Vector2<f32>`). */
  datatype Vec2 = Vec2(x: real, y: real)

  /** A rigid-body velocity (`Velocity2<f32>`): linear part and angular part. */
  datatype Velocity = Velocity(linear: Vec2, angular: real)

  /** The translation of an entity's `Transform` (rotation and scale are not
      read by the game logic). */
  datatype Transform = Transform(x: real, y: real, z: real)

  /** The part of a contact that the engine reports besides the two bodies. */
  datatype Contact = Contact(normal: Vec2, penetrationDepth: real, contactPoint: Vec2)

  /** A pairwise contact event (`ContactEvent2<f32>`): the two bodies and the
      contact between them. */
  datatype ContactEvent = ContactEvent(first: Entity, second: Entity, contact: Contact)

  /** A component storage the engine lends to a system for writing
      (`WriteStorage<T>`): the entities that carry a `T`, with their values.
      A system that writes a component reassigns `items`. */
  class Storage<T> {
    var items: map<Entity, T>

    constructor (items: map<Entity, T>)
      ensures this.items == items
    {
      this.items := items;
    }
  }

  /** An engine event channel (`EventChannel<E>`), modelled as the sequence of
      every event written to it so far. */
  class EventChannel<E> {
    var events: seq<E>

    constructor ()
      ensures events == []
    {
      events := [];
    }

    /** `single_write`: appends one event. */
    method SingleWrite(e: E)
      modifies this
      ensures events == old(events) + [e]
    {
      events := events + [e];
    }
  }
}
