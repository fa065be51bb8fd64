/** The collision component: the contact state of one entity, derived each
    tick from the engine's contact events. */
module CollisionComponents {
  import opened Common

  /** `CollisionComponent`: the most recent contact event of this tick that
      names the entity, or `None` when it touches nothing. */
  datatype CollisionComponent = CollisionComponent(contactEvent: Option<ContactEvent>)
  {
    predicate IsInCollision(): (r: bool)
      ensures r <==> contactEvent != None
    {
      contactEvent.Some?
    }
  }

  /** `Default`: no contact recorded. */
  function DefaultCollisionComponent(): (c: CollisionComponent)
    ensures !c.IsInCollision()
  {
    CollisionComponent(None)
  }

  /** Whether an entity is in collision depends only on a contact being
      recorded, not on which contact it is. */
  lemma InCollisionIgnoresContents(c1: CollisionComponent, c2: CollisionComponent)
    ensures c1.IsInCollision() == c2.IsInCollision() <==> c1.contactEvent.Some? == c2.contactEvent.Some?
  {
  }
}
