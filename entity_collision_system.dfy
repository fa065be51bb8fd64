/** The entity collision system: turns the engine's contact events into a
    per-entity contact state. Each run forgets every contact, then replays
    the events written since its last run, the later event winning. */
module EntityCollision {
  import opened Common
  import opened CollisionComponents

  /** Event `ev` names entity `e` as one of its two bodies. */
  predicate Names(ev: ContactEvent, e: Entity)
  {
    ev.first == e || ev.second == e
  }

  /** Some event of `events` names `e`. */
  predicate NamedIn(events: seq<ContactEvent>, e: Entity)
  {
    exists k :: 0 <= k < |events| && Names(events[k], e)
  }

  /** The clear step: every tracked entity loses its contact. */
  function Cleared(m: map<Entity, CollisionComponent>): (r: map<Entity, CollisionComponent>)
    ensures r.Keys == m.Keys
    ensures forall e :: e in r ==> !r[e].IsInCollision()
  {
    map e | e in m :: CollisionComponent(None)
  }

  /** Stores `ev` as the contact of `body`, when `body` carries a collision
      component; an untracked body is ignored. */
  function Record(m: map<Entity, CollisionComponent>, body: Entity, ev: ContactEvent): map<Entity, CollisionComponent>
  {
    if body in m then m[body := CollisionComponent(Some(ev))] else m
  }

  /** Replays `events` in channel order over `m`, each event written to both
      of its bodies. */
  function Replay(m: map<Entity, CollisionComponent>, events: seq<ContactEvent>): (r: map<Entity, CollisionComponent>)
    ensures r.Keys == m.Keys
    decreases |events|
  {
    if events == [] then m
    else
      var last := events[|events| - 1];
      Record(Record(Replay(m, events[..|events| - 1]), last.first, last), last.second, last)
  }

  /** After a replay, a tracked entity is in collision exactly when it was
      before or some replayed event names it. */
  lemma {:induction false} ReplayInCollision(m: map<Entity, CollisionComponent>, events: seq<ContactEvent>, e: Entity)
    requires e in m
    ensures e in Replay(m, events)
    ensures Replay(m, events)[e].IsInCollision() <==> m[e].IsInCollision() || NamedIn(events, e)
    decreases |events|
  {
    if events != [] {
      var init := events[..|events| - 1];
      var last := events[|events| - 1];
      ReplayInCollision(m, init, e);
      if Names(last, e) {
        assert Names(events[|events| - 1], e);
      } else {
        assert Replay(m, events)[e] == Replay(m, init)[e];
        if NamedIn(events, e) {
          var k :| 0 <= k < |events| && Names(events[k], e);
          assert k < |init| && init[k] == events[k];
        }
        if NamedIn(init, e) {
          var k :| 0 <= k < |init| && Names(init[k], e);
          assert events[k] == init[k];
        }
      }
    }
  }

  /** An entity that no replayed event names keeps its component. */
  lemma {:induction false} ReplayUnnamed(m: map<Entity, CollisionComponent>, events: seq<ContactEvent>, e: Entity)
    requires e in m
    requires forall k :: 0 <= k < |events| ==> !Names(events[k], e)
    ensures e in Replay(m, events) && Replay(m, events)[e] == m[e]
    decreases |events|
  {
    if events != [] {
      var init := events[..|events| - 1];
      assert forall k :: 0 <= k < |init| ==> init[k] == events[k];
      ReplayUnnamed(m, init, e);
      assert !Names(events[|events| - 1], e);
    }
  }

  /** Last write wins: the stored contact is the last event, in channel
      order, that names the entity. */
  lemma {:induction false} LastWriteWins(m: map<Entity, CollisionComponent>, events: seq<ContactEvent>, e: Entity, k: nat)
    requires e in m
    requires k < |events| && Names(events[k], e)
    requires forall j :: k < j < |events| ==> !Names(events[j], e)
    ensures e in Replay(m, events) && Replay(m, events)[e] == CollisionComponent(Some(events[k]))
    decreases |events|
  {
    var init := events[..|events| - 1];
    var last := events[|events| - 1];
    if k < |events| - 1 {
      assert !Names(last, e);
      assert forall j :: k < j < |init| ==> init[j] == events[j];
      LastWriteWins(m, init, e, k);
    }
  }

  /** A run with an empty drain leaves every tracked entity out of collision:
      no contact survives from one run to the next. */
  lemma NoCarryOver(m: map<Entity, CollisionComponent>, e: Entity)
    requires e in m
    ensures e in Replay(Cleared(m), []) && !Replay(Cleared(m), [])[e].IsInCollision()
  {
  }

  /** After a run, a tracked entity is in collision exactly when some drained
      event names it as either body. */
  lemma InCollisionAfterRun(m: map<Entity, CollisionComponent>, events: seq<ContactEvent>, e: Entity)
    requires e in m
    ensures e in Replay(Cleared(m), events)
    ensures Replay(Cleared(m), events)[e].IsInCollision() <==> NamedIn(events, e)
  {
    ReplayInCollision(Cleared(m), events, e);
  }

  /** `EntityCollisionSystem`: holds the reader of the contact channel. */
  class EntityCollisionSystem {
    /** The position in the contact channel up to which this system has read,
        once `Setup` registered it as a reader. */
    var contactReader: Option<nat>

    /** `Default`: not yet registered. */
    constructor ()
      ensures contactReader == None
    {
      contactReader := None;
    }

    /** Registers a reader, which receives only events written from now on. */
    method Setup(contacts: EventChannel<ContactEvent>)
      modifies this
      ensures contactReader == Some(|contacts.events|)
    {
      contactReader := Some(|contacts.events|);
    }

    /** One run: clear every contact, then drain the channel and record
        each event on both of its bodies. */
    method Run(collisions: Storage<CollisionComponent>, contacts: EventChannel<ContactEvent>)
      requires contactReader.Some? && contactReader.value <= |contacts.events|
      modifies this, collisions
      ensures contactReader == Some(|contacts.events|)
      ensures collisions.items == Replay(Cleared(old(collisions.items)), contacts.events[old(contactReader.value)..])
    {
      var start := contactReader.value;
      var pending := collisions.items.Keys;
      while pending != {}
        invariant pending <= collisions.items.Keys == old(collisions.items).Keys
        invariant forall e :: e in collisions.items && e !in pending ==> collisions.items[e] == CollisionComponent(None)
        decreases pending
      {
        var e :| e in pending;
        collisions.items := collisions.items[e := CollisionComponent(None)];
        pending := pending - {e};
      }
      assert collisions.items == Cleared(old(collisions.items));

      var drained := contacts.events[start..];
      ghost var cleared := collisions.items;
      var i := 0;
      while i < |drained|
        invariant 0 <= i <= |drained|
        invariant collisions.items == Replay(cleared, drained[..i])
      {
        var contact := drained[i];
        if contact.first in collisions.items {
          collisions.items := collisions.items[contact.first := CollisionComponent(Some(contact))];
        }
        if contact.second in collisions.items {
          collisions.items := collisions.items[contact.second := CollisionComponent(Some(contact))];
        }
        assert drained[..i + 1][..i] == drained[..i];
        i := i + 1;
      }
      assert drained[..i] == drained;
      contactReader := Some(|contacts.events|);
    }
  }
}
