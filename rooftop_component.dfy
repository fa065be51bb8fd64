/** The rooftop component: marks an entity as a rooftop and says whether
    the player can land on it yet. */
module RooftopComponents {

  /** `RooftopComponent`. Rooftops let the player pass upward through them
      once; after that the player lands on them. */
  datatype RooftopComponent = RooftopComponent(isCollisionEnabled: bool)
  {
    /** The by-value builder: the same rooftop with the flag set to
        `enabled`. */
    function WithCollisionEnabled(enabled: bool): (r: RooftopComponent)
      ensures r.isCollisionEnabled == enabled
      ensures enabled == isCollisionEnabled ==> r == this
    {
      this.(isCollisionEnabled := enabled)
    }
  }

  /** `Default`: collision disabled. */
  function DefaultRooftopComponent(): (r: RooftopComponent)
    ensures !r.isCollisionEnabled
  {
    RooftopComponent(false)
  }

  /** Chained builders keep the last value. */
  lemma WithCollisionEnabledLastWins(c: RooftopComponent, b1: bool, b2: bool)
    ensures c.WithCollisionEnabled(b1).WithCollisionEnabled(b2) == c.WithCollisionEnabled(b2)
  {
  }

  /** The component a rooftop entity is created with: the default with the
      flag the caller chose. */
  function NewRooftopComponent(enabled: bool): (r: RooftopComponent)
    ensures r.isCollisionEnabled == enabled
  {
    DefaultRooftopComponent().WithCollisionEnabled(enabled)
  }

  /** The base rooftop of the level, created with collision enabled so the
      player can stand on it from the start. */
  function BaseRooftop(): (r: RooftopComponent)
    ensures r.isCollisionEnabled
  {
    NewRooftopComponent(true)
  }

  /** The six rooftops of the initial path above the base, created with
      collision disabled so the player can jump up through them. */
  function PathRooftops(): (r: seq<RooftopComponent>)
    ensures |r| == 6
    ensures forall i :: 0 <= i < |r| ==> !r[i].isCollisionEnabled
  {
    var path := NewRooftopComponent(false);
    [path, path, path, path, path, path]
  }

  /** Of the rooftops a new level starts with (the base, then the path),
      exactly the base is armed. */
  lemma OnlyBaseArmed()
    ensures var level := [BaseRooftop()] + PathRooftops();
      |level| == 7 && forall i :: 0 <= i < |level| ==> (level[i].isCollisionEnabled <==> i == 0)
  {
  }
}
