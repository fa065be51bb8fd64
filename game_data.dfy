/** The game data: a base dispatcher that always runs and a list of named
    dispatch groups that the caller switches on per frame. A dispatcher is
    modelled by its identity only; running one is recorded by listing it. */
module Dispatching {
  import opened Common

  /** A built dispatcher, identified by `id`. */
  datatype Dispatcher = Dispatcher(id: nat)

  /** `DispatchGroup`: a named dispatcher. */
  datatype DispatchGroup = DispatchGroup(name: string, dispatcher: Dispatcher)

  /** The base dispatcher as a list: empty once it has been taken. */
  function BaseList(base: Option<Dispatcher>): (r: seq<Dispatcher>)
    ensures |r| <= 1
    ensures r == [] <==> base.None?
    ensures base.Some? ==> r == [base.value]
  {
    if base.Some? then [base.value] else []
  }

  /** The dispatchers of `groups`, in order. */
  function DispatchersOf(groups: seq<DispatchGroup>): (r: seq<Dispatcher>)
    ensures |r| == |groups|
    ensures forall i :: 0 <= i < |groups| ==> r[i] == groups[i].dispatcher
  {
    if groups == [] then [] else [groups[0].dispatcher] + DispatchersOf(groups[1..])
  }

  /** Whether every present index of `ids` names a group. */
  predicate ValidIds(groups: seq<DispatchGroup>, ids: seq<Option<nat>>)
  {
    forall i :: 0 <= i < |ids| && ids[i].Some? ==> ids[i].value < |groups|
  }

  /** The number of present indices in `ids`. */
  function CountSome(ids: seq<Option<nat>>): nat
  {
    if ids == [] then 0 else (if ids[0].Some? then 1 else 0) + CountSome(ids[1..])
  }

  /** The group dispatchers `ids` selects, in the order of `ids`; an absent
      index is skipped, a repeated one runs its dispatcher again. */
  function Selected(groups: seq<DispatchGroup>, ids: seq<Option<nat>>): (r: seq<Dispatcher>)
    requires ValidIds(groups, ids)
    ensures |r| == CountSome(ids)
    // only the groups' own dispatchers are ever run
    ensures forall d :: d in r ==> d in DispatchersOf(groups)
  {
    if ids == [] then []
    else
      var rest := Selected(groups, ids[1..]);
      if ids[0].Some? then [groups[ids[0].value].dispatcher] + rest else rest
  }

  /** Selecting a concatenation is selecting each part in turn. */
  lemma {:induction false} SelectedAppend(groups: seq<DispatchGroup>, ids1: seq<Option<nat>>, ids2: seq<Option<nat>>)
    requires ValidIds(groups, ids1) && ValidIds(groups, ids2)
    ensures ValidIds(groups, ids1 + ids2)
    ensures Selected(groups, ids1 + ids2) == Selected(groups, ids1) + Selected(groups, ids2)
    decreases |ids1|
  {
    if ids1 == [] {
      assert ids1 + ids2 == ids2;
    } else {
      assert (ids1 + ids2)[1..] == ids1[1..] + ids2;
      SelectedAppend(groups, ids1[1..], ids2);
    }
  }

  /** Each present index `ids[k]` runs the dispatcher of the group it names,
      at the position given by the present indices before it. */
  lemma {:induction false} SelectedAt(groups: seq<DispatchGroup>, ids: seq<Option<nat>>, k: nat)
    requires ValidIds(groups, ids) && k < |ids| && ids[k].Some?
    ensures CountSome(ids[..k]) < |Selected(groups, ids)|
    ensures Selected(groups, ids)[CountSome(ids[..k])] == groups[ids[k].value].dispatcher
  {
    if k == 0 {
      assert ids[..k] == [];
    } else {
      SelectedAt(groups, ids[1..], k - 1);
      assert ids[..k][1..] == ids[1..][..k - 1];
    }
  }

  /** A single index `i` runs exactly the dispatcher of group `i`. */
  lemma SelectedSingle(groups: seq<DispatchGroup>, i: nat)
    requires i < |groups|
    ensures ValidIds(groups, [Some(i)])
    ensures Selected(groups, [Some(i)]) == [groups[i].dispatcher]
  {
    SelectedAt(groups, [Some(i)], 0);
  }

  /** Absent indices change nothing: a list of `None` runs no group. */
  lemma SelectedNoneIsEmpty(groups: seq<DispatchGroup>, ids: seq<Option<nat>>)
    requires forall i :: 0 <= i < |ids| ==> ids[i].None?
    ensures ValidIds(groups, ids) && Selected(groups, ids) == []
  {
    if ids != [] {
      SelectedNoneIsEmpty(groups, ids[1..]);
    }
  }

  /** `GameData`. */
  class GameData {
    var baseDispatcher: Option<Dispatcher>
    var dispatchers: seq<DispatchGroup>

    /** `GameData::new`. */
    constructor(dispatcher: Dispatcher, dispatchGroups: seq<DispatchGroup>)
      ensures baseDispatcher == Some(dispatcher) && dispatchers == dispatchGroups
    {
      baseDispatcher := Some(dispatcher);
      dispatchers := dispatchGroups;
    }

    /** `GameData::get_dispatcher_id`: the index of the first group named
        `name`, or `None` when no group is. */
    method GetDispatcherId(name: string) returns (r: Option<nat>)
      ensures r.Some? ==> r.value < |dispatchers| && dispatchers[r.value].name == name
      ensures r.Some? ==> forall j :: 0 <= j < r.value ==> dispatchers[j].name != name
      ensures r.None? <==> forall j :: 0 <= j < |dispatchers| ==> dispatchers[j].name != name
    {
      for i := 0 to |dispatchers|
        invariant forall j :: 0 <= j < i ==> dispatchers[j].name != name
      {
        if dispatchers[i].name == name {
          return Some(i);
        }
      }
      return None;
    }

    /** `GameData::update`: runs the base dispatcher, if it is still there,
        then the selected groups in the order given, and returns the
        dispatchers it ran. An index past the end of the groups would panic,
        so the caller must not pass one. */
    method Update(dispatcherIds: seq<Option<nat>>) returns (ran: seq<Dispatcher>)
      requires ValidIds(dispatchers, dispatcherIds)
      ensures ran == BaseList(baseDispatcher) + Selected(dispatchers, dispatcherIds)
    {
      ran := [];
      if baseDispatcher.Some? {
        ran := [baseDispatcher.value];
      }
      for i := 0 to |dispatcherIds|
        invariant ValidIds(dispatchers, dispatcherIds[..i])
        invariant ran == BaseList(baseDispatcher) + Selected(dispatchers, dispatcherIds[..i])
      {
        SelectedAppend(dispatchers, dispatcherIds[..i], [dispatcherIds[i]]);
        assert dispatcherIds[..i + 1] == dispatcherIds[..i] + [dispatcherIds[i]];
        if dispatcherIds[i].Some? {
          ran := ran + [dispatchers[dispatcherIds[i].value].dispatcher];
        }
      }
      assert dispatcherIds[..|dispatcherIds|] == dispatcherIds;
    }

    /** `GameData::dispose`: takes the base dispatcher, then removes the
        groups from the front one at a time, and returns the dispatchers it
        disposed, in order. */
    method Dispose() returns (disposed: seq<Dispatcher>)
      modifies this
      ensures baseDispatcher == None && dispatchers == []
      ensures disposed == BaseList(old(baseDispatcher)) + DispatchersOf(old(dispatchers))
      // so a second dispose disposes nothing
      ensures old(baseDispatcher) == None && old(dispatchers) == [] ==> disposed == []
    {
      disposed := [];
      if baseDispatcher.Some? {
        disposed := [baseDispatcher.value];
        baseDispatcher := None;
      }
      while |dispatchers| > 0
        invariant baseDispatcher == None
        invariant disposed + DispatchersOf(dispatchers) == BaseList(old(baseDispatcher)) + DispatchersOf(old(dispatchers))
        decreases |dispatchers|
      {
        var dispatchGroup := dispatchers[0];
        dispatchers := dispatchers[1..];
        disposed := disposed + [dispatchGroup.dispatcher];
      }
    }
  }
}
