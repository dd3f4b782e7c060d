/** The subscription handle of the event system (src/event_system.hpp): a
    move-only owner of a listener id, with -1 meaning "holds nothing", that
    asks its event system to forget the id when it is destroyed. */
module EventSystem {

  const NoId: int := -1

  /** The event system as a handle sees it through its weak pointer: whether
      it is still alive, and the ids handles have asked it to forget (the
      handler tables are not part of this model). */
  class EventSystem {
    var alive: bool
    var forgotten: seq<int>

    constructor ()
      ensures alive && forgotten == []
    {
      alive := true;
      forgotten := [];
    }

    /** forget, as seen from a handle: the id is recorded as forgotten. */
    method Forget(id: int)
      modifies this
      ensures forgotten == old(forgotten) + [id] && alive == old(alive)
    {
      forgotten := forgotten + [id];
    }

    /** The last shared owner goes away; weak pointers no longer lock. */
    method Expire()
      modifies this
      ensures !alive && forgotten == old(forgotten)
    {
      alive := false;
    }
  }

  class Handle {
    var id: int
    /** The weak pointer; null when default-constructed. */
    var system: EventSystem?

    /** The default handle holds no id and no event system. */
    constructor Empty()
      ensures id == NoId && system == null
    {
      id := NoId;
      system := null;
    }

    /** The handle listen returns. */
    constructor (eventSystem: EventSystem, listenerId: int)
      ensures id == listenerId && system == eventSystem
    {
      id := listenerId;
      system := eventSystem;
    }

    /** Move construction takes the id and the event system; the source is
        left holding no id (it keeps its weak pointer). */
    constructor Move(cpy: Handle)
      modifies cpy
      ensures id == old(cpy.id) && system == old(cpy.system)
      ensures cpy.id == NoId && cpy.system == old(cpy.system)
    {
      id := cpy.id;
      system := cpy.system;
      new;
      cpy.id := NoId;
    }

    /** Move assignment takes the id and the event system and leaves the
        source holding no id.  The id this handle held before is dropped
        without being forgotten, and moving a handle onto itself leaves it
        holding no id. */
    method MoveAssign(rhs: Handle)
      modifies this, rhs
      ensures rhs.id == NoId && system == old(rhs.system)
      ensures rhs != this ==> id == old(rhs.id) && rhs.system == old(rhs.system)
    {
      id := rhs.id;
      system := rhs.system;
      rhs.id := NoId;
    }

    /** The destructor: forget the id only when the handle holds one and its
        event system is still alive. */
    method Destroy()
      modifies system
      ensures system != null && old(system.alive) && id != NoId ==>
        system.forgotten == old(system.forgotten) + [id]
      ensures system != null && !(old(system.alive) && id != NoId) ==>
        system.forgotten == old(system.forgotten)
      ensures system != null ==> system.alive == old(system.alive)
    {
      if system != null && system.alive && id != NoId {
        system.Forget(id);
      }
    }
  }

  /** The ids held by a collection of handles, one entry per handle: no live
      id is held twice. */
  predicate UniqueIds(ids: seq<int>) {
    forall i, j :: 0 <= i < j < |ids| && ids[i] != NoId ==> ids[i] != ids[j]
  }

  /** Move-constructing a new handle from handle k: the new handle holds k's
      id and k holds none. */
  function MoveConstructIds(ids: seq<int>, k: nat): (r: seq<int>)
    requires k < |ids|
    ensures |r| == |ids| + 1 && r[|ids|] == ids[k] && r[k] == NoId
    ensures forall i :: 0 <= i < |ids| && i != k ==> r[i] == ids[i]
    ensures UniqueIds(ids) ==> UniqueIds(r)
  {
    var r := ids[k := NoId] + [ids[k]];
    assert forall i :: 0 <= i < |ids| && i != k ==> r[i] == ids[i];
    r
  }

  /** Move-assigning handle s to handle d: d holds s's id (d's previous id
      is dropped) and s holds none. */
  function MoveAssignIds(ids: seq<int>, d: nat, s: nat): (r: seq<int>)
    requires d < |ids| && s < |ids|
    ensures |r| == |ids| && r[s] == NoId
    ensures d != s ==> r[d] == ids[s]
    ensures forall i :: 0 <= i < |ids| && i != d && i != s ==> r[i] == ids[i]
    ensures UniqueIds(ids) ==> UniqueIds(r)
  {
    ids[d := ids[s]][s := NoId]
  }

  /** A move between handles of the collection, by position. */
  datatype Move = Construct(from: nat) | Assign(to: nat, from: nat)

  /** One move; a move naming a handle that does not exist changes
      nothing. */
  function ApplyMove(ids: seq<int>, m: Move): (r: seq<int>)
    ensures UniqueIds(ids) ==> UniqueIds(r)
  {
    match m
    case Construct(k) => if k < |ids| then MoveConstructIds(ids, k) else ids
    case Assign(d, s) => if d < |ids| && s < |ids| then MoveAssignIds(ids, d, s) else ids
  }

  function ApplyMoves(ids: seq<int>, moves: seq<Move>): seq<int>
    decreases |moves|
  {
    if |moves| == 0 then ids else ApplyMoves(ApplyMove(ids, moves[0]), moves[1..])
  }

  /** Because handles cannot be copied, creating handles from distinct
      listener ids and then moving them around in any order keeps every live
      id in at most one handle. */
  lemma {:induction false} MovesKeepIdsUnique(ids: seq<int>, moves: seq<Move>)
    requires UniqueIds(ids)
    ensures UniqueIds(ApplyMoves(ids, moves))
    decreases |moves|
  {
    if |moves| > 0 {
      MovesKeepIdsUnique(ApplyMove(ids, moves[0]), moves[1..]);
    }
  }
}
