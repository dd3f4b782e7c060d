/** EntityManager of the raycast engine (src/raycast/entity_manager.cpp): a
    registry of systems by component kind, and deletion in two steps — an
    entity is marked as pending and announced, and a later purge has every
    system remove every pending entity.

    The systems themselves are code the manager only calls into: a system
    is a handle, and every call the manager makes into a system is
    appended to a log, in the order it is made. */
module EntityManager {
  import opened Wrappers

  type EntityId = int

  /** A ComponentKind, by its enumerator value: m_systems is a std::map, so
      systems are visited in increasing kind. */
  type ComponentKind = nat

  /** A registered system object. */
  type SystemId = nat

  datatype GameEvent = EntityDeleted(entityId: EntityId) | Named(name: string)

  /** The calls the manager makes into a system. */
  datatype Request =
    | AddComponentRequest(entityId: EntityId)
    | RemoveEntityRequest(entityId: EntityId)
    | UpdateRequest
    | HandleEvent(event: GameEvent)
    | HandleEventFor(event: GameEvent, entities: set<EntityId>)

  datatype Call = Call(system: SystemId, request: Request)

  datatype ManagerError = NoSystemForKind(kind: ComponentKind)

  // ---------------------------------------------------------------------
  // Sorted containers: std::map keyed by kind, std::set of ids
  // ---------------------------------------------------------------------

  predicate KeysSorted(sys: seq<(ComponentKind, SystemId)>) {
    forall i, j :: 0 <= i < j < |sys| ==> sys[i].0 < sys[j].0
  }

  predicate StrictlySorted(s: seq<EntityId>) {
    forall i, j :: 0 <= i < j < |s| ==> s[i] < s[j]
  }

  function Lookup(sys: seq<(ComponentKind, SystemId)>, kind: ComponentKind): (r: Option<SystemId>)
    ensures r.Some? <==> exists i :: 0 <= i < |sys| && sys[i].0 == kind
    ensures r.Some? ==> exists i :: 0 <= i < |sys| && sys[i] == (kind, r.value)
  {
    if |sys| == 0 then None
    else if sys[0].0 == kind then Some(sys[0].1)
    else
      var r := Lookup(sys[1..], kind);
      assert r.Some? ==> exists i :: 0 <= i < |sys[1..]| && sys[1..][i] == (kind, r.value);
      assert forall i :: 0 < i < |sys| ==> sys[i] == sys[1..][i - 1];
      r
  }

  /** m_systems[kind] = system: insert, or replace the system held for the
      kind. */
  function Put(sys: seq<(ComponentKind, SystemId)>, kind: ComponentKind, s: SystemId)
    : (r: seq<(ComponentKind, SystemId)>)
    requires KeysSorted(sys)
    ensures KeysSorted(r)
    ensures |r| > 0 && r[0].0 == (if |sys| == 0 || kind < sys[0].0 then kind else sys[0].0)
  {
    if |sys| == 0 then [(kind, s)]
    else if kind < sys[0].0 then [(kind, s)] + sys
    else if kind == sys[0].0 then [(kind, s)] + sys[1..]
    else [sys[0]] + Put(sys[1..], kind, s)
  }

  /** Looking a kind up after Put finds the new system for that kind and
      the old answer for every other kind. */
  lemma {:induction false} LookupAfterPut(sys: seq<(ComponentKind, SystemId)>, kind: ComponentKind, s: SystemId,
                                          other: ComponentKind)
    requires KeysSorted(sys)
    ensures Lookup(Put(sys, kind, s), kind) == Some(s)
    ensures other != kind ==> Lookup(Put(sys, kind, s), other) == Lookup(sys, other)
  {
    if |sys| > 0 && kind > sys[0].0 {
      LookupAfterPut(sys[1..], kind, s, other);
    } else if |sys| > 0 && kind == sys[0].0 && other != kind {
      assert Lookup(sys, other) == Lookup(sys[1..], other);
    }
  }

  /** m_pendingDelete.insert(id). */
  function Insert(s: seq<EntityId>, x: EntityId): (r: seq<EntityId>)
    requires StrictlySorted(s)
    ensures StrictlySorted(r)
    ensures forall y :: y in r <==> y in s || y == x
    ensures x in s ==> r == s
  {
    if |s| == 0 then [x]
    else if x < s[0] then [x] + s
    else if x == s[0] then s
    else
      var rest := Insert(s[1..], x);
      assert forall i :: 0 <= i < |rest| ==> s[0] < rest[i] by {
        forall i | 0 <= i < |rest| ensures s[0] < rest[i] {
          assert rest[i] in rest;
          if rest[i] != x {
            var j :| 0 <= j < |s[1..]| && s[1..][j] == rest[i];
            assert s[1..][j] == s[j + 1];
          }
        }
      }
      assert x in s ==> x in s[1..];
      [s[0]] + rest
  }

  /** Inserting an id twice is inserting it once. */
  lemma InsertIdempotent(s: seq<EntityId>, x: EntityId)
    requires StrictlySorted(s)
    ensures Insert(Insert(s, x), x) == Insert(s, x)
    ensures |Insert(s, x)| == |s| + (if x in s then 0 else 1)
  {
    if |s| > 0 && x > s[0] {
      InsertIdempotent(s[1..], x);
      assert x in s <==> x in s[1..];
    }
  }

  // ---------------------------------------------------------------------
  // What the loops over m_systems send
  // ---------------------------------------------------------------------

  /** One request to each system, in m_systems order. */
  function Dispatch(sys: seq<(ComponentKind, SystemId)>, req: Request): (r: seq<Call>)
    ensures |r| == |sys|
    ensures forall i :: 0 <= i < |sys| ==> r[i] == Call(sys[i].1, req)
  {
    if |sys| == 0 then [] else Dispatch(sys[..|sys| - 1], req) + [Call(sys[|sys| - 1].1, req)]
  }

  /** The calls of purgeEntities: for each pending id in turn, a
      removeEntity to every system. */
  function PurgeCalls(ids: seq<EntityId>, sys: seq<(ComponentKind, SystemId)>): (r: seq<Call>)
  {
    if |ids| == 0 then [] else PurgeCalls(ids[..|ids| - 1], sys) + Dispatch(sys, RemoveEntityRequest(ids[|ids| - 1]))
  }

  /** The purge sends exactly |ids| * |systems| calls: the one at position
      k * |systems| + j asks system j to remove pending id k. */
  lemma {:induction false} PurgeCallsAt(ids: seq<EntityId>, sys: seq<(ComponentKind, SystemId)>, k: nat, j: nat)
    ensures |PurgeCalls(ids, sys)| == |ids| * |sys|
    ensures k < |ids| && j < |sys| ==>
      PurgeCalls(ids, sys)[k * |sys| + j] == Call(sys[j].1, RemoveEntityRequest(ids[k]))
  {
    var n, m := |ids|, |sys|;
    if n > 0 {
      var pre := ids[..n - 1];
      PurgeCallsAt(pre, sys, k, j);
      assert (n - 1) * m + m == n * m;
      if k < n && j < m {
        if k < n - 1 {
          assert k * m + j < (k + 1) * m <= (n - 1) * m by {
            assert (k + 1) * m == k * m + m;
            MulMonotone(k + 1, n - 1, m);
          }
          assert pre[k] == ids[k];
        } else {
          assert k * m + j == (n - 1) * m + j;
        }
      }
    }
  }

  lemma MulMonotone(a: nat, b: nat, m: nat)
    requires a <= b
    ensures a * m <= b * m
  {
  }

  // ---------------------------------------------------------------------
  // The manager
  // ---------------------------------------------------------------------

  class EntityManager {
    /** m_systems, in key order. */
    var systems: seq<(ComponentKind, SystemId)>
    /** m_pendingDelete, in key order. */
    var pendingDelete: seq<EntityId>
    /** Every call made into a system so far. */
    var calls: seq<Call>

    ghost predicate Valid()
      reads this
    {
      KeysSorted(systems) && StrictlySorted(pendingDelete)
    }

    constructor ()
      ensures Valid()
      ensures systems == [] && pendingDelete == [] && calls == []
    {
      systems := [];
      pendingDelete := [];
      calls := [];
    }

    /** addSystem: the kind now maps to the new system, replacing any
        system held for it. */
    method AddSystem(kind: ComponentKind, s: SystemId)
      requires Valid()
      modifies this
      ensures Valid()
      ensures systems == Put(old(systems), kind, s)
      ensures Lookup(systems, kind) == Some(s)
      ensures pendingDelete == old(pendingDelete) && calls == old(calls)
    {
      LookupAfterPut(systems, kind, s, kind);
      systems := Put(systems, kind, s);
    }

    /** hasComponent: false when no system is registered for the kind,
        otherwise that system's answer (`answer`). */
    function HasComponent(id: EntityId, kind: ComponentKind, answer: (SystemId, EntityId) -> bool): (b: bool)
      reads this
      ensures Lookup(systems, kind).None? ==> !b
      ensures Lookup(systems, kind).Some? ==> b == answer(Lookup(systems, kind).value, id)
    {
      match Lookup(systems, kind)
      case None => false
      case Some(s) => answer(s, id)
    }

    /** addComponent: hand the component to the system for its kind;
        m_systems.at raises when there is none. */
    method AddComponent(kind: ComponentKind, id: EntityId) returns (outcome: Outcome<ManagerError>)
      modifies this
      ensures systems == old(systems) && pendingDelete == old(pendingDelete)
      ensures Lookup(systems, kind).None? ==> outcome == Fail(NoSystemForKind(kind)) && calls == old(calls)
      ensures Lookup(systems, kind).Some? ==>
        outcome == Pass && calls == old(calls) + [Call(Lookup(systems, kind).value, AddComponentRequest(id))]
    {
      var s := Lookup(systems, kind);
      if s.None? {
        return Fail(NoSystemForKind(kind));
      }
      calls := calls + [Call(s.value, AddComponentRequest(id))];
      outcome := Pass;
    }

    /** One request to every system, in m_systems order. */
    method SendToAll(req: Request)
      modifies this
      ensures calls == old(calls) + Dispatch(systems, req)
      ensures systems == old(systems) && pendingDelete == old(pendingDelete)
    {
      var i := 0;
      while i < |systems|
        invariant i <= |systems|
        invariant calls == old(calls) + Dispatch(systems[..i], req)
        invariant systems == old(systems) && pendingDelete == old(pendingDelete)
      {
        assert systems[..i + 1][..i] == systems[..i];
        calls := calls + [Call(systems[i].1, req)];
        i := i + 1;
      }
      assert systems[..i] == systems;
    }

    /** update: every system updated once, in m_systems order. */
    method Update()
      modifies this
      ensures calls == old(calls) + Dispatch(systems, UpdateRequest)
      ensures systems == old(systems) && pendingDelete == old(pendingDelete)
    {
      SendToAll(UpdateRequest);
    }

    /** broadcastEvent: every system handles the event. */
    method BroadcastEvent(e: GameEvent)
      modifies this
      ensures calls == old(calls) + Dispatch(systems, HandleEvent(e))
      ensures systems == old(systems) && pendingDelete == old(pendingDelete)
    {
      SendToAll(HandleEvent(e));
    }

    /** fireEvent: every system handles the event for the given entities. */
    method FireEvent(e: GameEvent, entities: set<EntityId>)
      modifies this
      ensures calls == old(calls) + Dispatch(systems, HandleEventFor(e, entities))
      ensures systems == old(systems) && pendingDelete == old(pendingDelete)
    {
      SendToAll(HandleEventFor(e, entities));
    }

    /** deleteEntity: mark the entity, then announce it to the entity and
        to everyone. No system removes anything yet. */
    method DeleteEntity(id: EntityId)
      requires Valid()
      modifies this
      ensures Valid()
      ensures pendingDelete == Insert(old(pendingDelete), id)
      ensures systems == old(systems)
      ensures calls == old(calls) + Dispatch(systems, HandleEventFor(EntityDeleted(id), {id}))
                                  + Dispatch(systems, HandleEvent(EntityDeleted(id)))
      ensures forall c :: c in calls[|old(calls)|..] ==> !c.request.RemoveEntityRequest?
    {
      pendingDelete := Insert(pendingDelete, id);
      FireEvent(EntityDeleted(id), {id});
      BroadcastEvent(EntityDeleted(id));
    }

    /** purgeEntities: every system removes every pending id, ids in
        increasing order; then nothing is pending. */
    method PurgeEntities()
      modifies this
      ensures calls == old(calls) + PurgeCalls(old(pendingDelete), systems)
      ensures pendingDelete == [] && systems == old(systems)
    {
      var k := 0;
      while k < |pendingDelete|
        invariant k <= |pendingDelete|
        invariant systems == old(systems) && pendingDelete == old(pendingDelete)
        invariant calls == old(calls) + PurgeCalls(pendingDelete[..k], systems)
      {
        var id := pendingDelete[k];
        var j := 0;
        while j < |systems|
          invariant j <= |systems|
          invariant systems == old(systems) && pendingDelete == old(pendingDelete)
          invariant calls == old(calls) + PurgeCalls(pendingDelete[..k], systems)
                                        + Dispatch(systems[..j], RemoveEntityRequest(id))
        {
          assert systems[..j + 1][..j] == systems[..j];
          calls := calls + [Call(systems[j].1, RemoveEntityRequest(id))];
          j := j + 1;
        }
        assert systems[..j] == systems;
        assert pendingDelete[..k + 1][..k] == pendingDelete[..k];
        k := k + 1;
      }
      assert pendingDelete[..k] == pendingDelete;
      pendingDelete := [];
    }
  }

  /** Deleting an entity twice before a purge leaves it pending once, so
      the purge asks each system to remove it once. */
  lemma DeleteTwicePurgesOnce(pending: seq<EntityId>, id: EntityId, sys: seq<(ComponentKind, SystemId)>)
    requires StrictlySorted(pending)
    ensures Insert(Insert(pending, id), id) == Insert(pending, id)
    ensures |PurgeCalls(Insert(pending, id), sys)| == |Insert(pending, id)| * |sys|
    ensures forall k :: 0 <= k < |Insert(pending, id)| && Insert(pending, id)[k] == id ==>
      forall k' :: 0 <= k' < |Insert(pending, id)| && Insert(pending, id)[k'] == id ==> k == k'
  {
    InsertIdempotent(pending, id);
    PurgeCallsAt(Insert(pending, id), sys, 0, 0);
  }
}
