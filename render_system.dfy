/** RenderSystem of the raycast engine (src/raycast/render_system.cpp): the
    registry of render components by entity id, the parent-to-children
    record, and the render graph they are attached to. */
module RenderSystem {
  import opened Wrappers
  import RenderComponents
  import opened RenderGraph
  import opened RenderConnect

  type EntityId = RenderComponents.EntityId

  /** What m_components remembers of a registered component: its kind and
      the parent it was added under. */
  datatype Entry = Entry(kind: Kind, parentId: EntityId)

  function EntryOf(c: CRender): Entry {
    Entry(c.kind, c.parentId)
  }

  /** std::map::insert: the map is left alone when the key is present. */
  function InsertNew(m: map<EntityId, Entry>, k: EntityId, v: Entry): (r: map<EntityId, Entry>)
    ensures k in r && r[k] == (if k in m then m[k] else v)
    ensures forall x :: x in m ==> x in r && r[x] == m[x]
    ensures r.Keys == m.Keys + {k}
  {
    if k in m then m else m[k := v]
  }

  /** m_entityChildren[parent].insert(child), creating the record if need be. */
  function RecordChild(ec: map<EntityId, set<EntityId>>, parent: EntityId, child: EntityId)
    : (r: map<EntityId, set<EntityId>>)
    ensures parent in r && child in r[parent]
    ensures r[parent] == (if parent in ec then ec[parent] else {}) + {child}
    ensures forall x :: x in ec && x != parent ==> x in r && r[x] == ec[x]
    ensures r.Keys == ec.Keys + {parent}
  {
    ec[parent := (if parent in ec then ec[parent] else {}) + {child}]
  }

  function Elems(s: seq<EntityId>): set<EntityId> {
    set y | y in s
  }

  /** Every element of s after the first is recorded as a child of an
      earlier one: s is an order in which the descendants of s[0] can be
      reached. */
  ghost predicate DescentOrder(ec: map<EntityId, set<EntityId>>, s: seq<EntityId>) {
    forall k :: 0 < k < |s| ==> ReachedFromEarlier(ec, s, k)
  }

  ghost predicate ReachedFromEarlier(ec: map<EntityId, set<EntityId>>, s: seq<EntityId>, k: nat)
    requires k < |s|
  {
    exists j :: 0 <= j < k && s[j] in ec && s[k] in ec[s[j]]
  }

  /** Every recorded child of a member of `done` is in `done` or in `todo`. */
  ghost predicate ClosedWithin(ec: map<EntityId, set<EntityId>>, done: set<EntityId>, todo: set<EntityId>) {
    forall y, z :: y in done && y in ec && z in ec[y] ==> z in done || z in todo
  }

  /** A non-empty set has an element. */
  lemma NonEmpty(a: set<EntityId>)
    requires a != {}
    ensures exists x :: x in a
  {
    assert (forall x :: x !in a) ==> a == {};
  }

  lemma SubsetCard(a: set<EntityId>, b: set<EntityId>)
    requires a <= b
    ensures |a| <= |b|
    decreases a
  {
    if a != {} {
      NonEmpty(a);
      var x :| x in a;
      SubsetCard(a - {x}, b - {x});
    }
  }

  /** Appending the descendants of one child to those found so far keeps
      the order a descent order of the original record. */
  lemma AppendDescent(ec: map<EntityId, set<EntityId>>, ec': map<EntityId, set<EntityId>>,
                      acc: seq<EntityId>, r: seq<EntityId>)
    requires |acc| > 0 && acc[0] in ec && |r| > 0 && r[0] in ec[acc[0]]
    requires DescentOrder(ec, acc) && DescentOrder(ec', r)
    requires forall x :: x in ec' ==> x in ec && ec'[x] == ec[x]
    ensures DescentOrder(ec, acc + r)
  {
    var s := acc + r;
    forall k | 0 < k < |s| ensures ReachedFromEarlier(ec, s, k) {
      if k < |acc| {
        assert ReachedFromEarlier(ec, acc, k);
        var j :| 0 <= j < k && acc[j] in ec && acc[k] in ec[acc[j]];
        assert s[j] == acc[j] && s[k] == acc[k];
        assert 0 <= j < k && s[j] in ec && s[k] in ec[s[j]];
      } else if k == |acc| {
        assert s[0] == acc[0] && s[k] == r[0];
        assert 0 <= 0 < k && s[0] in ec && s[k] in ec[s[0]];
      } else {
        var k' := k - |acc|;
        assert 0 < k' < |r| && s[k] == r[k'];
        assert ReachedFromEarlier(ec', r, k');
        var j :| 0 <= j < k' && r[j] in ec' && r[k'] in ec'[r[j]];
        assert s[|acc| + j] == r[j];
        assert 0 <= |acc| + j < k && s[|acc| + j] in ec && s[k] in ec[s[|acc| + j]];
      }
    }
  }

  lemma MinusMinus<V>(m: map<EntityId, V>, a: set<EntityId>, b: set<EntityId>)
    ensures (m - a) - b == m - (a + b)
  {
  }

  /** Dropping the records of a set holding a recorded id leaves fewer
      records. */
  lemma KeysShrink(ec: map<EntityId, set<EntityId>>, gone: set<EntityId>, id: EntityId)
    requires id in gone && id in ec
    ensures |(ec - gone).Keys| < |ec.Keys|
  {
    SubsetCard((ec - gone).Keys, ec.Keys - {id});
    assert ec.Keys == (ec.Keys - {id}) + {id};
  }

  /** The loop of removeEntity_r after the call for child c: everything
      its invariant says of the removed ids still holds with c's
      descendants added. */
  lemma ChildHandled(ec0: map<EntityId, set<EntityId>>, comp0: map<EntityId, Entry>,
                     removed: seq<EntityId>, remaining: set<EntityId>, c: EntityId, r: seq<EntityId>,
                     ecK: map<EntityId, set<EntityId>>, compK: map<EntityId, Entry>)
    requires |removed| > 0 && removed[0] in ec0 && remaining <= ec0[removed[0]] && c in remaining
    requires DescentOrder(ec0, removed) && ClosedWithin(ec0, Elems(removed), remaining)
    requires ecK == ec0 - Elems(removed) && compK == comp0 - Elems(removed)
    requires |r| > 0 && r[0] == c && DescentOrder(ecK, r) && ClosedWithin(ecK, Elems(r), {})
    ensures DescentOrder(ec0, removed + r)
    ensures ClosedWithin(ec0, Elems(removed + r), remaining - {c})
    ensures ecK - Elems(r) == ec0 - Elems(removed + r)
    ensures compK - Elems(r) == comp0 - Elems(removed + r)
  {
    AppendDescent(ec0, ecK, removed, r);
    assert r[0] in Elems(r);
    ClosureStep(ec0, ecK, Elems(removed), remaining, c, Elems(r));
    assert Elems(removed + r) == Elems(removed) + Elems(r);
    MinusMinus(ec0, Elems(removed), Elems(r));
    MinusMinus(comp0, Elems(removed), Elems(r));
  }

  /** Handling one more child keeps everything found closed, up to the
      children still to handle. */
  lemma ClosureStep(ec: map<EntityId, set<EntityId>>, ecK: map<EntityId, set<EntityId>>,
                    done: set<EntityId>, todo: set<EntityId>, c: EntityId, found: set<EntityId>)
    requires ClosedWithin(ec, done, todo) && c in todo && c in found
    requires ecK == ec - done
    requires ClosedWithin(ecK, found, {})
    ensures ClosedWithin(ec, done + found, todo - {c})
  {
  }

  class RenderSystem {
    /** m_components: every registered component by entity id. */
    var components: map<EntityId, Entry>
    /** m_entityChildren: the ids added under each parent id. */
    var entityChildren: map<EntityId, set<EntityId>>
    /** rg: the render graph. */
    var rg: RenderGraph

    constructor ()
      ensures components == map[] && entityChildren == map[]
      ensures rg == RenderGraph(None, [], {})
    {
      components := map[];
      entityChildren := map[];
      rg := RenderGraph(None, [], {});
    }

    /** hasComponent: whether the id is registered. */
    function HasComponent(id: EntityId): (b: bool)
      reads this
      ensures b <==> id in components
    {
      id in components
    }

    /** isRoot: a region component that is the root region. */
    function IsRoot(c: CRender): (b: bool)
      reads this
      ensures b ==> c.kind == Region && rg.root.Some?
      ensures b <==> c.kind == Region && rg.root.Some? && rg.root.value.id == c.entityId
    {
      if c.kind != Region then false
      else if rg.root.None? then false
      else rg.root.value.id == c.entityId
    }

    /** addComponent. A parentless region becomes the root, once, and
        leaves only itself registered; a parentless overlay joins the
        overlay set; any other parentless kind raises. A child of an
        unregistered parent raises; otherwise the child is recorded under
        its parent first and then attached by the hosting rules, and only
        an attached child is registered. */
    method AddComponent(c: CRender) returns (outcome: Outcome<Error>)
      modifies this
      ensures c.parentId == RenderComponents.NoEntity && c.kind == Region && old(rg.root).Some? ==>
        outcome == Fail(RootAlreadySet) &&
        components == old(components) && entityChildren == old(entityChildren) && rg == old(rg)
      ensures c.parentId == RenderComponents.NoEntity && c.kind == Region && old(rg.root).None? ==>
        outcome == Pass && rg == old(rg).(root := Some(NewRegion(c.entityId))) &&
        components == map[c.entityId := EntryOf(c)] && entityChildren == old(entityChildren)
      ensures c.parentId == RenderComponents.NoEntity && c.kind == Overlay ==>
        outcome == Pass && rg == old(rg).(overlays := old(rg.overlays) + {c.entityId}) &&
        components == InsertNew(old(components), c.entityId, EntryOf(c)) &&
        entityChildren == old(entityChildren)
      ensures c.parentId == RenderComponents.NoEntity && c.kind != Region && c.kind != Overlay ==>
        outcome == Fail(NoParentNotRegionOrOverlay(c.kind)) &&
        components == old(components) && entityChildren == old(entityChildren) && rg == old(rg)
      ensures c.parentId != RenderComponents.NoEntity && c.parentId !in old(components) ==>
        outcome == Fail(ParentNotFound(c.parentId)) &&
        components == old(components) && entityChildren == old(entityChildren) && rg == old(rg)
      ensures c.parentId != RenderComponents.NoEntity && c.parentId in old(components) ==>
        entityChildren == RecordChild(old(entityChildren), c.parentId, c.entityId) &&
        var r := AddChildToComponent(old(rg), c.parentId, old(components)[c.parentId].kind, NewObject(c));
        (r.Err? ==> outcome == Fail(r.error) && rg == old(rg) && components == old(components)) &&
        (r.Ok? ==> outcome == Pass && rg == r.value &&
                   components == InsertNew(old(components), c.entityId, EntryOf(c)))
      ensures old(BoundariesListed(rg)) ==> BoundariesListed(rg)
      ensures old(rg.root).Some? ==> rg.root.Some? && rg.root.value.id == old(rg.root).value.id
    {
      if c.parentId == RenderComponents.NoEntity {
        if c.kind == Region {
          if rg.root.Some? {
            return Fail(RootAlreadySet);
          }
          rg := rg.(root := Some(NewRegion(c.entityId)));
          components := map[];
        } else if c.kind == Overlay {
          rg := rg.(overlays := rg.overlays + {c.entityId});
        } else {
          return Fail(NoParentNotRegionOrOverlay(c.kind));
        }
      } else {
        if c.parentId !in components {
          return Fail(ParentNotFound(c.parentId));
        }
        var parent := components[c.parentId];
        entityChildren := RecordChild(entityChildren, c.parentId, c.entityId);
        var r := AddChildToComponent(rg, c.parentId, parent.kind, NewObject(c));
        if r.Err? {
          return Fail(r.error);
        }
        if BoundariesListed(rg) {
          AddChildKeepsBoundariesListed(rg, c.parentId, parent.kind, NewObject(c));
        }
        rg := r.value;
      }
      components := InsertNew(components, c.entityId, EntryOf(c));
      outcome := Pass;
    }

    /** removeEntity_r: unregister the id and, through the child record,
        every id recorded below it; each record is dropped as it is met.
        `removed` lists what was dropped, in an order that reaches each id
        from an earlier one. */
    method RemoveEntityR(id: EntityId) returns (ghost removed: seq<EntityId>)
      modifies this
      ensures |removed| > 0 && removed[0] == id
      ensures DescentOrder(old(entityChildren), removed)
      ensures ClosedWithin(old(entityChildren), Elems(removed), {})
      ensures entityChildren == old(entityChildren) - Elems(removed)
      ensures components == old(components) - Elems(removed)
      ensures rg == old(rg)
      decreases |entityChildren.Keys|
    {
      ghost var ec0 := entityChildren;
      ghost var comp0 := components;
      components := components - {id};
      removed := [id];
      assert Elems(removed) == {id};
      if id !in entityChildren {
        assert ec0 - {id} == ec0;
        return;
      }
      var remaining := entityChildren[id];
      entityChildren := entityChildren - {id};
      assert ClosedWithin(ec0, Elems(removed), remaining);
      while remaining != {}
        invariant remaining <= ec0[id]
        invariant |removed| > 0 && removed[0] == id
        invariant DescentOrder(ec0, removed)
        invariant ClosedWithin(ec0, Elems(removed), remaining)
        invariant entityChildren == ec0 - Elems(removed)
        invariant components == comp0 - Elems(removed)
        invariant rg == old(rg)
        decreases |remaining|
      {
        NonEmpty(remaining);
        var c :| c in remaining;
        assert id in Elems(removed);
        KeysShrink(ec0, Elems(removed), id);
        ghost var ecK, compK := entityChildren, components;
        ghost var r := RemoveEntityR(c);
        ChildHandled(ec0, comp0, removed, remaining, c, r, ecK, compK);
        removed := removed + r;
        assert |remaining - {c}| < |remaining|;
        remaining := remaining - {c};
      }
    }
  
    /** removeEntity: an unregistered id changes nothing. Otherwise the
        component is detached from its registered parent (which may raise,
        leaving everything as it was), or, having none, an overlay leaves
        the overlay set; then removeEntity_r drops the id and its recorded
        descendants. */
    method RemoveEntity(id: EntityId) returns (outcome: Outcome<Error>, ghost removed: seq<EntityId>)
      modifies this
      ensures id !in old(components) ==>
        outcome == Pass && removed == [] &&
        components == old(components) && entityChildren == old(entityChildren) && rg == old(rg)
      ensures id in old(components) ==>
        var d := DetachFromParent(old(rg), old(components), id);
        (d.Err? ==> outcome == Fail(d.error) && removed == [] &&
                    components == old(components) && entityChildren == old(entityChildren) && rg == old(rg)) &&
        (d.Ok? ==> outcome == Pass && rg == d.value &&
                   |removed| > 0 && removed[0] == id &&
                   DescentOrder(old(entityChildren), removed) &&
                   ClosedWithin(old(entityChildren), Elems(removed), {}) &&
                   entityChildren == old(entityChildren) - Elems(removed) &&
                   components == old(components) - Elems(removed))
    {
      removed := [];
      if id !in components {
        return Pass, removed;
      }
      var d := DetachFromParent(rg, components, id);
      if d.Err? {
        return Fail(d.error), removed;
      }
      rg := d.value;
      removed := RemoveEntityR(id);
      outcome := Pass;
    }

    /** crossRegions: move a registered entity's object from one region to
        another. Both zones must be registered regions. The object is
        released from the old region and, if it was found there, appended
        to the new one as it is; the registry is not touched. */
    method CrossRegions(entityId: EntityId, oldZone: EntityId, newZone: EntityId) returns (outcome: Outcome<Error>)
      modifies this
      ensures components == old(components) && entityChildren == old(entityChildren)
      ensures entityId !in components ==> outcome == Pass && rg == old(rg)
      ensures entityId in components && oldZone !in components ==>
        outcome == Fail(ComponentNotFound(oldZone)) && rg == old(rg)
      ensures entityId in components && oldZone in components && components[oldZone].kind != Region ==>
        outcome == Fail(NotARegion(oldZone)) && rg == old(rg)
      ensures entityId in components && oldZone in components && components[oldZone].kind == Region &&
              newZone !in components ==>
        outcome == Fail(ComponentNotFound(newZone)) && rg == old(rg)
      ensures entityId in components && oldZone in components && components[oldZone].kind == Region &&
              newZone in components && components[newZone].kind != Region ==>
        outcome == Fail(NotARegion(newZone)) && rg == old(rg)
      ensures entityId in components && oldZone in components && components[oldZone].kind == Region &&
              newZone in components && components[newZone].kind == Region ==>
        var rem := RemoveFromRegion(old(rg), oldZone, components[entityId].kind, entityId);
        (rem.Err? ==> outcome == Fail(rem.error) && rg == old(rg)) &&
        (rem.Ok? && rem.value.1.None? ==> outcome == Pass && rg == rem.value.0) &&
        (rem.Ok? && rem.value.1.Some? ==>
           outcome == Pass && AddToRegion(rem.value.0, newZone, rem.value.1.value).Ok? &&
           rg == AddToRegion(rem.value.0, newZone, rem.value.1.value).value)
      ensures outcome.Fail? ==> rg == old(rg) && !outcome.error.CannotAddToRegion?
      ensures rg.overlays == old(rg.overlays)
    {
      if entityId !in components {
        return Pass;
      }
      var kind := components[entityId].kind;
      if oldZone !in components {
        return Fail(ComponentNotFound(oldZone));
      }
      if components[oldZone].kind != Region {
        return Fail(NotARegion(oldZone));
      }
      if newZone !in components {
        return Fail(ComponentNotFound(newZone));
      }
      if components[newZone].kind != Region {
        return Fail(NotARegion(newZone));
      }
      var rem := RemoveFromRegion(rg, oldZone, kind, entityId);
      if rem.Err? {
        return Fail(rem.error);
      }
      var (rg', found) := rem.value;
      rg := rg';
      if found.Some? {
        var added := AddToRegion(rg, newZone, found.value);
        rg := added.value;
      }
      outcome := Pass;
    }

    /** connectRegions: the twinning pass over the tree below the root. */
    method ConnectRegions()
      requires rg.root.Some?
      modifies this
      ensures rg == old(rg).(boundaries := ConnectSubregions(old(rg).root.value, old(rg).boundaries))
      ensures components == old(components) && entityChildren == old(entityChildren)
    {
      var out := ConnectSubregionsLoop(rg.root.value, rg.boundaries);
      rg := rg.(boundaries := out);
    }
  }

  /** The detaching step of removeEntity: from the registered parent, by
      the removal rules, failing exactly when that parent cannot let go of
      the child's kind; an overlay with no registered parent is taken out of
      the overlay set; anything else with no registered parent (the root
      region) stays where it is, and no other detach touches the overlays. */
  function DetachFromParent(rg: RenderGraph, components: map<EntityId, Entry>, id: EntityId)
    : (r: Result<RenderGraph, Error>)
    requires id in components
    ensures var e := components[id];
      (r.Err? <==> e.parentId in components && !Detaches(components[e.parentId].kind, e.kind)) &&
      (r.Ok? && e.parentId !in components && e.kind == Overlay ==> r.value.overlays == rg.overlays - {id}) &&
      (r.Ok? && (e.parentId in components || e.kind != Overlay) ==> r.value.overlays == rg.overlays)
  {
    var e := components[id];
    if e.parentId in components then
      RemoveChildFromComponent(rg, e.parentId, components[e.parentId].kind, e.kind, id)
    else if e.kind == Overlay then Ok(rg.(overlays := rg.overlays - {id}))
    else Ok(rg)
  }

}
