/** The render graph of the raycast engine's render system
    (src/raycast/render_system.cpp): the region tree owned from the root
    region, the flat list that owns every wall and join, the overlay set,
    and the static helpers that attach a component to its parent
    (addToRegion, addToWall, addToJoin, addChildToComponent) or detach it
    again (removeFromRegion, removeFromWall, removeChildFromComponent).

    Components are identified by their entity id; a region lists its walls
    and joins by id, as the source lists non-owning pointers. */
module RenderGraph {
  import opened Wrappers
  import RenderComponents

  type EntityId = RenderComponents.EntityId

  /** CRenderKind of the raycast engine. */
  datatype Kind = Region | Wall | Join | FloorDecal | WallDecal | Sprite | Overlay

  /** What the twinning pass reads and writes on a join. softJoinId is the
      joinId of the join's soft edge in the spatial system (getSoftEdge),
      which the render system only reads. */
  datatype JoinState = JoinState(
    softJoinId: EntityId,
    joinId: EntityId,
    topTexture: string,
    bottomTexture: string,
    regionA: Option<EntityId>,
    regionB: Option<EntityId>)

  /** An element of rg.boundaries: a wall or a join, with its wall decals. */
  datatype Boundary =
    | WallEdge(id: EntityId, decals: seq<EntityId>)
    | JoinEdge(id: EntityId, decals: seq<EntityId>, join: JoinState)

  function BoundaryKind(b: Boundary): Kind {
    if b.WallEdge? then Wall else Join
  }

  /** A CRegion: its owned sub-regions, the ids of its walls and joins, its
      sprites and floor decals (the latter two by id). */
  datatype RegionNode = RegionNode(
    id: EntityId,
    children: seq<RegionNode>,
    boundaries: seq<EntityId>,
    sprites: seq<EntityId>,
    floorDecals: seq<EntityId>)

  function NewRegion(id: EntityId): RegionNode {
    RegionNode(id, [], [], [], [])
  }

  /** RenderGraph: the root region, the owning list of boundaries and the
      overlays (kept by id). */
  datatype RenderGraph = RenderGraph(
    root: Option<RegionNode>,
    boundaries: seq<Boundary>,
    overlays: set<EntityId>)

  /** A render component as an object that can be attached to a parent: a
      region with its whole subtree, a boundary with its decals and join
      state, or one of the leaf kinds. */
  datatype Object =
    | RegionObj(node: RegionNode)
    | BoundaryObj(boundary: Boundary)
    | FloorDecalObj(id: EntityId)
    | WallDecalObj(id: EntityId)
    | SpriteObj(id: EntityId)
    | OverlayObj(id: EntityId)

  function ObjectKind(o: Object): Kind {
    match o
    case RegionObj(_) => Region
    case BoundaryObj(b) => BoundaryKind(b)
    case FloorDecalObj(_) => FloorDecal
    case WallDecalObj(_) => WallDecal
    case SpriteObj(_) => Sprite
    case OverlayObj(_) => Overlay
  }

  function ObjectId(o: Object): EntityId {
    match o
    case RegionObj(n) => n.id
    case BoundaryObj(b) => b.id
    case FloorDecalObj(id) => id
    case WallDecalObj(id) => id
    case SpriteObj(id) => id
    case OverlayObj(id) => id
  }

  /** A component handed to RenderSystem::addComponent; `join` is read only
      when the kind is Join. */
  datatype CRender = CRender(kind: Kind, entityId: EntityId, parentId: EntityId, join: JoinState)

  /** The freshly built object for a component: empty lists everywhere. */
  function NewObject(c: CRender): (o: Object)
    ensures ObjectKind(o) == c.kind && ObjectId(o) == c.entityId
  {
    match c.kind
    case Region => RegionObj(NewRegion(c.entityId))
    case Wall => BoundaryObj(WallEdge(c.entityId, []))
    case Join => BoundaryObj(JoinEdge(c.entityId, [], c.join))
    case FloorDecal => FloorDecalObj(c.entityId)
    case WallDecal => WallDecalObj(c.entityId)
    case Sprite => SpriteObj(c.entityId)
    case Overlay => OverlayObj(c.entityId)
  }

  /** The exceptions the render system raises. */
  datatype Error =
    | RootAlreadySet
    | NoParentNotRegionOrOverlay(kind: Kind)
    | ParentNotFound(parentId: EntityId)
    | CannotAddToRegion(kind: Kind)
    | CannotAddToWall(kind: Kind)
    | CannotAddToJoin(kind: Kind)
    | CannotAddToComponent(kind: Kind, parentKind: Kind)
    | CannotRemoveFromRegion(kind: Kind)
    | CannotRemoveFromWall(kind: Kind)
    | CannotRemoveFromComponent(kind: Kind, parentKind: Kind)
    | ComponentNotFound(id: EntityId)
    | NotARegion(id: EntityId)

  // ---------------------------------------------------------------------
  // Lists
  // ---------------------------------------------------------------------

  /** erase(list, find(list, x)): drop the first occurrence of x, if any. */
  function RemoveFirst(s: seq<EntityId>, x: EntityId): (r: seq<EntityId>)
    ensures x !in s ==> r == s
    ensures x in s ==> |r| == |s| - 1 && multiset(r) == multiset(s) - multiset{x}
  {
    if |s| == 0 then []
    else
      assert s == [s[0]] + s[1..];
      if s[0] == x then s[1..] else [s[0]] + RemoveFirst(s[1..], x)
  }

  /** Appending a fresh id and erasing it again gives back the list. */
  lemma {:induction false} RemoveFirstUndoesAppend(s: seq<EntityId>, x: EntityId)
    requires x !in s
    ensures RemoveFirst(s + [x], x) == s
  {
    if |s| > 0 {
      assert (s + [x])[1..] == s[1..] + [x];
      RemoveFirstUndoesAppend(s[1..], x);
    }
  }

  function RemoveAt<T>(s: seq<T>, k: nat): seq<T>
    requires k < |s|
  {
    s[..k] + s[k + 1..]
  }

  /** The position of the first child region with the given id. */
  function ChildIndex(cs: seq<RegionNode>, id: EntityId): (k: Option<nat>)
    ensures k.Some? ==> k.value < |cs| && cs[k.value].id == id
    ensures k.Some? ==> forall j :: 0 <= j < k.value ==> cs[j].id != id
    ensures k.None? ==> forall j :: 0 <= j < |cs| ==> cs[j].id != id
  {
    if |cs| == 0 then None
    else if cs[0].id == id then Some(0)
    else match ChildIndex(cs[1..], id)
      case None => None
      case Some(j) => Some(j + 1)
  }

  /** The position of the first boundary with the given id in rg.boundaries.
      The same first-match search as ChildIndex, over boundaries instead of
      region nodes: the two element types have no common id projection, and
      the twinning lemmas reason about this one directly. */
  function BoundaryIndex(bs: seq<Boundary>, id: EntityId): (k: Option<nat>)
    ensures k.Some? ==> k.value < |bs| && bs[k.value].id == id
    ensures k.Some? ==> forall j :: 0 <= j < k.value ==> bs[j].id != id
    ensures k.None? ==> forall j :: 0 <= j < |bs| ==> bs[j].id != id
  {
    if |bs| == 0 then None
    else if bs[0].id == id then Some(0)
    else match BoundaryIndex(bs[1..], id)
      case None => None
      case Some(j) => Some(j + 1)
  }

  function BoundaryIds(bs: seq<Boundary>): set<EntityId> {
    set b | b in bs :: b.id
  }

  // ---------------------------------------------------------------------
  // The region tree
  // ---------------------------------------------------------------------

  /** The order forEachRegion visits regions in when no callback aborts:
      a region, then each child's subtree in turn. */
  function PreOrder(r: RegionNode): (s: seq<RegionNode>)
    ensures |s| >= 1 && s[0] == r
    decreases r
  {
    [r] + PreOrderForest(r.children)
  }

  function PreOrderForest(cs: seq<RegionNode>): seq<RegionNode>
    decreases cs
  {
    if |cs| == 0 then [] else PreOrder(cs[0]) + PreOrderForest(cs[1..])
  }

  /** Every region of a child's subtree is a region of the parent's tree. */
  lemma {:induction false} ForestContainsChild(cs: seq<RegionNode>, k: nat, n: RegionNode)
    requires k < |cs| && n in PreOrder(cs[k])
    ensures n in PreOrderForest(cs)
    decreases k
  {
    if k > 0 {
      assert cs[1..][k - 1] == cs[k];
      ForestContainsChild(cs[1..], k - 1, n);
    }
  }

  lemma ChildContained(r: RegionNode, k: nat, n: RegionNode)
    requires k < |r.children| && n in PreOrder(r.children[k])
    ensures n in PreOrder(r)
  {
    ForestContainsChild(r.children, k, n);
  }

  /** The first region with the given id, in pre-order. */
  function FindRegion(r: RegionNode, id: EntityId): (found: Option<RegionNode>)
    ensures found.Some? ==> found.value.id == id && found.value in PreOrder(r)
    ensures found.None? ==> forall n :: n in PreOrder(r) ==> n.id != id
    decreases r
  {
    if r.id == id then Some(r) else FindInForest(r.children, id)
  }

  function FindInForest(cs: seq<RegionNode>, id: EntityId): (found: Option<RegionNode>)
    ensures found.Some? ==> found.value.id == id && found.value in PreOrderForest(cs)
    ensures found.None? ==> forall n :: n in PreOrderForest(cs) ==> n.id != id
    decreases cs
  {
    if |cs| == 0 then None
    else match FindRegion(cs[0], id)
      case Some(n) => Some(n)
      case None => FindInForest(cs[1..], id)
  }

  function FindInRoot(root: Option<RegionNode>, id: EntityId): Option<RegionNode> {
    if root.Some? then FindRegion(root.value, id) else None
  }

  /** One change to one region's lists. */
  datatype Edit =
    | AppendChild(node: RegionNode)
    | RemoveChild(childId: EntityId)
    | AppendBoundary(boundaryId: EntityId)
    | RemoveBoundary(boundaryId: EntityId)
    | AppendSprite(spriteId: EntityId)
    | RemoveSprite(spriteId: EntityId)
    | AppendFloorDecal(decalId: EntityId)
    | RemoveFloorDecal(decalId: EntityId)

  function ApplyEdit(n: RegionNode, e: Edit): (r: RegionNode)
    ensures r.id == n.id
  {
    match e
    case AppendChild(c) => n.(children := n.children + [c])
    case RemoveChild(x) =>
      (match ChildIndex(n.children, x)
       case None => n
       case Some(k) => n.(children := RemoveAt(n.children, k)))
    case AppendBoundary(x) => n.(boundaries := n.boundaries + [x])
    case RemoveBoundary(x) => n.(boundaries := RemoveFirst(n.boundaries, x))
    case AppendSprite(x) => n.(sprites := n.sprites + [x])
    case RemoveSprite(x) => n.(sprites := RemoveFirst(n.sprites, x))
    case AppendFloorDecal(x) => n.(floorDecals := n.floorDecals + [x])
    case RemoveFloorDecal(x) => n.(floorDecals := RemoveFirst(n.floorDecals, x))
  }

  /** Apply an edit to the region with the given id, wherever it is in the
      tree. */
  function UpdateRegion(r: RegionNode, id: EntityId, e: Edit): (r': RegionNode)
    ensures r'.id == r.id
    decreases r
  {
    if r.id == id then ApplyEdit(r, e) else r.(children := UpdateForest(r.children, id, e))
  }

  function UpdateForest(cs: seq<RegionNode>, id: EntityId, e: Edit): (cs': seq<RegionNode>)
    ensures |cs'| == |cs|
    decreases cs
  {
    if |cs| == 0 then [] else [UpdateRegion(cs[0], id, e)] + UpdateForest(cs[1..], id, e)
  }

  function UpdateRoot(root: Option<RegionNode>, id: EntityId, e: Edit): Option<RegionNode> {
    if root.Some? then Some(UpdateRegion(root.value, id, e)) else None
  }

  /** After an edit, looking the region up finds the edited region. */
  lemma {:induction false} FindAfterUpdate(r: RegionNode, id: EntityId, e: Edit)
    ensures FindRegion(UpdateRegion(r, id, e), id)
         == (if FindRegion(r, id).Some? then Some(ApplyEdit(FindRegion(r, id).value, e)) else None)
    decreases r
  {
    if r.id != id {
      FindAfterUpdateForest(r.children, id, e);
    }
  }

  lemma {:induction false} FindAfterUpdateForest(cs: seq<RegionNode>, id: EntityId, e: Edit)
    ensures FindInForest(UpdateForest(cs, id, e), id)
         == (if FindInForest(cs, id).Some? then Some(ApplyEdit(FindInForest(cs, id).value, e)) else None)
    decreases cs
  {
    if |cs| > 0 {
      var us := UpdateForest(cs, id, e);
      assert us[0] == UpdateRegion(cs[0], id, e);
      assert us[1..] == UpdateForest(cs[1..], id, e);
      FindAfterUpdate(cs[0], id, e);
      FindAfterUpdateForest(cs[1..], id, e);
    }
  }

  /** An edit followed by one that undoes it on every region with the id
      leaves the tree as it was. */
  lemma {:induction false} UpdateUndone(r: RegionNode, id: EntityId, e1: Edit, e2: Edit)
    requires forall n :: n in PreOrder(r) && n.id == id ==> ApplyEdit(ApplyEdit(n, e1), e2) == n
    ensures UpdateRegion(UpdateRegion(r, id, e1), id, e2) == r
    decreases r
  {
    if r.id != id {
      forall n | n in PreOrderForest(r.children) && n.id == id
        ensures ApplyEdit(ApplyEdit(n, e1), e2) == n
      {
        assert n in PreOrder(r);
      }
      UpdateUndoneForest(r.children, id, e1, e2);
    }
  }

  lemma {:induction false} UpdateUndoneForest(cs: seq<RegionNode>, id: EntityId, e1: Edit, e2: Edit)
    requires forall n :: n in PreOrderForest(cs) && n.id == id ==> ApplyEdit(ApplyEdit(n, e1), e2) == n
    ensures UpdateForest(UpdateForest(cs, id, e1), id, e2) == cs
    decreases cs
  {
    if |cs| > 0 {
      var us := UpdateForest(cs, id, e1);
      assert us[0] == UpdateRegion(cs[0], id, e1);
      assert us[1..] == UpdateForest(cs[1..], id, e1);
      var all := PreOrderForest(cs);
      assert all == PreOrder(cs[0]) + PreOrderForest(cs[1..]);
      assert forall n :: n in PreOrder(cs[0]) ==> n in all;
      UpdateUndone(cs[0], id, e1, e2);
      assert forall n :: n in PreOrderForest(cs[1..]) ==> n in all;
      UpdateUndoneForest(cs[1..], id, e1, e2);
      var vs := UpdateForest(us, id, e2);
      assert vs == [UpdateRegion(us[0], id, e2)] + UpdateForest(us[1..], id, e2);
      assert cs == [cs[0]] + cs[1..];
    }
  }

  /** The ids of the walls and joins listed by the regions of a tree. */
  function TreeBoundaryIds(r: RegionNode): set<EntityId>
    decreases r
  {
    (set x | x in r.boundaries) + ForestBoundaryIds(r.children)
  }

  function ForestBoundaryIds(cs: seq<RegionNode>): set<EntityId>
    decreases cs
  {
    if |cs| == 0 then {} else TreeBoundaryIds(cs[0]) + ForestBoundaryIds(cs[1..])
  }

  /** The boundary ids an edit can add to a tree. */
  function EditAdds(e: Edit): set<EntityId> {
    match e
    case AppendChild(c) => TreeBoundaryIds(c)
    case AppendBoundary(x) => {x}
    case _ => {}
  }

  lemma {:induction false} EditBoundaryIds(n: RegionNode, e: Edit)
    ensures TreeBoundaryIds(ApplyEdit(n, e)) <= TreeBoundaryIds(n) + EditAdds(e)
  {
    match e
    case AppendChild(c) =>
      ForestAppend(n.children, c);
    case RemoveChild(x) =>
      if ChildIndex(n.children, x).Some? {
        var k := ChildIndex(n.children, x).value;
        ForestRemoveAt(n.children, k);
      }
    case RemoveBoundary(x) =>
      var s := n.boundaries;
      if x in s {
        forall y | y in RemoveFirst(s, x) ensures y in s {
          assert y in multiset(RemoveFirst(s, x));
        }
      }
    case _ =>
  }

  lemma {:induction false} ForestAppend(cs: seq<RegionNode>, c: RegionNode)
    ensures ForestBoundaryIds(cs + [c]) == ForestBoundaryIds(cs) + TreeBoundaryIds(c)
  {
    if |cs| == 0 {
      assert [c][1..] == [];
    } else {
      assert (cs + [c])[1..] == cs[1..] + [c];
      ForestAppend(cs[1..], c);
    }
  }

  lemma {:induction false} ForestRemoveAt(cs: seq<RegionNode>, k: nat)
    requires k < |cs|
    ensures ForestBoundaryIds(RemoveAt(cs, k)) <= ForestBoundaryIds(cs)
  {
    if k == 0 {
      assert RemoveAt(cs, 0) == cs[1..];
    } else {
      assert RemoveAt(cs, k) == [cs[0]] + RemoveAt(cs[1..], k - 1);
      assert RemoveAt(cs, k)[1..] == RemoveAt(cs[1..], k - 1);
      ForestRemoveAt(cs[1..], k - 1);
    }
  }

  /** Editing one region adds to the tree's boundary ids only what the edit
      itself adds. */
  lemma {:induction false} UpdateBoundaryIds(r: RegionNode, id: EntityId, e: Edit)
    ensures TreeBoundaryIds(UpdateRegion(r, id, e)) <= TreeBoundaryIds(r) + EditAdds(e)
    decreases r
  {
    if r.id == id {
      EditBoundaryIds(r, e);
    } else {
      UpdateForestBoundaryIds(r.children, id, e);
    }
  }

  lemma {:induction false} UpdateForestBoundaryIds(cs: seq<RegionNode>, id: EntityId, e: Edit)
    ensures ForestBoundaryIds(UpdateForest(cs, id, e)) <= ForestBoundaryIds(cs) + EditAdds(e)
    decreases cs
  {
    if |cs| > 0 {
      var us := UpdateForest(cs, id, e);
      assert us[0] == UpdateRegion(cs[0], id, e);
      assert us[1..] == UpdateForest(cs[1..], id, e);
      UpdateBoundaryIds(cs[0], id, e);
      UpdateForestBoundaryIds(cs[1..], id, e);
    }
  }

  /** Every wall and join a region lists is owned by rg.boundaries. */
  predicate BoundariesListed(rg: RenderGraph) {
    rg.root.Some? ==> TreeBoundaryIds(rg.root.value) <= BoundaryIds(rg.boundaries)
  }

  // ---------------------------------------------------------------------
  // Attaching
  // ---------------------------------------------------------------------

  /** Which kinds of component each kind of parent can host. */
  predicate Hosts(parent: Kind, child: Kind) {
    match parent
    case Region => child in {Region, Wall, Join, FloorDecal, Sprite}
    case Wall => child == WallDecal
    case Join => child == WallDecal
    case _ => false
  }

  /** Which kinds of component each kind of parent can let go of. */
  predicate Detaches(parent: Kind, child: Kind) {
    match parent
    case Region => child in {Region, Wall, Join, FloorDecal, Sprite}
    case Wall => child == WallDecal
    case _ => false
  }

  /** addToRegion: a sub-region joins the children, a wall or join is
      listed by the region and owned by rg.boundaries, a floor decal or a
      sprite joins the region's list; any other kind raises. */
  function AddToRegion(rg: RenderGraph, regionId: EntityId, child: Object): (r: Result<RenderGraph, Error>)
    ensures r.Err? <==> !Hosts(Region, ObjectKind(child))
    ensures r.Err? ==> r.error == CannotAddToRegion(ObjectKind(child))
    ensures r.Ok? ==> r.value.overlays == rg.overlays
  {
    match child
    case RegionObj(n) => Ok(rg.(root := UpdateRoot(rg.root, regionId, AppendChild(n))))
    case BoundaryObj(b) =>
      Ok(rg.(root := UpdateRoot(rg.root, regionId, AppendBoundary(b.id)),
             boundaries := rg.boundaries + [b]))
    case FloorDecalObj(x) => Ok(rg.(root := UpdateRoot(rg.root, regionId, AppendFloorDecal(x))))
    case SpriteObj(x) => Ok(rg.(root := UpdateRoot(rg.root, regionId, AppendSprite(x))))
    case _ => Err(CannotAddToRegion(ObjectKind(child)))
  }

  /** Append a wall decal to the first boundary with the given id. */
  function AppendDecal(rg: RenderGraph, boundaryId: EntityId, decalId: EntityId): RenderGraph {
    match BoundaryIndex(rg.boundaries, boundaryId)
    case None => rg
    case Some(k) =>
      var b := rg.boundaries[k];
      rg.(boundaries := rg.boundaries[k := b.(decals := b.decals + [decalId])])
  }

  /** addToWall: a wall hosts wall decals only. */
  function AddToWall(rg: RenderGraph, wallId: EntityId, child: Object): (r: Result<RenderGraph, Error>)
    ensures r.Err? <==> !Hosts(Wall, ObjectKind(child))
    ensures r.Err? ==> r.error == CannotAddToWall(ObjectKind(child))
    ensures r.Ok? ==> r.value.root == rg.root && BoundaryIds(r.value.boundaries) == BoundaryIds(rg.boundaries)
  {
    match child
    case WallDecalObj(x) =>
      var r' := AppendDecal(rg, wallId, x);
      assert BoundaryIds(r'.boundaries) == BoundaryIds(rg.boundaries) by {
        if BoundaryIndex(rg.boundaries, wallId).Some? {
          var k := BoundaryIndex(rg.boundaries, wallId).value;
          assert forall j :: 0 <= j < |rg.boundaries| ==> r'.boundaries[j].id == rg.boundaries[j].id;
          assert |r'.boundaries| == |rg.boundaries|;
          SameIdsSameSet(rg.boundaries, r'.boundaries);
        }
      }
      Ok(r')
    case _ => Err(CannotAddToWall(ObjectKind(child)))
  }

  /** addToJoin: a join hosts wall decals only. */
  function AddToJoin(rg: RenderGraph, joinId: EntityId, child: Object): (r: Result<RenderGraph, Error>)
    ensures r.Err? <==> !Hosts(Join, ObjectKind(child))
    ensures r.Err? ==> r.error == CannotAddToJoin(ObjectKind(child))
    ensures r.Ok? ==> r.value.root == rg.root && BoundaryIds(r.value.boundaries) == BoundaryIds(rg.boundaries)
  {
    match child
    case WallDecalObj(x) =>
      var r' := AppendDecal(rg, joinId, x);
      assert BoundaryIds(r'.boundaries) == BoundaryIds(rg.boundaries) by {
        if BoundaryIndex(rg.boundaries, joinId).Some? {
          assert forall j :: 0 <= j < |rg.boundaries| ==> r'.boundaries[j].id == rg.boundaries[j].id;
          SameIdsSameSet(rg.boundaries, r'.boundaries);
        }
      }
      Ok(r')
    case _ => Err(CannotAddToJoin(ObjectKind(child)))
  }

  lemma SameIdsSameSet(bs: seq<Boundary>, cs: seq<Boundary>)
    requires |bs| == |cs|
    requires forall j :: 0 <= j < |bs| ==> bs[j].id == cs[j].id
    ensures BoundaryIds(bs) == BoundaryIds(cs)
  {
    forall x | x in BoundaryIds(bs) ensures x in BoundaryIds(cs) {
      var b :| b in bs && b.id == x;
      var j :| 0 <= j < |bs| && bs[j] == b;
      assert cs[j] in cs;
    }
    forall x | x in BoundaryIds(cs) ensures x in BoundaryIds(bs) {
      var c :| c in cs && c.id == x;
      var j :| 0 <= j < |cs| && cs[j] == c;
      assert bs[j] in bs;
    }
  }

  /** addChildToComponent: dispatch on the parent's kind; a parent that is
      not a region, wall or join raises. Attaching succeeds exactly when the
      parent's kind hosts the child's kind, and it never touches the
      overlays. */
  function AddChildToComponent(rg: RenderGraph, parentId: EntityId, parentKind: Kind, child: Object)
    : (r: Result<RenderGraph, Error>)
    ensures r.Ok? <==> Hosts(parentKind, ObjectKind(child))
    ensures r.Ok? ==> r.value.overlays == rg.overlays
  {
    match parentKind
    case Region => AddToRegion(rg, parentId, child)
    case Wall => AddToWall(rg, parentId, child)
    case Join => AddToJoin(rg, parentId, child)
    case _ => Err(CannotAddToComponent(ObjectKind(child), parentKind))
  }

  /** Attaching keeps every region-listed wall and join owned by
      rg.boundaries, provided a moved-in region's own boundaries are. */
  lemma AddChildKeepsBoundariesListed(rg: RenderGraph, parentId: EntityId, parentKind: Kind, child: Object)
    requires BoundariesListed(rg)
    requires child.RegionObj? ==> TreeBoundaryIds(child.node) <= BoundaryIds(rg.boundaries)
    requires AddChildToComponent(rg, parentId, parentKind, child).Ok?
    ensures BoundariesListed(AddChildToComponent(rg, parentId, parentKind, child).value)
  {
    var r := AddChildToComponent(rg, parentId, parentKind, child).value;
    if parentKind == Region && rg.root.Some? {
      match child
      case RegionObj(n) =>
        UpdateBoundaryIds(rg.root.value, parentId, AppendChild(n));
      case BoundaryObj(b) =>
        UpdateBoundaryIds(rg.root.value, parentId, AppendBoundary(b.id));
        assert rg.boundaries + [b] == r.boundaries;
        assert b in r.boundaries;
        assert BoundaryIds(rg.boundaries) + {b.id} <= BoundaryIds(r.boundaries);
      case FloorDecalObj(x) =>
        UpdateBoundaryIds(rg.root.value, parentId, AppendFloorDecal(x));
      case SpriteObj(x) =>
        UpdateBoundaryIds(rg.root.value, parentId, AppendSprite(x));
      case _ =>
    }
  }

  // ---------------------------------------------------------------------
  // Detaching
  // ---------------------------------------------------------------------

  /** removeFromRegion: find the child in the region's list for its kind
      and take it out, handing back the object (released, when keepAlive,
      for re-attachment). A wall or join is erased from the region's list in
      any case and counts as found when rg.boundaries owns it. Other kinds
      raise. */
  function RemoveFromRegion(rg: RenderGraph, regionId: EntityId, kind: Kind, id: EntityId)
    : (r: Result<(RenderGraph, Option<Object>), Error>)
    ensures r.Err? <==> !Detaches(Region, kind)
    ensures r.Err? ==> r.error == CannotRemoveFromRegion(kind)
    ensures r.Ok? && r.value.1.Some? ==> ObjectId(r.value.1.value) == id
    ensures r.Ok? ==> r.value.0.overlays == rg.overlays
    ensures r.Ok? && r.value.1.Some? ==> Hosts(Region, ObjectKind(r.value.1.value))
  {
    var region := FindInRoot(rg.root, regionId);
    match kind
    case Region =>
      if region.Some? && ChildIndex(region.value.children, id).Some? then
        var child := region.value.children[ChildIndex(region.value.children, id).value];
        Ok((rg.(root := UpdateRoot(rg.root, regionId, RemoveChild(id))), Some(RegionObj(child))))
      else Ok((rg, None))
    case Wall =>
      RemoveBoundaryFromRegion(rg, regionId, id)
    case Join =>
      RemoveBoundaryFromRegion(rg, regionId, id)
    case FloorDecal =>
      if region.Some? && id in region.value.floorDecals then
        Ok((rg.(root := UpdateRoot(rg.root, regionId, RemoveFloorDecal(id))), Some(FloorDecalObj(id))))
      else Ok((rg, None))
    case Sprite =>
      if region.Some? && id in region.value.sprites then
        Ok((rg.(root := UpdateRoot(rg.root, regionId, RemoveSprite(id))), Some(SpriteObj(id))))
      else Ok((rg, None))
    case _ => Err(CannotRemoveFromRegion(kind))
  }

  function RemoveBoundaryFromRegion(rg: RenderGraph, regionId: EntityId, id: EntityId)
    : (r: Result<(RenderGraph, Option<Object>), Error>)
    ensures r.Ok? && r.value.0.overlays == rg.overlays
    ensures r.value.1.Some? ==> r.value.1.value.BoundaryObj? && r.value.1.value.boundary.id == id
  {
    var root := UpdateRoot(rg.root, regionId, RemoveBoundary(id));
    match BoundaryIndex(rg.boundaries, id)
    case None => Ok((rg.(root := root), None))
    case Some(k) =>
      Ok((rg.(root := root, boundaries := RemoveAt(rg.boundaries, k)), Some(BoundaryObj(rg.boundaries[k]))))
  }

  /** removeFromWall: a wall lets go of wall decals only. */
  function RemoveFromWall(rg: RenderGraph, wallId: EntityId, kind: Kind, id: EntityId)
    : (r: Result<(RenderGraph, Option<Object>), Error>)
    ensures r.Err? <==> !Detaches(Wall, kind)
    ensures r.Err? ==> r.error == CannotRemoveFromWall(kind)
    ensures r.Ok? ==> r.value.0.root == rg.root && r.value.0.overlays == rg.overlays
    ensures r.Ok? && r.value.1.Some? ==> r.value.1.value == WallDecalObj(id)
  {
    if kind != WallDecal then Err(CannotRemoveFromWall(kind))
    else match BoundaryIndex(rg.boundaries, wallId)
      case None => Ok((rg, None))
      case Some(k) =>
        var b := rg.boundaries[k];
        if id in b.decals then
          Ok((rg.(boundaries := rg.boundaries[k := b.(decals := RemoveFirst(b.decals, id))]), Some(WallDecalObj(id))))
        else Ok((rg, None))
  }

  /** removeChildFromComponent: only regions and walls can let go of a
      child; any other parent (a join included) raises. */
  function RemoveChildFromComponent(rg: RenderGraph, parentId: EntityId, parentKind: Kind, kind: Kind, id: EntityId)
    : (r: Result<RenderGraph, Error>)
    ensures r.Ok? <==> Detaches(parentKind, kind)
    ensures r.Ok? ==> r.value.overlays == rg.overlays
  {
    match parentKind
    case Region =>
      (match RemoveFromRegion(rg, parentId, kind, id)
       case Ok((rg', _)) => Ok(rg')
       case Err(e) => Err(e))
    case Wall =>
      (match RemoveFromWall(rg, parentId, kind, id)
       case Ok((rg', _)) => Ok(rg')
       case Err(e) => Err(e))
    case _ => Err(CannotRemoveFromComponent(kind, parentKind))
  }

  /** Every kind a parent can let go of, it can also host; but a join hosts
      wall decals it can never let go of. */
  lemma RemoveChildRules(parentKind: Kind, kind: Kind)
    ensures Detaches(parentKind, kind) ==> Hosts(parentKind, kind)
    ensures Hosts(Join, WallDecal) && !Detaches(Join, WallDecal)
  {
  }

  /** The id of an object is nowhere in the region it is added to, nor
      (for a boundary) in rg.boundaries. */
  predicate FreshIn(rg: RenderGraph, regionId: EntityId, child: Object)
    requires rg.root.Some?
  {
    forall n :: n in PreOrder(rg.root.value) && n.id == regionId ==>
      match child
      case RegionObj(c) => ChildIndex(n.children, c.id).None?
      case BoundaryObj(b) => b.id !in n.boundaries && b.id !in BoundaryIds(rg.boundaries)
      case FloorDecalObj(x) => x !in n.floorDecals
      case SpriteObj(x) => x !in n.sprites
      case _ => true
  }

  /** removeFromRegion undoes addToRegion: attaching a fresh object to a
      region of the tree and detaching it again gives back the graph and the
      very same object. */
  lemma AddThenRemoveRoundTrip(rg: RenderGraph, regionId: EntityId, child: Object)
    requires rg.root.Some? && FindRegion(rg.root.value, regionId).Some?
    requires Hosts(Region, ObjectKind(child))
    requires FreshIn(rg, regionId, child)
    ensures AddToRegion(rg, regionId, child).Ok?
    ensures RemoveFromRegion(AddToRegion(rg, regionId, child).value, regionId, ObjectKind(child), ObjectId(child))
         == Ok((rg, Some(child)))
  {
    match child
    case RegionObj(c) => RegionRoundTrip(rg, regionId, c);
    case BoundaryObj(b) => BoundaryRoundTrip(rg, regionId, b);
    case FloorDecalObj(x) => FloorDecalRoundTrip(rg, regionId, x);
    case SpriteObj(x) => SpriteRoundTrip(rg, regionId, x);
  }

  lemma RegionRoundTrip(rg: RenderGraph, regionId: EntityId, c: RegionNode)
    requires rg.root.Some? && FindRegion(rg.root.value, regionId).Some?
    requires FreshIn(rg, regionId, RegionObj(c))
    ensures RemoveFromRegion(AddToRegion(rg, regionId, RegionObj(c)).value, regionId, Region, c.id)
         == Ok((rg, Some(RegionObj(c))))
  {
    var root := rg.root.value;
    var n := FindRegion(root, regionId).value;
    var e1, e2 := AppendChild(c), RemoveChild(c.id);
    FindAfterUpdate(root, regionId, e1);
    assert ChildIndex(n.children, c.id).None?;
    ChildIndexAppended(n.children, c);
    Undone(root, regionId, e1, e2, rg, RegionObj(c));
  }

  lemma BoundaryRoundTrip(rg: RenderGraph, regionId: EntityId, b: Boundary)
    requires rg.root.Some? && FindRegion(rg.root.value, regionId).Some?
    requires FreshIn(rg, regionId, BoundaryObj(b))
    ensures RemoveFromRegion(AddToRegion(rg, regionId, BoundaryObj(b)).value, regionId, ObjectKind(BoundaryObj(b)), b.id)
         == Ok((rg, Some(BoundaryObj(b))))
  {
    var root := rg.root.value;
    var n := FindRegion(root, regionId).value;
    var e1, e2 := AppendBoundary(b.id), RemoveBoundary(b.id);
    Undone(root, regionId, e1, e2, rg, BoundaryObj(b));
    assert b.id !in BoundaryIds(rg.boundaries);
    BoundaryIndexAppended(rg.boundaries, b);
    assert RemoveAt(rg.boundaries + [b], |rg.boundaries|) == rg.boundaries;
  }

  lemma FloorDecalRoundTrip(rg: RenderGraph, regionId: EntityId, x: EntityId)
    requires rg.root.Some? && FindRegion(rg.root.value, regionId).Some?
    requires FreshIn(rg, regionId, FloorDecalObj(x))
    ensures RemoveFromRegion(AddToRegion(rg, regionId, FloorDecalObj(x)).value, regionId, FloorDecal, x)
         == Ok((rg, Some(FloorDecalObj(x))))
  {
    var root := rg.root.value;
    var n := FindRegion(root, regionId).value;
    var e1, e2 := AppendFloorDecal(x), RemoveFloorDecal(x);
    var added := rg.(root := Some(UpdateRegion(root, regionId, e1)));
    assert AddToRegion(rg, regionId, FloorDecalObj(x)) == Ok(added);
    FindAfterUpdate(root, regionId, e1);
    assert FindInRoot(added.root, regionId) == Some(ApplyEdit(n, e1));
    assert x in ApplyEdit(n, e1).floorDecals;
    Undone(root, regionId, e1, e2, rg, FloorDecalObj(x));
    assert UpdateRoot(added.root, regionId, e2) == rg.root;
  }

  lemma SpriteRoundTrip(rg: RenderGraph, regionId: EntityId, x: EntityId)
    requires rg.root.Some? && FindRegion(rg.root.value, regionId).Some?
    requires FreshIn(rg, regionId, SpriteObj(x))
    ensures RemoveFromRegion(AddToRegion(rg, regionId, SpriteObj(x)).value, regionId, Sprite, x)
         == Ok((rg, Some(SpriteObj(x))))
  {
    var root := rg.root.value;
    var n := FindRegion(root, regionId).value;
    var e1, e2 := AppendSprite(x), RemoveSprite(x);
    var added := rg.(root := Some(UpdateRegion(root, regionId, e1)));
    assert AddToRegion(rg, regionId, SpriteObj(x)) == Ok(added);
    FindAfterUpdate(root, regionId, e1);
    assert FindInRoot(added.root, regionId) == Some(ApplyEdit(n, e1));
    assert x in ApplyEdit(n, e1).sprites;
    Undone(root, regionId, e1, e2, rg, SpriteObj(x));
    assert UpdateRoot(added.root, regionId, e2) == rg.root;
  }

  lemma Undone(root: RegionNode, regionId: EntityId, e1: Edit, e2: Edit, rg: RenderGraph, child: Object)
    requires rg.root == Some(root) && FreshIn(rg, regionId, child)
    requires child.RegionObj? ==> e1 == AppendChild(child.node) && e2 == RemoveChild(child.node.id)
    requires child.BoundaryObj? ==> e1 == AppendBoundary(child.boundary.id) && e2 == RemoveBoundary(child.boundary.id)
    requires child.FloorDecalObj? ==> e1 == AppendFloorDecal(child.id) && e2 == RemoveFloorDecal(child.id)
    requires child.SpriteObj? ==> e1 == AppendSprite(child.id) && e2 == RemoveSprite(child.id)
    requires child.RegionObj? || child.BoundaryObj? || child.FloorDecalObj? || child.SpriteObj?
    ensures UpdateRegion(UpdateRegion(root, regionId, e1), regionId, e2) == root
  {
    forall n | n in PreOrder(root) && n.id == regionId
      ensures ApplyEdit(ApplyEdit(n, e1), e2) == n
    {
      match child
      case RegionObj(c) =>
        ChildIndexAppended(n.children, c);
        assert RemoveAt(n.children + [c], |n.children|) == n.children;
      case BoundaryObj(b) =>
        RemoveFirstUndoesAppend(n.boundaries, b.id);
      case FloorDecalObj(x) =>
        RemoveFirstUndoesAppend(n.floorDecals, x);
      case SpriteObj(x) =>
        RemoveFirstUndoesAppend(n.sprites, x);
    }
    UpdateUndone(root, regionId, e1, e2);
  }

  lemma ChildIndexAppended(cs: seq<RegionNode>, c: RegionNode)
    requires ChildIndex(cs, c.id).None?
    ensures ChildIndex(cs + [c], c.id) == Some(|cs|)
  {
    var k := ChildIndex(cs + [c], c.id);
    assert (cs + [c])[|cs|].id == c.id;
  }

  lemma BoundaryIndexAppended(bs: seq<Boundary>, b: Boundary)
    requires b.id !in BoundaryIds(bs)
    ensures BoundaryIndex(bs + [b], b.id) == Some(|bs|)
  {
    forall j | 0 <= j < |bs| ensures (bs + [b])[j].id != b.id {
      assert bs[j] in bs;
    }
    assert (bs + [b])[|bs|].id == b.id;
  }
}
