/** Value rules of the f_raycast render components
    (src/fragments/f_main/f_menu_bar/f_settings_dialog/f_raycast/render_components.hpp):
    the "default" texture sentinel and CJoiningEdge::mergeIn, the CRender copy
    constructor that drops the parent, the CRegion defaults and CWall::height. */
module RenderComponents {
  import opened Wrappers

  type EntityId = int

  /** The id the engine uses for "no entity" (no parent, no region). */
  const NoEntity: EntityId := -1

  /** The texture name that mergeIn never copies across. */
  const DefaultTexture: string := "default"

  datatype RenderKind = Region | Wall | JoiningEdge | Sprite | FloorDecal | WallDecal

  /** The texture a join keeps after mergeIn from a join whose texture is
      `other`: anything but the sentinel overrides. */
  function MergeTexture(mine: string, other: string): (r: string)
    ensures r == other || r == mine
    ensures r == mine <== other == DefaultTexture
    ensures r == other <== other != DefaultTexture
  {
    if other != DefaultTexture then other else mine
  }

  /** `a.mergeIn(b); b.mergeIn(a)` leaves both sides with the same texture:
      b's wins unless it is the sentinel, and two sentinels stay the sentinel.
      Merging once more changes nothing. */
  lemma MergeBothWaysAgrees(a: string, b: string)
    ensures MergeTexture(b, MergeTexture(a, b)) == MergeTexture(a, b)
    ensures b != DefaultTexture ==> MergeTexture(a, b) == b
    ensures b == DefaultTexture ==> MergeTexture(a, b) == a
    ensures a == DefaultTexture && b == DefaultTexture ==> MergeTexture(a, b) == DefaultTexture
    ensures MergeTexture(MergeTexture(a, b), b) == MergeTexture(a, b)
  {
  }

  /** The fields every CRender carries. */
  datatype RenderHeader = RenderHeader(kind: RenderKind, entityId: EntityId, parentId: EntityId)

  /** The CRender copy constructor: kind and entity id are copied, the copy
      gets no parent. */
  function CopyHeader(cpy: RenderHeader): RenderHeader
  {
    RenderHeader(cpy.kind, cpy.entityId, NoEntity)
  }

  /** Copying twice is copying once, a parentless component copies to
      itself, and a parented one never does. */
  lemma CopyHeaderDropsParent(c: RenderHeader)
    ensures CopyHeader(CopyHeader(c)) == CopyHeader(c)
    ensures CopyHeader(c) == c <==> c.parentId == NoEntity
  {
  }

  /** The CRegion height fields with their in-class initialisers. */
  datatype RegionHeights = RegionHeights(hasCeiling: bool, floorHeight: real, ceilingHeight: real)

  /** A freshly constructed CRegion. */
  function DefaultRegion(): RegionHeights
  {
    RegionHeights(true, 0.0, 100.0)
  }

  /** CWall::height: the vertical extent of the wall's region. */
  function WallHeight(region: RegionHeights): real
  {
    region.ceilingHeight - region.floorHeight
  }

  /** A wall in a default region is 100 high; moving floor and ceiling by the
      same amount keeps a wall's height, and a wall is positive exactly when
      its ceiling is above its floor. */
  lemma WallHeightProperties(region: RegionHeights, dz: real)
    ensures WallHeight(DefaultRegion()) == 100.0
    ensures WallHeight(region.(floorHeight := region.floorHeight + dz,
                               ceilingHeight := region.ceilingHeight + dz))
            == WallHeight(region)
    ensures WallHeight(region) > 0.0 <==> region.ceilingHeight > region.floorHeight
  {
  }

  /** CJoiningEdge: a boundary between two regions, with the textures drawn
      above and below the opening. The regions are referred to by id. */
  class CJoiningEdge {
    const header: RenderHeader
    var topTexture: string
    var bottomTexture: string
    var regionA: Option<EntityId>
    var regionB: Option<EntityId>

    /** CJoiningEdge(entityId, parentId): both textures are the sentinel and
        neither region is set. */
    constructor (entityId: EntityId, parentId: EntityId)
      ensures header == RenderHeader(JoiningEdge, entityId, parentId)
      ensures topTexture == DefaultTexture && bottomTexture == DefaultTexture
      ensures regionA == None && regionB == None
    {
      header := RenderHeader(JoiningEdge, entityId, parentId);
      topTexture := DefaultTexture;
      bottomTexture := DefaultTexture;
      regionA := None;
      regionB := None;
    }

    /** The copy constructor: textures and regions are copied, the parent is
        dropped as for every CRender copy. */
    constructor Copy(cpy: CJoiningEdge)
      ensures header == CopyHeader(cpy.header)
      ensures topTexture == cpy.topTexture && bottomTexture == cpy.bottomTexture
      ensures regionA == cpy.regionA && regionB == cpy.regionB
    {
      header := CopyHeader(cpy.header);
      topTexture := cpy.topTexture;
      bottomTexture := cpy.bottomTexture;
      regionA := cpy.regionA;
      regionB := cpy.regionB;
    }

    /** mergeIn: take each of the other join's textures unless it is the
        sentinel; nothing else changes. */
    method MergeIn(other: CJoiningEdge)
      modifies this
      ensures topTexture == MergeTexture(old(topTexture), old(other.topTexture))
      ensures bottomTexture == MergeTexture(old(bottomTexture), old(other.bottomTexture))
      ensures regionA == old(regionA) && regionB == old(regionB)
    {
      if other.topTexture != DefaultTexture {
        topTexture := other.topTexture;
      }
      if other.bottomTexture != DefaultTexture {
        bottomTexture := other.bottomTexture;
      }
    }
  }

  /** Twinning two joins merges them both ways; afterwards they show the same
      textures, the second join's where it set one. */
  method MergeTwins(a: CJoiningEdge, b: CJoiningEdge)
    modifies a, b
    ensures a.topTexture == b.topTexture == MergeTexture(old(a.topTexture), old(b.topTexture))
    ensures a.bottomTexture == b.bottomTexture
                            == MergeTexture(old(a.bottomTexture), old(b.bottomTexture))
    ensures a.regionA == old(a.regionA) && a.regionB == old(a.regionB)
    ensures b.regionA == old(b.regionA) && b.regionB == old(b.regionB)
  {
    a.MergeIn(b);
    b.MergeIn(a);
    MergeBothWaysAgrees(old(a.topTexture), old(b.topTexture));
    MergeBothWaysAgrees(old(a.bottomTexture), old(b.bottomTexture));
  }
}
