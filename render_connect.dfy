/** connectSubregions of the raycast render system
    (src/raycast/render_system.cpp): the one-time pass that pairs every join
    with its twin (the join of an earlier region, in pre-order, that shares
    its soft edge's joinId), points both at the two regions and merges their
    textures both ways; a join with no twin is pointed at its own region and
    the root.

    The pass here is the one the source's forEachRegion comment describes
    (returning false aborts the walk). The walk as written only prunes; it is
    modelled separately below, with an input on which the two differ. */
module RenderConnect {
  import opened Wrappers
  import RenderComponents
  import opened RenderGraph

  /** Same ids, same kinds and same soft ids, position by position: what
      the pass never changes. */
  predicate SameShape(bs: seq<Boundary>, cs: seq<Boundary>) {
    |bs| == |cs| &&
    forall k :: 0 <= k < |bs| ==>
      bs[k].id == cs[k].id && bs[k].JoinEdge? == cs[k].JoinEdge? &&
      (bs[k].JoinEdge? ==> bs[k].join.softJoinId == cs[k].join.softJoinId)
  }

  /** The boundary listed as `id` is a join whose soft edge has joinId `soft`. */
  predicate IsJoinWithSoft(bs: seq<Boundary>, id: EntityId, soft: EntityId) {
    var k := BoundaryIndex(bs, id);
    k.Some? && bs[k.value].JoinEdge? && bs[k.value].join.softJoinId == soft
  }

  predicate NoJoinWithSoft(ids: seq<EntityId>, soft: EntityId, bs: seq<Boundary>) {
    forall x :: x in ids ==> !IsJoinWithSoft(bs, x, soft)
  }

  lemma {:induction false} BoundaryIndexShape(bs: seq<Boundary>, cs: seq<Boundary>, id: EntityId)
    requires SameShape(bs, cs)
    ensures BoundaryIndex(bs, id) == BoundaryIndex(cs, id)
  {
    if |bs| > 0 && bs[0].id != id {
      assert SameShape(bs[1..], cs[1..]);
      BoundaryIndexShape(bs[1..], cs[1..], id);
    }
  }

  /** Whether a listed id is a join with a given soft id depends on the
      shape alone. */
  lemma IsJoinShape(bs: seq<Boundary>, cs: seq<Boundary>, id: EntityId, soft: EntityId)
    requires SameShape(bs, cs)
    ensures IsJoinWithSoft(bs, id, soft) == IsJoinWithSoft(cs, id, soft)
  {
    BoundaryIndexShape(bs, cs, id);
  }

  /** The position in `ids` of the first join whose soft id is `soft`: the
      scan of one region's boundaries in the search for a twin. */
  function FirstJoinWithSoft(ids: seq<EntityId>, soft: EntityId, bs: seq<Boundary>): (k: Option<nat>)
    ensures k.Some? ==> k.value < |ids| && IsJoinWithSoft(bs, ids[k.value], soft)
    ensures k.Some? ==> forall j :: 0 <= j < k.value ==> !IsJoinWithSoft(bs, ids[j], soft)
    ensures k.None? ==> NoJoinWithSoft(ids, soft, bs)
  {
    if |ids| == 0 then None
    else if IsJoinWithSoft(bs, ids[0], soft) then Some(0)
    else
      assert ids == [ids[0]] + ids[1..];
      match FirstJoinWithSoft(ids[1..], soft, bs)
      case None => None
      case Some(j) => Some(j + 1)
  }

  /** The twin of a join with soft id `soft` in region `i` of the pre-order
      `order`: the first join with that soft id in the first of the regions
      before `i` that has one. Returns the region's position and the twin. */
  function FindTwin(order: seq<RegionNode>, i: nat, soft: EntityId, bs: seq<Boundary>)
    : (t: Option<(nat, EntityId)>)
    requires i <= |order|
    ensures t.Some? ==> t.value.0 < i && t.value.1 in order[t.value.0].boundaries
    ensures t.Some? ==> IsJoinWithSoft(bs, t.value.1, soft)
    ensures t.Some? ==> forall r :: 0 <= r < t.value.0 ==> NoJoinWithSoft(order[r].boundaries, soft, bs)
    ensures t.None? <==> forall r :: 0 <= r < i ==> NoJoinWithSoft(order[r].boundaries, soft, bs)
  {
    FindTwinFromSpec(order, 0, i, soft, bs);
    FindTwinFrom(order, 0, i, soft, bs)
  }

  function FindTwinFrom(order: seq<RegionNode>, p: nat, i: nat, soft: EntityId, bs: seq<Boundary>)
    : Option<(nat, EntityId)>
    requires i <= |order|
    decreases i - p
  {
    if p >= i then None
    else match FirstJoinWithSoft(order[p].boundaries, soft, bs)
      case Some(k) => Some((p, order[p].boundaries[k]))
      case None => FindTwinFrom(order, p + 1, i, soft, bs)
  }

  /** The search from region p on finds, in the first region at or after p
      that lists a join with the soft id, the first such join; it finds
      nothing iff no region from p to i - 1 lists one. */
  lemma {:induction false} FindTwinFromSpec(order: seq<RegionNode>, p: nat, i: nat, soft: EntityId, bs: seq<Boundary>)
    requires i <= |order|
    ensures var t := FindTwinFrom(order, p, i, soft, bs);
      (t.Some? ==> p <= t.value.0 < i && t.value.1 in order[t.value.0].boundaries) &&
      (t.Some? ==> IsJoinWithSoft(bs, t.value.1, soft)) &&
      (t.Some? ==> FirstJoinWithSoft(order[t.value.0].boundaries, soft, bs).Some?) &&
      (t.Some? ==> t.value.1 == order[t.value.0].boundaries[FirstJoinWithSoft(order[t.value.0].boundaries, soft, bs).value]) &&
      (t.Some? ==> forall r :: p <= r < t.value.0 ==> NoJoinWithSoft(order[r].boundaries, soft, bs)) &&
      (t.None? <==> forall r :: p <= r < i ==> NoJoinWithSoft(order[r].boundaries, soft, bs))
    decreases i - p
  {
    if p < i && FirstJoinWithSoft(order[p].boundaries, soft, bs).None? {
      FindTwinFromSpec(order, p + 1, i, soft, bs);
    }
  }

  /** The search for a twin reads only the shape of the boundaries. */
  lemma {:induction false} FindTwinShape(order: seq<RegionNode>, p: nat, i: nat, soft: EntityId,
                                         bs: seq<Boundary>, cs: seq<Boundary>)
    requires i <= |order| && SameShape(bs, cs)
    ensures FindTwinFrom(order, p, i, soft, bs) == FindTwinFrom(order, p, i, soft, cs)
    decreases i - p
  {
    if p < i {
      FirstJoinShape(order[p].boundaries, soft, bs, cs);
      FindTwinShape(order, p + 1, i, soft, bs, cs);
    }
  }

  lemma {:induction false} FirstJoinShape(ids: seq<EntityId>, soft: EntityId, bs: seq<Boundary>, cs: seq<Boundary>)
    requires SameShape(bs, cs)
    ensures FirstJoinWithSoft(ids, soft, bs) == FirstJoinWithSoft(ids, soft, cs)
  {
    if |ids| > 0 {
      IsJoinShape(bs, cs, ids[0], soft);
      FirstJoinShape(ids[1..], soft, bs, cs);
    }
  }

  /** The state of a twinned pair: both point at the current region and the
      earlier one, the current join takes the earlier one's joinId, and the
      textures are merged into the current join and then back. */
  function Twinned(je: JoinState, other: JoinState, current: EntityId, earlier: EntityId): (JoinState, JoinState) {
    var a, b := Some(current), Some(earlier);
    var je' := je.(joinId := other.joinId, regionA := a, regionB := b,
                   topTexture := RenderComponents.MergeTexture(je.topTexture, other.topTexture),
                   bottomTexture := RenderComponents.MergeTexture(je.bottomTexture, other.bottomTexture));
    var other' := other.(regionA := a, regionB := b,
                         topTexture := RenderComponents.MergeTexture(other.topTexture, je'.topTexture),
                         bottomTexture := RenderComponents.MergeTexture(other.bottomTexture, je'.bottomTexture));
    (je', other')
  }

  /** Twinning leaves the pair agreeing on everything the renderer reads:
      regions, textures; the current join adopts the earlier one's joinId. */
  lemma TwinnedAgree(je: JoinState, other: JoinState, current: EntityId, earlier: EntityId)
    ensures var (a, b) := Twinned(je, other, current, earlier);
      a.regionA == b.regionA == Some(current) && a.regionB == b.regionB == Some(earlier) &&
      a.topTexture == b.topTexture && a.bottomTexture == b.bottomTexture &&
      a.joinId == b.joinId && a.softJoinId == je.softJoinId && b.softJoinId == other.softJoinId
  {
    RenderComponents.MergeBothWaysAgrees(je.topTexture, other.topTexture);
    RenderComponents.MergeBothWaysAgrees(je.bottomTexture, other.bottomTexture);
  }

  /** Set the join state of the boundary at position k. */
  function SetJoin(bs: seq<Boundary>, k: nat, js: JoinState): (r: seq<Boundary>)
    requires k < |bs| && bs[k].JoinEdge?
  {
    bs[k := bs[k].(join := js)]
  }

  /** One join of region i: twin it with the first earlier match, or point
      it at its own region and the root. Ids that are not joins are
      skipped. */
  function ConnectJoin(order: seq<RegionNode>, i: nat, jid: EntityId, rootId: EntityId, bs: seq<Boundary>)
    : (r: seq<Boundary>)
    requires i < |order|
    ensures SameShape(bs, r)
  {
    match BoundaryIndex(bs, jid)
    case None => bs
    case Some(k) =>
      if !bs[k].JoinEdge? then bs
      else
        var je := bs[k].join;
        match FindTwin(order, i, je.softJoinId, bs)
        case None =>
          SetJoin(bs, k, je.(regionA := Some(order[i].id), regionB := Some(rootId)))
        case Some((p, oid)) =>
          var ko := BoundaryIndex(bs, oid).value;
          var (je', other') := Twinned(je, bs[ko].join, order[i].id, order[p].id);
          SetJoin(SetJoin(bs, k, je'), ko, other')
  }

  /** The joins listed in `ids`, in order. */
  function ConnectIds(order: seq<RegionNode>, i: nat, ids: seq<EntityId>, rootId: EntityId, bs: seq<Boundary>)
    : (r: seq<Boundary>)
    requires i < |order|
    ensures SameShape(bs, r)
    decreases |ids|
  {
    if |ids| == 0 then bs
    else ConnectJoin(order, i, ids[|ids| - 1], rootId, ConnectIds(order, i, ids[..|ids| - 1], rootId, bs))
  }

  /** Regions lo..hi-1 of the pre-order, in order. */
  function ConnectRange(order: seq<RegionNode>, lo: nat, hi: nat, rootId: EntityId, bs: seq<Boundary>)
    : (r: seq<Boundary>)
    requires lo <= hi <= |order|
    ensures SameShape(bs, r)
    decreases hi - lo
  {
    if hi == lo then bs
    else ConnectIds(order, hi - 1, order[hi - 1].boundaries, rootId, ConnectRange(order, lo, hi - 1, rootId, bs))
  }

  /** The whole pass over the tree below `root`. */
  function ConnectSubregions(root: RegionNode, bs: seq<Boundary>): (r: seq<Boundary>)
    ensures SameShape(bs, r)
  {
    var order := PreOrder(root);
    ConnectRange(order, 0, |order|, root.id, bs)
  }

  lemma {:induction false} ConnectIdsAppend(order: seq<RegionNode>, i: nat, ids1: seq<EntityId>, ids2: seq<EntityId>,
                                            rootId: EntityId, bs: seq<Boundary>)
    requires i < |order|
    ensures ConnectIds(order, i, ids1 + ids2, rootId, bs)
         == ConnectIds(order, i, ids2, rootId, ConnectIds(order, i, ids1, rootId, bs))
    decreases |ids2|
  {
    if |ids2| == 0 {
      assert ids1 + ids2 == ids1;
    } else {
      var ids := ids1 + ids2;
      assert ids[..|ids| - 1] == ids1 + ids2[..|ids2| - 1];
      assert ids[|ids| - 1] == ids2[|ids2| - 1];
      ConnectIdsAppend(order, i, ids1, ids2[..|ids2| - 1], rootId, bs);
    }
  }

  lemma {:induction false} ConnectRangeSplit(order: seq<RegionNode>, lo: nat, mid: nat, hi: nat,
                                             rootId: EntityId, bs: seq<Boundary>)
    requires lo <= mid <= hi <= |order|
    ensures ConnectRange(order, lo, hi, rootId, bs)
         == ConnectRange(order, mid, hi, rootId, ConnectRange(order, lo, mid, rootId, bs))
    decreases hi - mid
  {
    if hi > mid {
      ConnectRangeSplit(order, lo, mid, hi - 1, rootId, bs);
    }
  }

  /** A step on a join whose soft id is not x leaves every join with soft
      id x as it was. */
  lemma ConnectJoinFrame(order: seq<RegionNode>, i: nat, jid: EntityId, rootId: EntityId, bs: seq<Boundary>,
                         x: EntityId, m: nat)
    requires i < |order| && m < |bs| && bs[m].JoinEdge? && bs[m].join.softJoinId == x
    requires !IsJoinWithSoft(bs, jid, x)
    ensures ConnectJoin(order, i, jid, rootId, bs)[m] == bs[m]
  {
  }

  lemma {:induction false} ConnectIdsFrame(order: seq<RegionNode>, i: nat, ids: seq<EntityId>, rootId: EntityId,
                                           bs: seq<Boundary>, x: EntityId, m: nat)
    requires i < |order| && m < |bs| && bs[m].JoinEdge? && bs[m].join.softJoinId == x
    requires NoJoinWithSoft(ids, x, bs)
    ensures ConnectIds(order, i, ids, rootId, bs)[m] == bs[m]
    decreases |ids|
  {
    if |ids| > 0 {
      var pre := ids[..|ids| - 1];
      ConnectIdsFrame(order, i, pre, rootId, bs, x, m);
      var cur := ConnectIds(order, i, pre, rootId, bs);
      IsJoinShape(bs, cur, ids[|ids| - 1], x);
      ConnectJoinFrame(order, i, ids[|ids| - 1], rootId, cur, x, m);
    }
  }

  lemma {:induction false} ConnectRangeFrame(order: seq<RegionNode>, lo: nat, hi: nat, rootId: EntityId,
                                             bs: seq<Boundary>, x: EntityId, m: nat)
    requires lo <= hi <= |order| && m < |bs| && bs[m].JoinEdge? && bs[m].join.softJoinId == x
    requires forall r :: lo <= r < hi ==> NoJoinWithSoft(order[r].boundaries, x, bs)
    ensures ConnectRange(order, lo, hi, rootId, bs)[m] == bs[m]
    decreases hi - lo
  {
    if hi > lo {
      ConnectRangeFrame(order, lo, hi - 1, rootId, bs, x, m);
      var cur := ConnectRange(order, lo, hi - 1, rootId, bs);
      forall y | y in order[hi - 1].boundaries ensures !IsJoinWithSoft(cur, y, x) {
        IsJoinShape(bs, cur, y, x);
      }
      ConnectIdsFrame(order, hi - 1, order[hi - 1].boundaries, rootId, cur, x, m);
    }
  }

  /** `id` appears exactly once among the regions' boundary lists: in region
      p at position k. */
  predicate ListedOnceAt(order: seq<RegionNode>, id: EntityId, p: nat, k: nat) {
    p < |order| && k < |order[p].boundaries| && order[p].boundaries[k] == id &&
    forall r, j :: 0 <= r < |order| && 0 <= j < |order[r].boundaries| && order[r].boundaries[j] == id
      ==> r == p && j == k
  }

  /** The pass applied to region p's list, split around the one position
      that lists a given join. */
  lemma SplitRegionAt(order: seq<RegionNode>, p: nat, k: nat, rootId: EntityId, bs: seq<Boundary>)
    requires p < |order| && k < |order[p].boundaries|
    ensures var ids := order[p].boundaries;
      ConnectRange(order, p, p + 1, rootId, bs)
      == ConnectIds(order, p, ids[k + 1..], rootId,
           ConnectJoin(order, p, ids[k], rootId, ConnectIds(order, p, ids[..k], rootId, bs)))
  {
    var ids := order[p].boundaries;
    assert ids == ids[..k] + [ids[k]] + ids[k + 1..];
    ConnectIdsAppend(order, p, ids[..k] + [ids[k]], ids[k + 1..], rootId, bs);
    ConnectIdsAppend(order, p, ids[..k], [ids[k]], rootId, bs);
    assert ConnectIds(order, p, [ids[k]], rootId, ConnectIds(order, p, ids[..k], rootId, bs))
        == ConnectJoin(order, p, ids[k], rootId, ConnectIds(order, p, ids[..k], rootId, bs));
  }

  /** Whether a list names a join with a given soft id depends on the
      shape alone. */
  lemma NoJoinShape(ids: seq<EntityId>, x: EntityId, bs: seq<Boundary>, cs: seq<Boundary>)
    requires SameShape(bs, cs) && NoJoinWithSoft(ids, x, bs)
    ensures NoJoinWithSoft(ids, x, cs)
  {
    forall y | y in ids ensures !IsJoinWithSoft(cs, y, x) {
      IsJoinShape(bs, cs, y, x);
    }
  }

  /** A join with no join of its soft id before region i finds no twin, on
      any boundaries of the same shape. */
  lemma NoTwinShape(order: seq<RegionNode>, i: nat, x: EntityId, bs: seq<Boundary>, cs: seq<Boundary>)
    requires i <= |order| && SameShape(bs, cs)
    requires forall r :: 0 <= r < i ==> NoJoinWithSoft(order[r].boundaries, x, bs)
    ensures FindTwin(order, i, x, cs).None?
  {
    forall r | 0 <= r < i ensures NoJoinWithSoft(order[r].boundaries, x, cs) {
      NoJoinShape(order[r].boundaries, x, bs, cs);
    }
  }

  /** The joins of a list with no join of soft id x leave every join of
      soft id x as it was. */
  lemma ConnectIdsKeeps(order: seq<RegionNode>, i: nat, ids: seq<EntityId>, rootId: EntityId,
                        bs: seq<Boundary>, x: EntityId)
    requires i < |order| && NoJoinWithSoft(ids, x, bs)
    ensures var out := ConnectIds(order, i, ids, rootId, bs);
      forall m :: 0 <= m < |bs| && bs[m].JoinEdge? && bs[m].join.softJoinId == x ==> out[m] == bs[m]
  {
    forall m | 0 <= m < |bs| && bs[m].JoinEdge? && bs[m].join.softJoinId == x
      ensures ConnectIds(order, i, ids, rootId, bs)[m] == bs[m]
    {
      ConnectIdsFrame(order, i, ids, rootId, bs, x, m);
    }
  }

  /** Region p, which lists a (and no other join of soft id x): a finds no
      twin in the regions before p and is pointed at p and the root; every
      other join of soft id x is left alone. */
  lemma RegionOfFirst(order: seq<RegionNode>, p: nat, ka: nat, rootId: EntityId,
                      bs: seq<Boundary>, s: seq<Boundary>, x: EntityId, a: EntityId)
    requires p < |order| && ka < |order[p].boundaries| && order[p].boundaries[ka] == a
    requires SameShape(bs, s) && IsJoinWithSoft(bs, a, x)
    requires forall j :: 0 <= j < |order[p].boundaries| && j != ka ==> !IsJoinWithSoft(bs, order[p].boundaries[j], x)
    requires forall r :: 0 <= r < p ==> NoJoinWithSoft(order[r].boundaries, x, bs)
    ensures var ia := BoundaryIndex(bs, a).value;
      var out := ConnectRange(order, p, p + 1, rootId, s);
      out[ia] == s[ia].(join := s[ia].join.(regionA := Some(order[p].id), regionB := Some(rootId))) &&
      forall m :: 0 <= m < |s| && m != ia && s[m].JoinEdge? && s[m].join.softJoinId == x ==> out[m] == s[m]
  {
    var ids := order[p].boundaries;
    var ia := BoundaryIndex(bs, a).value;
    assert NoJoinWithSoft(ids[..ka], x, bs) && NoJoinWithSoft(ids[ka + 1..], x, bs) by {
      forall y | y in ids[..ka] ensures !IsJoinWithSoft(bs, y, x) {
        var j :| 0 <= j < ka && ids[j] == y;
      }
      forall y | y in ids[ka + 1..] ensures !IsJoinWithSoft(bs, y, x) {
        var j :| ka + 1 <= j < |ids| && ids[j] == y;
      }
    }
    BoundaryIndexShape(bs, s, a);
    var s1 := ConnectIds(order, p, ids[..ka], rootId, s);
    NoJoinShape(ids[..ka], x, bs, s);
    ConnectIdsKeeps(order, p, ids[..ka], rootId, s, x);
    BoundaryIndexShape(bs, s1, a);
    NoTwinShape(order, p, x, bs, s1);
    var s2 := ConnectJoin(order, p, a, rootId, s1);
    assert s2 == SetJoin(s1, ia, s1[ia].join.(regionA := Some(order[p].id), regionB := Some(rootId)));
    NoJoinShape(ids[ka + 1..], x, bs, s2);
    ConnectIdsKeeps(order, p, ids[ka + 1..], rootId, s2, x);
    SplitRegionAt(order, p, ka, rootId, s);
  }

  /** Region q, which lists b (and no other join of soft id x), when the only
      earlier join of soft id x is a, at region p: b and a are twinned. */
  lemma RegionOfSecond(order: seq<RegionNode>, p: nat, ka: nat, q: nat, kb: nat, rootId: EntityId,
                       bs: seq<Boundary>, s: seq<Boundary>, x: EntityId, a: EntityId, b: EntityId)
    requires p < q < |order| && ka < |order[p].boundaries| && order[p].boundaries[ka] == a
    requires kb < |order[q].boundaries| && order[q].boundaries[kb] == b
    requires SameShape(bs, s) && IsJoinWithSoft(bs, a, x) && IsJoinWithSoft(bs, b, x) && a != b
    requires forall j :: 0 <= j < |order[q].boundaries| && j != kb ==> !IsJoinWithSoft(bs, order[q].boundaries[j], x)
    requires forall j :: 0 <= j < ka ==> !IsJoinWithSoft(bs, order[p].boundaries[j], x)
    requires forall r :: 0 <= r < q && r != p ==> NoJoinWithSoft(order[r].boundaries, x, bs)
    ensures var ia, ib := BoundaryIndex(bs, a).value, BoundaryIndex(bs, b).value;
      var out := ConnectRange(order, q, q + 1, rootId, s);
      var tw := Twinned(s[ib].join, s[ia].join, order[q].id, order[p].id);
      out[ib].join == tw.0 && out[ia].join == tw.1 && out[ia].JoinEdge? && out[ib].JoinEdge?
  {
    var ids := order[q].boundaries;
    var ia, ib := BoundaryIndex(bs, a).value, BoundaryIndex(bs, b).value;
    assert ia != ib;
    var s1 := ConnectIds(order, q, ids[..kb], rootId, s);
    forall y | y in ids[..kb] ensures !IsJoinWithSoft(s, y, x) {
      var j :| 0 <= j < kb && ids[j] == y;
      IsJoinShape(bs, s, y, x);
    }
    BoundaryIndexShape(bs, s, a);
    BoundaryIndexShape(bs, s, b);
    ConnectIdsFrame(order, q, ids[..kb], rootId, s, x, ia);
    ConnectIdsFrame(order, q, ids[..kb], rootId, s, x, ib);
    BoundaryIndexShape(bs, s1, a);
    BoundaryIndexShape(bs, s1, b);
    assert NoJoinWithSoft(order[p].boundaries[..ka], x, bs) by {
      forall y | y in order[p].boundaries[..ka] ensures !IsJoinWithSoft(bs, y, x) {
        var j :| 0 <= j < ka && order[p].boundaries[j] == y;
      }
    }
    FindTwinIs(order, q, x, bs, p, ka, a);
    FindTwinShape(order, 0, q, x, bs, s1);
    var s2 := ConnectJoin(order, q, b, rootId, s1);
    var tw := Twinned(s1[ib].join, s1[ia].join, order[q].id, order[p].id);
    assert s2 == SetJoin(SetJoin(s1, ib, tw.0), ia, tw.1);
    var s3 := ConnectIds(order, q, ids[kb + 1..], rootId, s2);
    forall y | y in ids[kb + 1..] ensures !IsJoinWithSoft(s2, y, x) {
      var j :| kb + 1 <= j < |ids| && ids[j] == y;
      IsJoinShape(bs, s2, y, x);
    }
    ConnectIdsFrame(order, q, ids[kb + 1..], rootId, s2, x, ia);
    ConnectIdsFrame(order, q, ids[kb + 1..], rootId, s2, x, ib);
    SplitRegionAt(order, q, kb, rootId, s);
  }

  /** The pass up to region q: a has been pointed at its region p and the
      root, b is untouched. */
  lemma BeforeSecond(order: seq<RegionNode>, p: nat, ka: nat, q: nat, rootId: EntityId,
                     bs: seq<Boundary>, x: EntityId, a: EntityId, b: EntityId)
    requires p < q <= |order| && ka < |order[p].boundaries| && order[p].boundaries[ka] == a
    requires IsJoinWithSoft(bs, a, x) && IsJoinWithSoft(bs, b, x) && a != b
    requires forall j :: 0 <= j < |order[p].boundaries| && j != ka ==> !IsJoinWithSoft(bs, order[p].boundaries[j], x)
    requires forall r :: 0 <= r < q && r != p ==> NoJoinWithSoft(order[r].boundaries, x, bs)
    ensures var ia, ib := BoundaryIndex(bs, a).value, BoundaryIndex(bs, b).value;
      var out := ConnectRange(order, 0, q, rootId, bs);
      out[ia] == bs[ia].(join := bs[ia].join.(regionA := Some(order[p].id), regionB := Some(rootId))) &&
      out[ib] == bs[ib]
  {
    var ia, ib := BoundaryIndex(bs, a).value, BoundaryIndex(bs, b).value;
    var s0 := ConnectRange(order, 0, p, rootId, bs);
    ConnectRangeFrame(order, 0, p, rootId, bs, x, ia);
    ConnectRangeFrame(order, 0, p, rootId, bs, x, ib);
    RegionOfFirst(order, p, ka, rootId, bs, s0, x, a);
    var s1 := ConnectRange(order, p, p + 1, rootId, s0);
    ConnectRangeSplit(order, 0, p, p + 1, rootId, bs);
    forall r | p + 1 <= r < q ensures NoJoinWithSoft(order[r].boundaries, x, s1) {
      forall y | y in order[r].boundaries ensures !IsJoinWithSoft(s1, y, x) {
        IsJoinShape(bs, s1, y, x);
      }
    }
    ConnectRangeFrame(order, p + 1, q, rootId, s1, x, ia);
    ConnectRangeFrame(order, p + 1, q, rootId, s1, x, ib);
    ConnectRangeSplit(order, 0, p + 1, q, rootId, bs);
  }

  /** Regions after q leave both joins of soft id x as they are. */
  lemma AfterSecond(order: seq<RegionNode>, q: nat, rootId: EntityId,
                    bs: seq<Boundary>, s: seq<Boundary>, x: EntityId, m: nat)
    requires q < |order| && SameShape(bs, s)
    requires m < |s| && s[m].JoinEdge? && s[m].join.softJoinId == x
    requires forall r :: q < r < |order| ==> NoJoinWithSoft(order[r].boundaries, x, bs)
    ensures ConnectRange(order, q + 1, |order|, rootId, s)[m] == s[m]
  {
    forall r | q + 1 <= r < |order| ensures NoJoinWithSoft(order[r].boundaries, x, s) {
      forall y | y in order[r].boundaries ensures !IsJoinWithSoft(s, y, x) {
        IsJoinShape(bs, s, y, x);
      }
    }
    ConnectRangeFrame(order, q + 1, |order|, rootId, s, x, m);
  }

  /** The twinning property. Take two joins a and b with the same soft id x,
      listed once each, in regions p < q of the pre-order, with no other join
      of soft id x listed anywhere. After the pass both point at region q
      and region p, show the same textures (a's, the earlier join's, where
      it set one), and b has taken a's joinId. */
  lemma TwinsAgree(root: RegionNode, bs: seq<Boundary>, a: EntityId, b: EntityId, x: EntityId,
                   p: nat, ka: nat, q: nat, kb: nat)
    requires a != b && IsJoinWithSoft(bs, a, x) && IsJoinWithSoft(bs, b, x)
    requires p < q
    requires ListedOnceAt(PreOrder(root), a, p, ka) && ListedOnceAt(PreOrder(root), b, q, kb)
    requires forall r, y :: (0 <= r < |PreOrder(root)| && y in PreOrder(root)[r].boundaries &&
                             IsJoinWithSoft(bs, y, x)) ==> (y == a || y == b)
    ensures var order := PreOrder(root);
      var ia, ib := BoundaryIndex(bs, a).value, BoundaryIndex(bs, b).value;
      var out := ConnectSubregions(root, bs);
      out[ia].join.regionA == out[ib].join.regionA == Some(order[q].id) &&
      out[ia].join.regionB == out[ib].join.regionB == Some(order[p].id) &&
      out[ia].join.topTexture == out[ib].join.topTexture
        == RenderComponents.MergeTexture(bs[ib].join.topTexture, bs[ia].join.topTexture) &&
      out[ia].join.bottomTexture == out[ib].join.bottomTexture
        == RenderComponents.MergeTexture(bs[ib].join.bottomTexture, bs[ia].join.bottomTexture) &&
      out[ib].join.joinId == bs[ia].join.joinId
  {
    var order := PreOrder(root);
    var rootId := root.id;
    var ia, ib := BoundaryIndex(bs, a).value, BoundaryIndex(bs, b).value;
    NoOtherListings(order, bs, a, b, x, p, ka, q, kb);
    BeforeSecond(order, p, ka, q, rootId, bs, x, a, b);
    var s2 := ConnectRange(order, 0, q, rootId, bs);
    RegionOfSecond(order, p, ka, q, kb, rootId, bs, s2, x, a, b);
    var s3 := ConnectRange(order, q, q + 1, rootId, s2);
    ConnectRangeSplit(order, 0, q, q + 1, rootId, bs);
    TwinnedAgree(s2[ib].join, s2[ia].join, order[q].id, order[p].id);
    AfterSecond(order, q, rootId, bs, s3, x, ia);
    AfterSecond(order, q, rootId, bs, s3, x, ib);
    ConnectRangeSplit(order, 0, q + 1, |order|, rootId, bs);
  }

  /** The lone-join rule. A join a of soft id x, listed once, at region p
      of the pre-order, with no other join of soft id x listed anywhere,
      finds no twin: after the pass it points at its own region and the
      root, and nothing else about it has changed. */
  lemma LoneJoin(root: RegionNode, bs: seq<Boundary>, a: EntityId, x: EntityId, p: nat, ka: nat)
    requires IsJoinWithSoft(bs, a, x) && ListedOnceAt(PreOrder(root), a, p, ka)
    requires forall r, y :: (0 <= r < |PreOrder(root)| && y in PreOrder(root)[r].boundaries &&
                             IsJoinWithSoft(bs, y, x)) ==> y == a
    ensures var ia := BoundaryIndex(bs, a).value;
      ConnectSubregions(root, bs)[ia]
        == bs[ia].(join := bs[ia].join.(regionA := Some(PreOrder(root)[p].id), regionB := Some(root.id)))
  {
    var order := PreOrder(root);
    var rootId := root.id;
    var ia := BoundaryIndex(bs, a).value;
    LoneListing(order, bs, a, x, p, ka);
    var s0 := ConnectRange(order, 0, p, rootId, bs);
    ConnectRangeFrame(order, 0, p, rootId, bs, x, ia);
    RegionOfFirst(order, p, ka, rootId, bs, s0, x, a);
    var s1 := ConnectRange(order, p, p + 1, rootId, s0);
    ConnectRangeSplit(order, 0, p, p + 1, rootId, bs);
    AfterSecond(order, p, rootId, bs, s1, x, ia);
    ConnectRangeSplit(order, 0, p + 1, |order|, rootId, bs);
  }

  /** From "the only listing" to the facts the region lemmas use. */
  lemma LoneListing(order: seq<RegionNode>, bs: seq<Boundary>, a: EntityId, x: EntityId, p: nat, ka: nat)
    requires ListedOnceAt(order, a, p, ka)
    requires forall r, y :: (0 <= r < |order| && y in order[r].boundaries &&
                             IsJoinWithSoft(bs, y, x)) ==> y == a
    ensures forall r :: 0 <= r < |order| && r != p ==> NoJoinWithSoft(order[r].boundaries, x, bs)
    ensures forall j :: 0 <= j < |order[p].boundaries| && j != ka ==> !IsJoinWithSoft(bs, order[p].boundaries[j], x)
  {
    forall r | 0 <= r < |order| && r != p ensures NoJoinWithSoft(order[r].boundaries, x, bs) {
      forall y | y in order[r].boundaries ensures !IsJoinWithSoft(bs, y, x) {
        var j :| 0 <= j < |order[r].boundaries| && order[r].boundaries[j] == y;
      }
    }
    forall j | 0 <= j < |order[p].boundaries| && j != ka ensures !IsJoinWithSoft(bs, order[p].boundaries[j], x) {
      assert order[p].boundaries[j] in order[p].boundaries;
    }
  }

  /** From "listed once" to the facts the region lemmas use. */
  lemma NoOtherListings(order: seq<RegionNode>, bs: seq<Boundary>, a: EntityId, b: EntityId, x: EntityId,
                        p: nat, ka: nat, q: nat, kb: nat)
    requires ListedOnceAt(order, a, p, ka) && ListedOnceAt(order, b, q, kb) && p < q
    requires forall r, y :: (0 <= r < |order| && y in order[r].boundaries &&
                             IsJoinWithSoft(bs, y, x)) ==> (y == a || y == b)
    ensures forall r :: 0 <= r < |order| && r != p && r != q ==> NoJoinWithSoft(order[r].boundaries, x, bs)
    ensures forall j :: 0 <= j < |order[p].boundaries| && j != ka ==> !IsJoinWithSoft(bs, order[p].boundaries[j], x)
    ensures forall j :: 0 <= j < |order[q].boundaries| && j != kb ==> !IsJoinWithSoft(bs, order[q].boundaries[j], x)
  {
    forall r | 0 <= r < |order| && r != p && r != q ensures NoJoinWithSoft(order[r].boundaries, x, bs) {
      forall y | y in order[r].boundaries ensures !IsJoinWithSoft(bs, y, x) {
        var j :| 0 <= j < |order[r].boundaries| && order[r].boundaries[j] == y;
      }
    }
    forall j | 0 <= j < |order[p].boundaries| && j != ka ensures !IsJoinWithSoft(bs, order[p].boundaries[j], x) {
      assert order[p].boundaries[j] in order[p].boundaries;
    }
    forall j | 0 <= j < |order[q].boundaries| && j != kb ensures !IsJoinWithSoft(bs, order[q].boundaries[j], x) {
      assert order[q].boundaries[j] in order[q].boundaries;
    }
  }

  /** When the only join of soft id x listed before region q is a, at
      region p, the twin search from region q finds a. */
  lemma FindTwinIs(order: seq<RegionNode>, q: nat, x: EntityId, bs: seq<Boundary>, p: nat, ka: nat, a: EntityId)
    requires p < q <= |order| && ka < |order[p].boundaries| && order[p].boundaries[ka] == a
    requires IsJoinWithSoft(bs, a, x)
    requires forall r :: 0 <= r < q && r != p ==> NoJoinWithSoft(order[r].boundaries, x, bs)
    requires NoJoinWithSoft(order[p].boundaries[..ka], x, bs)
    ensures FindTwin(order, q, x, bs) == Some((p, a))
  {
    var t := FindTwin(order, q, x, bs);
    FindTwinFromSpec(order, 0, q, x, bs);
    assert a in order[p].boundaries;
    var ids := order[p].boundaries;
    forall j | 0 <= j < ka ensures !IsJoinWithSoft(bs, ids[j], x) {
      assert ids[j] in ids[..ka];
    }
    var f := FirstJoinWithSoft(ids, x, bs);
    assert f.Some?;
    assert f.value == ka;
  }

  // ---------------------------------------------------------------------
  // The pass as an imperative loop
  // ---------------------------------------------------------------------

  /** The twin search as a scan: regions before i in pre-order, each
      region's boundary list front to back, stopping at the first join
      with the given soft id. */
  method FindTwinScan(order: seq<RegionNode>, i: nat, soft: EntityId, bs: seq<Boundary>)
    returns (t: Option<(nat, EntityId)>)
    requires i <= |order|
    ensures t == FindTwin(order, i, soft, bs)
  {
    var p := 0;
    while p < i
      invariant p <= i
      invariant FindTwinFrom(order, 0, i, soft, bs) == FindTwinFrom(order, p, i, soft, bs)
    {
      var ids := order[p].boundaries;
      var l := 0;
      while l < |ids|
        invariant l <= |ids|
        invariant forall j :: 0 <= j < l ==> !IsJoinWithSoft(bs, ids[j], soft)
      {
        if IsJoinWithSoft(bs, ids[l], soft) {
          return Some((p, ids[l]));
        }
        l := l + 1;
      }
      p := p + 1;
    }
    return None;
  }

  /** One join of region i, with the twin found by the scan. */
  method ConnectJoinStep(order: seq<RegionNode>, i: nat, jid: EntityId, rootId: EntityId, bs: seq<Boundary>)
    returns (r: seq<Boundary>)
    requires i < |order|
    ensures r == ConnectJoin(order, i, jid, rootId, bs)
  {
    r := bs;
    var k := BoundaryIndex(bs, jid);
    if k.Some? && bs[k.value].JoinEdge? {
      var je := bs[k.value].join;
      var twin := FindTwinScan(order, i, je.softJoinId, bs);
      if twin.None? {
        r := SetJoin(bs, k.value, je.(regionA := Some(order[i].id), regionB := Some(rootId)));
      } else {
        var (p, oid) := twin.value;
        var ko := BoundaryIndex(bs, oid).value;
        var (je', other') := Twinned(je, bs[ko].join, order[i].id, order[p].id);
        r := SetJoin(SetJoin(bs, k.value, je'), ko, other');
      }
    }
  }

  /** connectSubregions: the outer walk over the regions in pre-order, the
      inner loop over each region's boundaries. */
  method ConnectSubregionsLoop(root: RegionNode, bs: seq<Boundary>) returns (out: seq<Boundary>)
    ensures out == ConnectSubregions(root, bs)
    ensures SameShape(bs, out)
  {
    var order := PreOrder(root);
    out := bs;
    var i := 0;
    while i < |order|
      invariant i <= |order|
      invariant out == ConnectRange(order, 0, i, root.id, bs)
    {
      var ids := order[i].boundaries;
      ghost var start := out;
      var k := 0;
      while k < |ids|
        invariant k <= |ids|
        invariant out == ConnectIds(order, i, ids[..k], root.id, start)
      {
        out := ConnectJoinStep(order, i, ids[k], root.id, out);
        assert ids[..k + 1][..k] == ids[..k];
        k := k + 1;
      }
      assert ids[..k] == ids;
      i := i + 1;
    }
  }

  // ---------------------------------------------------------------------
  // The pass as written
  // ---------------------------------------------------------------------

  /** The state the inner walk carries: the counter j (bumped only for
      regions without a match) and the matches met so far, as (region,
      join) pairs, in the order they were applied. */
  datatype Walk = Walk(j: nat, matches: seq<(EntityId, EntityId)>)

  /** forEachRegion with the inner callback of connectSubregions, as
      written: a region is skipped once j has reached i; a region with a
      join of the same soft id records the first one and answers false,
      which stops only the later siblings of that region; any other region
      bumps j and its children are walked. Returns the callback's answer
      for r and the walk state after r's subtree. */
  function VisitAsWritten(r: RegionNode, i: nat, soft: EntityId, bs: seq<Boundary>, w: Walk): (res: (bool, Walk))
    ensures w.matches <= res.1.matches && w.j <= res.1.j
    ensures forall m :: |w.matches| <= m < |res.1.matches| ==> IsJoinWithSoft(bs, res.1.matches[m].1, soft)
    decreases r
  {
    if w.j >= i then (false, w)
    else match FirstJoinWithSoft(r.boundaries, soft, bs)
      case Some(k) => (false, w.(matches := w.matches + [(r.id, r.boundaries[k])]))
      case None => (true, VisitChildrenAsWritten(r.children, i, soft, bs, w.(j := w.j + 1)))
  }

  /** The child loop of forEachRegion: it breaks at the first child whose
      callback answered false. */
  function VisitChildrenAsWritten(cs: seq<RegionNode>, i: nat, soft: EntityId, bs: seq<Boundary>, w: Walk)
    : (res: Walk)
    ensures w.matches <= res.matches && w.j <= res.j
    ensures forall m :: |w.matches| <= m < |res.matches| ==> IsJoinWithSoft(bs, res.matches[m].1, soft)
    decreases cs
  {
    if |cs| == 0 then w
    else
      var (cont, w') := VisitAsWritten(cs[0], i, soft, bs, w);
      if cont then VisitChildrenAsWritten(cs[1..], i, soft, bs, w') else w'
  }

  /** Every match is applied in turn to the join at position k of the
      current region: each one re-points the pair and merges both ways. */
  function ApplyMatches(k: nat, current: EntityId, ms: seq<(EntityId, EntityId)>, bs: seq<Boundary>)
    : (r: seq<Boundary>)
    requires k < |bs| && bs[k].JoinEdge?
    ensures SameShape(bs, r)
    decreases |ms|
  {
    if |ms| == 0 then bs
    else
      var (earlier, oid) := ms[0];
      match BoundaryIndex(bs, oid)
      case None => ApplyMatches(k, current, ms[1..], bs)
      case Some(ko) =>
        if !bs[ko].JoinEdge? then ApplyMatches(k, current, ms[1..], bs)
        else
          var (je', other') := Twinned(bs[k].join, bs[ko].join, current, earlier);
          ApplyMatches(k, current, ms[1..], SetJoin(SetJoin(bs, k, je'), ko, other'))
  }

  /** One join of region i of the pre-order, as written. */
  function ConnectJoinAsWritten(root: RegionNode, order: seq<RegionNode>, i: nat, jid: EntityId, bs: seq<Boundary>)
    : (r: seq<Boundary>)
    requires i < |order|
    ensures SameShape(bs, r)
  {
    match BoundaryIndex(bs, jid)
    case None => bs
    case Some(k) =>
      if !bs[k].JoinEdge? then bs
      else
        var je := bs[k].join;
        var ms := VisitAsWritten(root, i, je.softJoinId, bs, Walk(0, [])).1.matches;
        if |ms| == 0 then SetJoin(bs, k, je.(regionA := Some(order[i].id), regionB := Some(root.id)))
        else ApplyMatches(k, order[i].id, ms, bs)
  }

  function ConnectIdsAsWritten(root: RegionNode, order: seq<RegionNode>, i: nat, ids: seq<EntityId>, bs: seq<Boundary>)
    : (r: seq<Boundary>)
    requires i < |order|
    ensures SameShape(bs, r)
    decreases |ids|
  {
    if |ids| == 0 then bs
    else ConnectJoinAsWritten(root, order, i, ids[|ids| - 1], ConnectIdsAsWritten(root, order, i, ids[..|ids| - 1], bs))
  }

  function ConnectRangeAsWritten(root: RegionNode, order: seq<RegionNode>, hi: nat, bs: seq<Boundary>)
    : (r: seq<Boundary>)
    requires hi <= |order|
    ensures SameShape(bs, r)
  {
    if hi == 0 then bs
    else ConnectIdsAsWritten(root, order, hi - 1, order[hi - 1].boundaries,
                             ConnectRangeAsWritten(root, order, hi - 1, bs))
  }

  /** connectSubregions exactly as written. */
  function ConnectSubregionsAsWritten(root: RegionNode, bs: seq<Boundary>): (r: seq<Boundary>)
    ensures SameShape(bs, r)
  {
    var order := PreOrder(root);
    ConnectRangeAsWritten(root, order, |order|, bs)
  }

  /** A root with children A and B, A with a child A1; A1 lists join 10 and
      B lists join 11, both on the soft edge with joinId 7. */
  function PrunedWalkExample(): (RegionNode, seq<Boundary>) {
    var a1 := RegionNode(2, [], [10], [], []);
    var a := RegionNode(1, [a1], [], [], []);
    var b := RegionNode(3, [], [11], [], []);
    var root := RegionNode(0, [a, b], [], [], []);
    var js := JoinState(7, 100, RenderComponents.DefaultTexture, RenderComponents.DefaultTexture, None, None);
    (root, [JoinEdge(10, [], js), JoinEdge(11, [], js.(joinId := 101))])
  }

  /** On that input the walk for B's join, as written, goes on after
      matching A1's join and reaches B itself: join 11 is twinned with
      itself and ends up pointing at B, its own region, on both sides. */
  lemma AsWrittenTwinsJoinWithItself()
    ensures var (root, bs) := PrunedWalkExample();
      var w := VisitAsWritten(root, 3, 7, bs, Walk(0, [])).1;
      var out := ConnectSubregionsAsWritten(root, bs);
      w.matches == [(2, 10), (3, 11)] &&
      out[1].join.regionA == Some(3) && out[1].join.regionB == Some(3)
  {
    var (root, bs) := PrunedWalkExample();
    var order := PreOrder(root);
    assert order == [root, root.children[0], root.children[0].children[0], root.children[1]];
    assert order[0].boundaries == [] && order[1].boundaries == [];
    assert ConnectRangeAsWritten(root, order, 1, bs) == bs;
    assert ConnectRangeAsWritten(root, order, 2, bs) == bs;
    assert VisitAsWritten(root, 2, 7, bs, Walk(0, [])).1.matches == [];
    var s1 := ConnectRangeAsWritten(root, order, 3, bs);
    assert s1 == SetJoin(bs, 0, bs[0].join.(regionA := Some(2), regionB := Some(0)));
    assert IsJoinWithSoft(s1, 10, 7) && IsJoinWithSoft(s1, 11, 7);
    assert FirstJoinWithSoft([10], 7, s1) == Some(0) && FirstJoinWithSoft([11], 7, s1) == Some(0);
    var a := root.children[0];
    var a1 := a.children[0];
    assert a.boundaries == [] && a1.boundaries == [10] && a1.id == 2;
    assert FirstJoinWithSoft(a1.boundaries, 7, s1) == Some(0);
    var m1 := [] + [(a1.id, a1.boundaries[0])];
    assert m1 == [(2, 10)];
    assert VisitAsWritten(a1, 3, 7, s1, Walk(2, [])) == (false, Walk(2, m1));
    assert VisitChildrenAsWritten([a1], 3, 7, s1, Walk(2, [])) == Walk(2, [(2, 10)]);
    var wa := VisitAsWritten(a, 3, 7, s1, Walk(1, []));
    assert wa == (true, Walk(2, [(2, 10)]));
    assert VisitAsWritten(root, 3, 7, s1, Walk(0, [])).1 == VisitChildrenAsWritten([root.children[1]], 3, 7, s1, wa.1);
    assert VisitAsWritten(root, 3, 7, s1, Walk(0, [])).1.matches == [(2, 10), (3, 11)];
    var s2 := ConnectRangeAsWritten(root, order, 4, bs);
    assert s2 == ApplyMatches(1, 3, [(2, 10), (3, 11)], s1);
  }

  /** On the same input the intended pass twins join 11 with join 10: both
      point at B and A1. */
  lemma IntendedPassTwinsExample()
    ensures var (root, bs) := PrunedWalkExample();
      var out := ConnectSubregions(root, bs);
      out[0].join.regionA == out[1].join.regionA == Some(3) &&
      out[0].join.regionB == out[1].join.regionB == Some(2)
  {
    var (root, bs) := PrunedWalkExample();
    var order := PreOrder(root);
    assert order == [root, root.children[0], root.children[0].children[0], root.children[1]];
    assert order[0].boundaries == [] && order[1].boundaries == [];
    assert order[2].boundaries == [10] && order[3].boundaries == [11];
    assert BoundaryIndex(bs, 10) == Some(0) && BoundaryIndex(bs, 11) == Some(1);
    assert IsJoinWithSoft(bs, 10, 7) && IsJoinWithSoft(bs, 11, 7);
    forall r, y | 0 <= r < |order| && y in order[r].boundaries && IsJoinWithSoft(bs, y, 7)
      ensures y == 10 || y == 11
    {
      assert r == 2 || r == 3;
    }
    TwinsAgree(root, bs, 10, 11, 7, 2, 0, 3, 0);
  }
}
