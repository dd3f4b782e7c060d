# Pro Office Calculator: a verified model of its bookkeeping core

This project models, in Dafny, the parts of Pro Office Calculator that are
not widget wiring or rendering, and proves what they promise.

- **Render system** of the raycast engine. It keeps the region tree (one
  root region, sub-regions, walls, joins, decals, sprites), the overlay set,
  the registry of components and the record of which entity was added under
  which parent. It also runs the one-time pass that twins joins between
  regions.
- **Entity manager.** A registry of systems by component kind, and deletion
  in two steps: entities are marked as pending, then purged from every system.
- **Render component value rules.** Merging join textures with the
  `"default"` sentinel, the copy constructor that drops the parent, region
  defaults and wall height.
- **Geometry basics.** Vector and range equality, negation, the point
  ordering, tolerance equality, `clipNumber` and `Line::at`, over exact reals.
- **The kernel game's `FixedSizeList`.** A bounded history that evicts its
  oldest element.
- **Map-object loading of the settings-dialog raycaster.** Walls from closed
  and open paths, the camera, sprites, and type dispatch.
- **The audio service's mixer state.** Master and music volume coupling,
  distance attenuation, and sound and track tables.
- **The colour tween and the frame-counter closure** that fades a widget's
  colour.
- **The shuffled calculator's symbol substitution.** `idToChar`, the symbol
  table built from a shuffled id list, and `translateToSymbols`.
- **The event system's subscription `Handle`.** A move-only owner of a
  listener id.
- **The main window's `numberToWord`** and the counter decrement on close.

## Form of the model

- One Dafny module per source file. `wrappers.dfy` holds `Option`, `Result`
  and `Outcome`, and `numeric.dfy` holds the double-to-int truncation C++
  performs on assignment.
- Code that updates state in place becomes a class whose methods carry
  `modifies` clauses, with loops as `while` loops with invariants:
  - `RenderSystem`, `EntityManager`, `FixedSizeList`, `Scene`,
    `AudioService`, `ColourTransition`, `ShuffledCalc`, `Handle`,
    `CJoiningEdge` and `MainWindow`.
- Each such method is specified against functions on values, and the
  properties are proved about those functions:
  - the region tree is a datatype value (the source owns sub-regions through
    `unique_ptr`);
  - the boundary list is a sequence;
  - the twinning pass is a function on the pre-order of regions.
- Calls into code outside the model become inputs, or entries in a call log:
  - the calls the entity manager makes into its systems are appended to a log;
  - the distance from the camera to a sound is a parameter;
  - the shuffle is an arbitrary permutation.

## Model

| member | source | states |
|---|---|---|
| Numeric.Trunc | src/effects.cpp:29 | double-to-int conversion truncates toward zero: the result is within 1 of x, on x's side of 0 |
| Numeric.TruncBetween | src/effects.cpp:15-17 | a value between two integers truncates to an integer between them; an integral value truncates to itself |
| MainWindow.NumberToWord | src/main_window.cpp:17-31 | "one".."ten" for 1..10, "?" for every other n; never empty |
| MainWindow.NumberToWordInjective | src/main_window.cpp:17-31 | distinct counts in 1..10 give distinct words, none of them "?" |
| MainWindow.MainWindow.constructor | src/main_window.cpp:36-44 | the window holds the app state it was given |
| MainWindow.MainWindow.CloseEvent | src/main_window.cpp:72-77 | closing decrements the count by exactly one |
| Geometry.EqualityIsValueEquality | src/raycast/geometry.hpp:24-58 | Vec2 and Range `==` hold iff all fields are equal, and `!=` is its negation |
| Geometry.NegateInvolution | src/raycast/geometry.hpp:32-34 | negating twice is the identity; only the zero vector is its own negation |
| Geometry.SquaredLengthNegate | src/raycast/geometry.hpp:32-68 | negation keeps the squared length that `operator<` compares |
| Geometry.PointLessIsStrictWeakOrder | src/raycast/geometry.hpp:66-68 | `operator<` on points is irreflexive, asymmetric and transitive, and incomparability is transitive |
| Geometry.PointLessIgnoresSign | src/raycast/geometry.hpp:66-68 | a point and its negation compare the same against every point, and neither is below the other |
| Geometry.Abs | src/raycast/geometry.hpp:74-76 | the absolute value is non-negative and is x or -x |
| Geometry.PointsEqualProperties | src/raycast/geometry.hpp:74-76 | `pointsEqual` is symmetric; reflexive for delta >= 0; never true for delta < 0; with delta 0 it is `==` |
| Geometry.PointsEqualMonotonic | src/raycast/geometry.hpp:74-76 | a wider tolerance accepts every pair a narrower one accepts |
| Geometry.ClipNumber | src/raycast/geometry.hpp:198-206 | below a: a; above b (and not below a): b; inside the range: x |
| Geometry.ClipNumberInRange | src/raycast/geometry.hpp:198-206 | for a <= b the result lies in [a, b], clipping is idempotent and monotone |
| Geometry.LineAtSlope | src/raycast/geometry.hpp:138-140 | two points of a line differ in y by m times their difference in x |
| RenderComponents.MergeTexture | src/fragments/f_main/f_menu_bar/f_settings_dialog/f_raycast/render_components.hpp:221-227 | mergeIn takes the other texture unless it is "default", and keeps its own otherwise |
| RenderComponents.MergeBothWaysAgrees | src/fragments/f_main/f_menu_bar/f_settings_dialog/f_raycast/render_components.hpp:221-228 | after `a.mergeIn(b); b.mergeIn(a)` both agree; b's non-default texture wins; two defaults stay "default"; merging again changes nothing |
| RenderComponents.CopyHeaderDropsParent | src/fragments/f_main/f_menu_bar/f_settings_dialog/f_raycast/render_components.hpp:31-34 | copying twice is copying once; a copy equals its original iff the original had no parent |
| RenderComponents.WallHeightProperties | src/fragments/f_main/f_menu_bar/f_settings_dialog/f_raycast/render_components.hpp:163-203 | a wall in a default region is 100 high; shifting floor and ceiling together keeps the height; the height is positive iff the ceiling is above the floor |
| RenderComponents.CJoiningEdge.constructor | src/fragments/f_main/f_menu_bar/f_settings_dialog/f_raycast/render_components.hpp:209-234 | a new join has both textures "default" and no regionA/regionB |
| RenderComponents.CJoiningEdge.Copy | src/fragments/f_main/f_menu_bar/f_settings_dialog/f_raycast/render_components.hpp:212-219 | the copy keeps textures and regions and drops the parent |
| RenderComponents.CJoiningEdge.MergeIn | src/fragments/f_main/f_menu_bar/f_settings_dialog/f_raycast/render_components.hpp:221-228 | each texture becomes MergeTexture(own, other's); regions unchanged |
| RenderComponents.MergeTwins | src/raycast/render_system.cpp:135-136 | merging two joins both ways leaves them showing the same top and bottom textures |
| RenderGraph.NewObject | src/raycast/render_system.cpp:439-487 | the object built for a component has its kind and id |
| RenderGraph.RemoveFirst | src/raycast/render_system.cpp:267-340 | erasing the found element: unchanged when absent, otherwise one fewer occurrence and nothing else lost |
| RenderGraph.RemoveFirstUndoesAppend | src/raycast/render_system.cpp:181-340 | appending a fresh id and erasing it gives back the list |
| RenderGraph.ChildIndex | src/raycast/render_system.cpp:267-340 | the first child region with the id, or none has it |
| RenderGraph.BoundaryIndex | src/raycast/render_system.cpp:345-370 | the first boundary in rg.boundaries with the id, or none has it |
| RenderGraph.PreOrder | src/raycast/render_system.cpp:55-67 | forEachRegion visits the region itself first |
| RenderGraph.ForestContainsChild | src/raycast/render_system.cpp:55-67 | every region of a child's subtree is visited in the forest's walk |
| RenderGraph.ChildContained | src/raycast/render_system.cpp:55-67 | every region of a child's subtree is visited in the parent's walk |
| RenderGraph.FindRegion | src/raycast/render_system.cpp:181-209 | the region found has the id and is in the tree; none found means no region of the tree has it |
| RenderGraph.FindInForest | src/raycast/render_system.cpp:181-209 | the same search over a list of sub-regions |
| RenderGraph.ApplyEdit | src/raycast/render_system.cpp:181-340 | editing a region's lists keeps its id |
| RenderGraph.UpdateRegion | src/raycast/render_system.cpp:181-340 | editing a region in the tree keeps the root's id |
| RenderGraph.UpdateForest | src/raycast/render_system.cpp:181-340 | editing within a list of sub-regions keeps its length |
| RenderGraph.FindAfterUpdate | src/raycast/render_system.cpp:181-340 | after an edit, looking the region up finds the edited region |
| RenderGraph.FindAfterUpdateForest | src/raycast/render_system.cpp:181-340 | the same over a list of sub-regions |
| RenderGraph.UpdateUndone | src/raycast/render_system.cpp:181-340 | an edit followed by one that undoes it on the target region restores the tree |
| RenderGraph.UpdateUndoneForest | src/raycast/render_system.cpp:181-340 | the same over a list of sub-regions |
| RenderGraph.EditBoundaryIds | src/raycast/render_system.cpp:188-193 | an edit adds to a region's boundary ids only what it appends |
| RenderGraph.ForestAppend | src/raycast/render_system.cpp:181-209 | appending a sub-region adds exactly its boundary ids |
| RenderGraph.ForestRemoveAt | src/raycast/render_system.cpp:267-340 | removing a sub-region adds no boundary ids |
| RenderGraph.UpdateBoundaryIds | src/raycast/render_system.cpp:188-193 | editing a region anywhere in the tree adds only the edit's ids |
| RenderGraph.UpdateForestBoundaryIds | src/raycast/render_system.cpp:188-193 | the same over a list of sub-regions |
| RenderGraph.AddToRegion | src/raycast/render_system.cpp:181-209 | fails iff a region cannot host the kind (region/join/wall/floor decal/sprite); the overlays are untouched |
| RenderGraph.AddToWall | src/raycast/render_system.cpp:214-225 | fails iff the child is not a wall decal; the tree and the set of boundary ids are untouched |
| RenderGraph.AddToJoin | src/raycast/render_system.cpp:230-241 | fails iff the child is not a wall decal; the tree and the set of boundary ids are untouched |
| RenderGraph.SameIdsSameSet | src/raycast/render_system.cpp:214-241 | boundary lists with the same ids position by position have the same id set |
| RenderGraph.AddChildToComponent | src/raycast/render_system.cpp:246-262 | attaching succeeds iff the parent's kind hosts the child's kind, and never touches the overlays |
| RenderGraph.AddChildKeepsBoundariesListed | src/raycast/render_system.cpp:188-193 | attaching keeps every wall and join listed by a region in rg.boundaries |
| RenderGraph.RemoveFromRegion | src/raycast/render_system.cpp:267-340 | fails iff a region cannot let go of the kind; a released object has the id and a kind a region hosts; overlays untouched |
| RenderGraph.RemoveBoundaryFromRegion | src/raycast/render_system.cpp:286-305 | a wall or join leaves the region's list and rg.boundaries, and is released with its id |
| RenderGraph.RemoveFromWall | src/raycast/render_system.cpp:345-370 | fails iff the kind is not a wall decal; a released object is that decal; tree and overlays untouched |
| RenderGraph.RemoveChildFromComponent | src/raycast/render_system.cpp:403-420 | detaching succeeds iff the parent's kind lets go of the child's kind, and never touches the overlays |
| RenderGraph.RemoveChildRules | src/raycast/render_system.cpp:403-420 | every detachable kind is hostable; a join hosts wall decals but cannot let go of them |
| RenderGraph.AddThenRemoveRoundTrip | src/raycast/render_system.cpp:181-340 | removing a freshly added object from its region releases it and restores the tree |
| RenderGraph.Undone | src/raycast/render_system.cpp:181-340 | each append edit of addToRegion is undone by the matching erase |
| RenderGraph.RegionRoundTrip | src/raycast/render_system.cpp:273-285 | a subregion appended to a region (lines 183-187) and removed again is released whole and the tree is restored |
| RenderGraph.BoundaryRoundTrip | src/raycast/render_system.cpp:286-305 | a fresh wall or join added to a region (lines 188-194) and removed again is released, and both the region's list and rg.boundaries are restored |
| RenderGraph.FloorDecalRoundTrip | src/raycast/render_system.cpp:306-320 | a fresh floor decal added (lines 195-199) and removed again is released and the tree is restored |
| RenderGraph.SpriteRoundTrip | src/raycast/render_system.cpp:321-335 | a fresh sprite added (lines 200-204) and removed again is released and the tree is restored |
| RenderGraph.ChildIndexAppended | src/raycast/render_system.cpp:181-209 | an appended sub-region with a fresh id is found at the end |
| RenderGraph.BoundaryIndexAppended | src/raycast/render_system.cpp:188-193 | an appended boundary with a fresh id is found at the end |
| RenderConnect.BoundaryIndexShape | src/raycast/render_system.cpp:105-157 | the twinning pass does not change where a boundary is found |
| RenderConnect.IsJoinShape | src/raycast/render_system.cpp:105-157 | whether an id is a join on a soft edge depends only on what the pass keeps |
| RenderConnect.FirstJoinWithSoft | src/raycast/render_system.cpp:122-141 | the first join of a region's list with the soft joinId, or none has it |
| RenderConnect.FindTwin | src/raycast/render_system.cpp:105-157 | the twin lies in an earlier region of the pre-order, is a join with the same soft joinId, and comes from the first such region; none iff no earlier region lists one |
| RenderConnect.FindTwinFromSpec | src/raycast/render_system.cpp:115-145 | the same search from region p on gives the first matching join of the first matching region, and nothing iff no region from p on lists one |
| RenderConnect.FindTwinShape | src/raycast/render_system.cpp:105-157 | the twin search reads only what the pass does not change |
| RenderConnect.FirstJoinShape | src/raycast/render_system.cpp:122-141 | the same for the search within one region |
| RenderConnect.TwinnedAgree | src/raycast/render_system.cpp:128-136 | twinned joins point at the same two regions and show the same textures |
| RenderConnect.ConnectJoin | src/raycast/render_system.cpp:108-152 | handling one join keeps every boundary's id, kind and soft id |
| RenderConnect.ConnectIds | src/raycast/render_system.cpp:108-152 | the same for a region's list |
| RenderConnect.ConnectRange | src/raycast/render_system.cpp:105-157 | the same for a range of regions |
| RenderConnect.ConnectSubregions | src/raycast/render_system.cpp:105-157 | the whole pass keeps every boundary's id, kind and soft id |
| RenderConnect.ConnectIdsAppend | src/raycast/render_system.cpp:108-152 | a region's list is handled piecewise |
| RenderConnect.ConnectRangeSplit | src/raycast/render_system.cpp:105-157 | a range of regions is handled piecewise |
| RenderConnect.ConnectJoinFrame | src/raycast/render_system.cpp:108-152 | handling a join with another soft id leaves a join untouched |
| RenderConnect.ConnectIdsFrame | src/raycast/render_system.cpp:108-152 | a region without a join of soft id x leaves joins of soft id x untouched |
| RenderConnect.ConnectIdsKeeps | src/raycast/render_system.cpp:108-152 | the same, for every join of soft id x at once |
| RenderConnect.NoJoinShape | src/raycast/render_system.cpp:121-128 | whether a region lists a join of a soft id is unchanged by the pass |
| RenderConnect.NoTwinShape | src/raycast/render_system.cpp:115-150 | with no join of the soft id before region i, the search finds no twin at any point of the pass |
| RenderConnect.ConnectRangeFrame | src/raycast/render_system.cpp:105-157 | regions without a join of soft id x leave joins of soft id x untouched |
| RenderConnect.SplitRegionAt | src/raycast/render_system.cpp:108-152 | the pass over a region's list splits around one position |
| RenderConnect.RegionOfFirst | src/raycast/render_system.cpp:147-150 | the first join of a soft id finds no twin: regionA is its region and regionB the root |
| RenderConnect.LoneJoin | src/raycast/render_system.cpp:105-157 | over the whole pass, a join listed once in the tree, with no other join of the same soft edge anywhere, gets regionA its region and regionB the root, and keeps everything else |
| RenderConnect.LoneListing | src/raycast/render_system.cpp:105-157 | when a join is listed once and is the only join of its soft edge, no other region and no other position of its own region holds a join of that edge |
| RenderConnect.RegionOfSecond | src/raycast/render_system.cpp:128-138 | the second join of that soft id is twinned with the first: both point at (later region, earlier region) and are merged both ways |
| RenderConnect.BeforeSecond | src/raycast/render_system.cpp:105-157 | up to the second join's region, only the first join of the soft id has been set |
| RenderConnect.AfterSecond | src/raycast/render_system.cpp:105-157 | later regions leave both joins of the soft id as they are |
| RenderConnect.TwinsAgree | src/raycast/render_system.cpp:105-157 | two joins with the same soft joinId, in regions p < q of the pre-order, end pointing at (q, p), show the earlier join's textures where set, and the later takes the earlier's joinId |
| RenderConnect.NoOtherListings | src/raycast/render_system.cpp:105-157 | two joins listed once each are the only listings of their soft id |
| RenderConnect.FindTwinIs | src/raycast/render_system.cpp:105-157 | with one earlier join of the soft id, the search finds exactly it |
| RenderConnect.FindTwinScan | src/raycast/render_system.cpp:115-145 | the counter loop over earlier regions finds the twin FindTwin names |
| RenderConnect.ConnectJoinStep | src/raycast/render_system.cpp:108-152 | one join of the loop computes ConnectJoin |
| RenderConnect.ConnectSubregionsLoop | src/raycast/render_system.cpp:105-157 | the outer counter loop computes ConnectSubregions and keeps every boundary's shape |
| RenderConnect.VisitAsWritten | src/raycast/render_system.cpp:55-145 | forEachRegion with the inner callback as written: matches only grow, and every match is a join with the soft joinId |
| RenderConnect.VisitChildrenAsWritten | src/raycast/render_system.cpp:57-61 | the sibling loop that breaks at the first child returning false: the same facts |
| RenderConnect.ApplyMatches | src/raycast/render_system.cpp:128-138 | applying every match in turn keeps the boundary list's shape |
| RenderConnect.ConnectJoinAsWritten | src/raycast/render_system.cpp:108-152 | one join as written keeps the shape |
| RenderConnect.ConnectIdsAsWritten | src/raycast/render_system.cpp:108-152 | a region's list as written keeps the shape |
| RenderConnect.ConnectRangeAsWritten | src/raycast/render_system.cpp:105-157 | a range of regions as written keeps the shape |
| RenderConnect.ConnectSubregionsAsWritten | src/raycast/render_system.cpp:55-157 | the pass exactly as written keeps the shape |
| RenderConnect.AsWrittenTwinsJoinWithItself | src/raycast/render_system.cpp:55-157 | on a four-region tree the walk as written matches a join with itself, leaving it pointing at its own region on both sides |
| RenderConnect.IntendedPassTwinsExample | src/raycast/render_system.cpp:105-157 | on the same tree the pass that stops at the first match twins the join with the earlier one: both point at the two regions |
| RenderSystem.InsertNew | src/raycast/render_system.cpp:439-487 | std::map::insert keeps an existing entry, adds the key otherwise, and touches nothing else |
| RenderSystem.RecordChild | src/raycast/render_system.cpp:473-484 | `m_entityChildren[parent].insert(child)` adds the child under the parent and touches no other record |
| RenderSystem.AppendDescent | src/raycast/render_system.cpp:506-519 | descendants found under a child extend those found so far |
| RenderSystem.KeysShrink | src/raycast/render_system.cpp:506-519 | erasing a recorded id leaves fewer child records, so the recursion ends |
| RenderSystem.ChildHandled | src/raycast/render_system.cpp:506-519 | after the recursive call for one child, everything found is closed under the child records, and the erasures add up |
| RenderSystem.ClosureStep | src/raycast/render_system.cpp:506-519 | handling one more child keeps the found set closed up to the children still to visit |
| RenderSystem.RenderSystem.constructor | src/raycast/render_system.cpp:70-74 | a new render system has no components, no child records and an empty render graph |
| RenderSystem.RenderSystem.HasComponent | src/raycast/render_system.cpp:425-427 | true iff the id is registered |
| RenderSystem.RenderSystem.IsRoot | src/raycast/render_system.cpp:492-501 | true iff the component is a region and is the root region |
| RenderSystem.RenderSystem.AddComponent | src/raycast/render_system.cpp:439-487 | a second parentless region raises "Root region already set"; the first becomes root and leaves only itself registered; a parentless overlay joins the set once; other parentless kinds raise; an unregistered parent raises; otherwise the child is recorded under its parent before attaching, and registered only if attaching succeeds; every region-listed boundary stays in rg.boundaries |
| RenderSystem.RenderSystem.RemoveEntityR | src/raycast/render_system.cpp:506-519 | the id and exactly the recorded descendants reached from it are erased from both maps; the graph is untouched |
| RenderSystem.RenderSystem.RemoveEntity | src/raycast/render_system.cpp:524-550 | an unregistered id changes nothing; otherwise detach (which may raise and change nothing), then erase the id and its recorded descendants |
| RenderSystem.RenderSystem.CrossRegions | src/raycast/render_system.cpp:375-388 | an unregistered entity changes nothing; both zones must be registered regions; the released object itself is appended to the new region only if it was found; the registry is untouched |
| RenderSystem.RenderSystem.ConnectRegions | src/raycast/render_system.cpp:164-169 | the boundaries become the (corrected) ConnectSubregions of the root; nothing else changes |
| RenderSystem.DetachFromParent | src/raycast/render_system.cpp:529-546 | detaching fails iff the registered parent cannot let go of the kind; a parentless overlay leaves the overlay set; no other detach touches it |
| EntityManager.Lookup | src/raycast/entity_manager.cpp:25-41 | a system is found iff one is registered for the kind, and it is the one registered |
| EntityManager.Put | src/raycast/entity_manager.cpp:18-20 | `m_systems[kind] = system` keeps the keys sorted and replaces or inserts that key only |
| EntityManager.LookupAfterPut | src/raycast/entity_manager.cpp:18-20 | after addSystem the kind maps to the new system and other kinds are unchanged |
| EntityManager.Insert | src/raycast/entity_manager.cpp:47 | std::set::insert keeps the ids sorted and adds exactly that id |
| EntityManager.InsertIdempotent | src/raycast/entity_manager.cpp:47 | inserting an id twice is inserting it once |
| EntityManager.Dispatch | src/raycast/entity_manager.cpp:71-96 | one call per system, in m_systems order |
| EntityManager.PurgeCallsAt | src/raycast/entity_manager.cpp:58-66 | the purge makes |ids| * |systems| calls; call k*|systems|+j asks system j to remove pending id k |
| EntityManager.EntityManager.constructor | src/raycast/entity_manager.cpp:18-20 | no systems, nothing pending, no calls |
| EntityManager.EntityManager.AddSystem | src/raycast/entity_manager.cpp:18-20 | the kind now maps to the new system, replacing any earlier one |
| EntityManager.EntityManager.HasComponent | src/raycast/entity_manager.cpp:25-33 | false with no system for the kind, otherwise that system's answer |
| EntityManager.EntityManager.AddComponent | src/raycast/entity_manager.cpp:38-41 | fails with no system for the kind; otherwise exactly one addComponent call to that system |
| EntityManager.EntityManager.SendToAll | src/raycast/entity_manager.cpp:71-96 | one call to every system, in order, nothing else changes |
| EntityManager.EntityManager.Update | src/raycast/entity_manager.cpp:71-76 | every system is updated exactly once, in m_systems order |
| EntityManager.EntityManager.BroadcastEvent | src/raycast/entity_manager.cpp:81-86 | every system handles the event once |
| EntityManager.EntityManager.FireEvent | src/raycast/entity_manager.cpp:91-96 | every system handles the event for the entities once |
| EntityManager.EntityManager.DeleteEntity | src/raycast/entity_manager.cpp:46-53 | the id is added to the pending set, the targeted event then the broadcast go out, and no system is asked to remove anything |
| EntityManager.EntityManager.PurgeEntities | src/raycast/entity_manager.cpp:58-66 | each system is asked to remove each pending id, ids in increasing order; then nothing is pending |
| EntityManager.DeleteTwicePurgesOnce | src/raycast/entity_manager.cpp:47-66 | deleting twice before a purge leaves the id pending once, so each system removes it once |
| KernelGameLogic.LastN | src/fragments/f_main/f_app_dialog/f_kernel/game_logic.hpp:55-61 | the last min(n, len) elements, in order |
| KernelGameLogic.LastNPush | src/fragments/f_main/f_app_dialog/f_kernel/game_logic.hpp:55-61 | push-then-evict on the kept suffix keeps the last SIZE pushed elements |
| KernelGameLogic.FixedSizeList.constructor | src/fragments/f_main/f_app_dialog/f_kernel/game_logic.hpp:27-28 | a new list is empty |
| KernelGameLogic.FixedSizeList.Push | src/fragments/f_main/f_app_dialog/f_kernel/game_logic.hpp:55-61 | the contents are the last SIZE pushed elements in push order; size grows by one until SIZE; the newest is the pushed element |
| KernelGameLogic.FixedSizeList.Size | src/fragments/f_main/f_app_dialog/f_kernel/game_logic.hpp:63-65 | size is the number pushed, up to SIZE |
| KernelGameLogic.FixedSizeList.Oldest | src/fragments/f_main/f_app_dialog/f_kernel/game_logic.hpp:30-32 | oldest is the element pushed size() pushes ago |
| KernelGameLogic.FixedSizeList.Newest | src/fragments/f_main/f_app_dialog/f_kernel/game_logic.hpp:34-36 | newest is the last element pushed |
| KernelGameLogic.FixedSizeList.NthNewest | src/fragments/f_main/f_app_dialog/f_kernel/game_logic.hpp:38-53 | out_of_range iff n >= size(); otherwise the element pushed n pushes before the newest; n = 0 gives newest, n = size()-1 oldest |
| Scene.WallsUpToShape | src/fragments/f_main/f_menu_bar/f_settings_dialog/f_raycast/scene.cpp:20-43 | after indices 0..i-1: the number of walls, their texture, and the segment each spans (closed: points[k-1] to points[k], wall 0 from the last point; open: points[k] to points[k+1]) |
| Scene.PathWallsCount | src/fragments/f_main/f_menu_bar/f_settings_dialog/f_raycast/scene.cpp:20-43 | n walls for a closed path, n-1 for an open one, none for an empty one; all carry the texture |
| Scene.ClosedPathWalls | src/fragments/f_main/f_menu_bar/f_settings_dialog/f_raycast/scene.cpp:21-36 | a closed path's wall k spans points[k-1] to points[k], and wall 0 spans points[n-1] to points[0] |
| Scene.OpenPathWalls | src/fragments/f_main/f_menu_bar/f_settings_dialog/f_raycast/scene.cpp:21-36 | an open path's wall k spans points[k] to points[k+1] |
| Scene.ConstructSprite | src/fragments/f_main/f_menu_bar/f_settings_dialog/f_raycast/scene.cpp:58-75 | succeeds iff the subtype is "bad_guy" or "ammo", building the matching sprite; a missing subtype and any other subtype raise |
| Scene.Scene.constructor | src/fragments/f_main/f_menu_bar/f_settings_dialog/f_raycast/scene.cpp:80-96 | no walls, no camera, no sprites |
| Scene.Scene.ConstructWalls | src/fragments/f_main/f_menu_bar/f_settings_dialog/f_raycast/scene.cpp:20-43 | the path's walls are appended in index order after the existing ones; a missing "texture" raises iff the path yields a wall, with nothing appended |
| Scene.Scene.AddObject | src/fragments/f_main/f_menu_bar/f_settings_dialog/f_raycast/scene.cpp:101-111 | a missing "type" raises; "wall" appends walls, "camera" replaces the camera, "sprite" appends one sprite or raises, other types change nothing |
| Audio.PlayerVolumeProperties | src/fragments/f_main/f_menu_bar/f_settings_dialog/f_raycast/audio_service.cpp:102-105 | the player volume is symmetric in master and music, 25 at one half each, and within 0..100 for volumes in [0, 1] |
| Audio.Attenuation | src/fragments/f_main/f_menu_bar/f_settings_dialog/f_raycast/audio_service.cpp:69-72 | the distance factor lies in [0, 1]: 1 at d <= 0, 0 at d >= 2000, linear in between |
| Audio.AttenuationMonotonic | src/fragments/f_main/f_menu_bar/f_settings_dialog/f_raycast/audio_service.cpp:69-72 | a farther sound is never louder |
| Audio.PositionedVolume | src/fragments/f_main/f_menu_bar/f_settings_dialog/f_raycast/audio_service.cpp:48-75 | at the listener a positioned sound is as loud as playSound makes it; beyond range it is silent; in between it is never louder |
| Audio.AudioService.constructor | src/fragments/f_main/f_menu_bar/f_settings_dialog/f_raycast/audio_service.cpp:16-23 | master and music volumes are one half and the player volume is 25 |
| Audio.AudioService.AddSound | src/fragments/f_main/f_menu_bar/f_settings_dialog/f_raycast/audio_service.cpp:28-35 | a new name gets a fresh sound; an existing one is kept |
| Audio.AudioService.AddMusicTrack | src/fragments/f_main/f_menu_bar/f_settings_dialog/f_raycast/audio_service.cpp:40-43 | the track of that name is set, replacing any earlier one |
| Audio.AudioService.PlaySound | src/fragments/f_main/f_menu_bar/f_settings_dialog/f_raycast/audio_service.cpp:48-56 | a known sound plays at master times its volume; an unknown name changes nothing |
| Audio.AudioService.PlaySoundAtPos | src/fragments/f_main/f_menu_bar/f_settings_dialog/f_raycast/audio_service.cpp:61-75 | a known sound plays at master times its volume times the attenuation; an unknown name changes nothing |
| Audio.AudioService.PlayMusic | src/fragments/f_main/f_menu_bar/f_settings_dialog/f_raycast/audio_service.cpp:80-90 | a known track becomes the looping, playing playlist; an unknown name changes nothing |
| Audio.AudioService.StopMusic | src/fragments/f_main/f_menu_bar/f_settings_dialog/f_raycast/audio_service.cpp:95-97 | the player stops; nothing else changes |
| Audio.AudioService.SetMusicVolume | src/fragments/f_main/f_menu_bar/f_settings_dialog/f_raycast/audio_service.cpp:102-105 | music volume set; player volume = trunc(master * music * 100) |
| Audio.AudioService.SetMasterVolume | src/fragments/f_main/f_menu_bar/f_settings_dialog/f_raycast/audio_service.cpp:110-113 | master volume set, music volume unchanged, player volume recoupled |
| Effects.Channel | src/effects.cpp:15-17 | an interpolated channel lies between the two channels and is a at 0 and b at 1 |
| Effects.ScaledBetween | src/effects.cpp:15-17 | scaling a difference by a fraction in [0, 1] keeps it between 0 and the difference |
| Effects.InterpolationBetween | src/effects.cpp:15-17 | the double a + (b - a) * i, before truncation, lies between a and b for i in [0, 1] |
| Effects.TweenColour | src/effects.cpp:10-18 | raises iff i < 0 or i > 1; otherwise each channel lies between a's and b's |
| Effects.TweenEndpoints | src/effects.cpp:10-18 | the tween is a at 0 and b at 1; tweening a colour with itself gives it back |
| Effects.ColourTransition.constructor | src/effects.cpp:23-31 | the transition starts at i = 0 with frames = trunc(fps * duration) and the widget's colour |
| Effects.ColourTransition.Step | src/effects.cpp:32-41 | one frame sets the palette to the tween at i/frames, which never raises, increments i and asks for more iff i <= frames |
| Effects.RunTransition | src/effects.cpp:23-42 | for frames > 0 the closure runs frames + 1 times and ends on the target colour; for frames < 0 once, on the original colour |
| ShuffledCalc.ButtonIds | src/fragments/f_main/f_shuffled_calc/f_shuffled_calc.cpp:105-123 | 17 ids; for well-formed operator ids, an id is a digit 0..9 exactly at the first ten positions |
| ShuffledCalc.OperatorIdsAboveDigits | src/fragments/f_main/f_shuffled_calc/f_shuffled_calc.cpp:105-123 | well-formed operator ids all lie above the digit ids |
| ShuffledCalc.IdToChar | src/fragments/f_main/f_shuffled_calc/f_shuffled_calc.cpp:28-42 | a digit id gives its digit, a negative id '-', an id >= 10 that is no button '_' |
| ShuffledCalc.IdToCharOfButtons | src/fragments/f_main/f_shuffled_calc/f_shuffled_calc.cpp:28-123 | the button ids map to "0123456789+-*/.C=" in order |
| ShuffledCalc.ButtonIdsDistinct | src/fragments/f_main/f_shuffled_calc/f_shuffled_calc.cpp:105-123 | the 17 button ids are pairwise distinct |
| ShuffledCalc.IdToCharInjective | src/fragments/f_main/f_shuffled_calc/f_shuffled_calc.cpp:28-42 | distinct button ids get distinct characters |
| ShuffledCalc.ButtonCharsDistinct | src/fragments/f_main/f_shuffled_calc/f_shuffled_calc.cpp:28-42 | the 17 button characters "0123456789+-*/.C=" are pairwise distinct |
| ShuffledCalc.SymbolTableEntries | src/fragments/f_main/f_shuffled_calc/f_shuffled_calc.cpp:129-134 | after the loop, button i's character maps to symbol i |
| ShuffledCalc.SymbolTableKeys | src/fragments/f_main/f_shuffled_calc/f_shuffled_calc.cpp:129-134 | the table's keys are the old keys plus the buttons' characters |
| ShuffledCalc.SymbolTableElsewhere | src/fragments/f_main/f_shuffled_calc/f_shuffled_calc.cpp:129-134 | a character no button carries keeps its old entry |
| ShuffledCalc.ShuffledCharsDistinct | src/fragments/f_main/f_shuffled_calc/f_shuffled_calc.cpp:104-134 | after any shuffle, two buttons never share an id character |
| ShuffledCalc.Translate | src/fragments/f_main/f_shuffled_calc/f_shuffled_calc.cpp:157-166 | same length; each character replaced by its table entry or kept |
| ShuffledCalc.TranslateEmptyTable | src/fragments/f_main/f_shuffled_calc/f_shuffled_calc.cpp:161-162 | an empty table gives the text back |
| ShuffledCalc.TranslateAppend | src/fragments/f_main/f_shuffled_calc/f_shuffled_calc.cpp:157-166 | translation of concatenated text is the concatenation of translations |
| ShuffledCalc.TranslateAfterReload | src/fragments/f_main/f_shuffled_calc/f_shuffled_calc.cpp:129-166 | after a reload a button's character is shown as that button's symbol |
| ShuffledCalc.ShuffledCalc.constructor | src/fragments/f_main/f_shuffled_calc/f_shuffled_calc.cpp:47-53 | the symbol table starts empty |
| ShuffledCalc.ShuffledCalc.Reload | src/fragments/f_main/f_shuffled_calc/f_shuffled_calc.cpp:104-134 | the table loop writes SymbolTable of the symbols and the shuffled ids over the old table |
| ShuffledCalc.ShuffledCalc.TranslateToSymbols | src/fragments/f_main/f_shuffled_calc/f_shuffled_calc.cpp:157-166 | the loop computes Translate of the text |
| EventSystem.EventSystem.constructor | src/event_system.hpp:48-54 | a live event system that has forgotten nothing |
| EventSystem.EventSystem.Forget | src/event_system.hpp:48-54 | the id is recorded as forgotten |
| EventSystem.EventSystem.Expire | src/event_system.hpp:48-54 | the weak pointer no longer locks |
| EventSystem.Handle.Empty | src/event_system.hpp:20-21 | a default handle has id -1 and no event system |
| EventSystem.Handle.constructor | src/event_system.hpp:23-25 | the handle holds the listener id and the event system |
| EventSystem.Handle.Move | src/event_system.hpp:30-35 | move construction takes the id and the event system, and the source holds -1 |
| EventSystem.Handle.MoveAssign | src/event_system.hpp:37-44 | move assignment takes the id and leaves the source with -1; the previous id is dropped unforgotten; a self-move leaves -1 |
| EventSystem.Handle.Destroy | src/event_system.hpp:48-54 | forget is called iff the id is not -1 and the event system is alive |
| EventSystem.MoveConstructIds | src/event_system.hpp:30-35 | a move construction keeps every live id in at most one handle |
| EventSystem.MoveAssignIds | src/event_system.hpp:37-44 | a move assignment keeps every live id in at most one handle |
| EventSystem.ApplyMove | src/event_system.hpp:27-44 | any single move keeps live ids unique |
| EventSystem.MovesKeepIdsUnique | src/event_system.hpp:27-44 | with copying deleted, any sequence of moves keeps each live id in at most one handle |

## Left out

- Event-system dispatch (listen, fire, processEvent, the pending additions
  and forgets): their bodies are not in the source, so only `Handle` is
  modelled. The time service is left out for the same reason.
- Floating-point and trigonometric geometry (distance, angles, line
  segments, intersections, matrix inverse) is left out. All arithmetic is on
  exact reals, so floating-point rounding is not modelled.
- The older duplicate `geometry.hpp` under the f_raycast fragment is not part
  of this model.
- Rendering is left out: text overlay sizing (font metrics), the rasterizer
  and the spatial-system lookup behind `getSoftEdge`. The soft edge's joinId
  is a field of each join.
- `CJoin::mergeIn` is not in the source. Joins merge by the
  `CJoiningEdge::mergeIn` rule: take the other texture unless it is
  "default".
  - `connectSubregions` calls `je->mergeIn(*other)` and then
    `other->mergeIn(*je)`, so the earlier join's textures win where they are
    set.
- `getNextId` (a global counter whose definition is not shown) is left out.
  Entity ids are inputs.
- The systems behind the entity manager are code it only calls into. They
  are modelled as ids, and the calls made into them as a log.
- Qt media playback, file paths and the camera-to-sound distance are left
  out. The distance is an input to `PlaySoundAtPos`.
- `SoundEffect`'s initial volume is declared in a header that is not part of
  this model, so it is a constructor parameter.
- `constructCamera` and `transformFromTriangle` compose transforms with
  trigonometry. A placement keeps the object's transform and its triangle
  path instead.
- The transform `constructWalls` computes for each segment is discarded by
  the source, and so by the model.
- The `Scene` constructor's map-file parsing, viewport and texture loading
  (file and image I/O) are left out. So are `setBackgroundImage` (pixmap I/O)
  and `persist` on close (file I/O).
- The `UpdateLoop` that calls the transition closure is left out.
  `RunTransition` plays its part, calling the closure until it returns false.
- QColor's clamping of channels to 0..255 is left out.
- The shuffle (`std::shuffle` with mt19937) is an arbitrary permutation.
- The operator button ids are declared in a header that is not part of this
  model. They are parameters, required to be distinct and at least 10, as
  `onButtonClick` relies on.
- Widget animation, layout and signal wiring, and the other UI fragments, are
  left out.
- RenderSystem.RenderSystem.RemoveEntityR erases the id's child record
  before visiting its children; the source erases it after.
  - The two agree unless an entity is recorded as its own descendant, in
    which case the source recurses without end.
- RenderGraph.RemoveFromRegion treats an object missing from the region's
  list as a no-op. The source then erases at `end()`, which is undefined
  behaviour.
- KernelGameLogic.FixedSizeList.Oldest and
  KernelGameLogic.FixedSizeList.Newest require a non-empty list. On an empty
  `std::list`, `front()` and `back()` are undefined behaviour.
- Effects.ColourTransition.constructor requires a non-zero frame count.
  With zero frames the first fraction is 0/0, a NaN, which reals cannot
  represent.
- RenderSystem.RenderSystem.ConnectRegions applies the corrected twinning
  pass (see Findings), ConnectSubregions, rather than the pass as written at
  src/raycast/render_system.cpp:105-157, which is ConnectSubregionsAsWritten.
  The two differ on a region whose joins share a soft edge.
- RenderSystem.RenderSystem.AddComponent takes a `CRender` directly, so the
  "Component is not of kind C_RENDER" exception for a component of another
  kind (src/raycast/render_system.cpp:440-442) is not modelled.
- MainWindow.AppState.constructor: AppState's own definition is not part of
  this model. The class holds only the count that `closeEvent` and
  `showAbout` read and decrement.
- Objects are identified by entity id. Two distinct objects with the same id
  in one list are not told apart.

## Findings

| source | as written | input that shows it | evidently intended | confidence | as-written member | corrected member |
|---|---|---|---|---|---|---|
| src/raycast/render_system.cpp:55-67,105-157 | in the twin search, `return false` after a match only stops the matched region's later siblings (forEachRegion breaks its own child loop). The walk goes on at an ancestor's later siblings, so it can reach the current region and match the join with itself | root 0 with children 1 and 3, region 1 with child 2; region 2 lists join 10 and region 3 lists join 11, both with soft joinId 7: join 11 ends with regionB = 3, its own region | the search stops at the first earlier join with the same soft joinId, so join 11 is twinned with join 10 and both get regionB = 2 | not executed | RenderConnect.ConnectSubregionsAsWritten, RenderConnect.AsWrittenTwinsJoinWithItself | RenderConnect.ConnectSubregions, RenderConnect.TwinsAgree, RenderConnect.IntendedPassTwinsExample |
