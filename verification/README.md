# go-go-wm, verified

A Dafny model of the parts of the go-go-wm window manager that carry its promises, with proofs of
those promises for every input, every run and every reachable state. `dafny verify dfyconfig.toml`
checks all of it.

| Component | Modules |
|---|---|
| The layout engine: split trees, desktops, the twelve ops | `Ids`, `Tree`, `TreeLaws`, `Desktop`, `DesktopLaws`, `OpLaws`, `Conservation`, `Rejection`, `Persistence`, `Engine` |
| Pixels: layout, where tiles land, directional focus, divider drags | `Geometry`, `Placement`, `Neighbor`, `Drag` |
| Layout recipes and their compiler | `Recipe`, `RecipeCompiler` |
| The presentation broker, its clients, and the two together | `Wire`, `Broker`, `AcceptView`, `Replies`, `BrokerRuns`, `Registry`, `Delivery`, `Sessions`, `Transcript`, `Provenance`, `LiveBroker`, `Client`, `LiveClient`, `EndToEnd`, `LateBanner` |
| The bounded event queue and its drainer | `EventQueue` |
| Three algorithms: the Bresenham line, the scrape annotator, the fuzzy matcher | `Plot`, `Scrape`, `Match` |

What the source updates in place is a class or a method with loops (`Engine.LiveDesktop`,
`LiveBroker.Broker`, `LiveClient.Client`, `EventQueue.BoundedQueue`, and the methods of `Geometry`,
`Neighbor`, `Drag`, `RecipeCompiler`, `Plot`, `Scrape`, `Match`). Each is proved equal to a function
on values, or to satisfy its property outright; the laws are proved of those functions over all steps
and runs.

Of a desktop, ids are in order when all node ids are distinct and were minted by its counter, workspace
ids likewise, and the current id names a workspace; it is good when, besides, every tree is well formed.

## What the proofs found

- **Unchecked directions.** `split-leaf` and `move-leaf` accept any string as `Dir`
  (pkg/wmcore/ops.go:81, pkg/wmcore/ops.go:153-156). From a good desktop an accepted op leads to one
  that validates if and only if its direction is legal (`DesktopLaws.IllegalDirInvalidates`), and every
  split of an existing leaf is accepted, even as the first op on a new desktop
  (`DesktopLaws.AnyDirIsAccepted`, `DesktopLaws.FirstOpInvalidates`).
- **A rejected move can lose a tile.** The comment at pkg/wmcore/ops.go:157 says a failing `move-leaf`
  leaves the desktop unchanged. Over all desktops a rejected op changes the desktop if and only if
  its graft collides with a node id of the destination (`Rejection.RejectedChangesIffCollision`).
  `Validate` compares leaf ids only, so it accepts a desktop on which that happens
  (`Rejection.ValidateIsNotEnough`); none on which no id occurs twice is one (`Rejection.NoCollision`),
  so none reachable from a new desktop by any ops (`Rejection.RunsRejectCleanly`).
- **Saying hello twice orphans verbs.** A client that says hello under a second name leaves the verbs
  of the first without a connected owner. Exactly that breaks ownership, and nothing else
  (`Registry.NextOwned`, with the run `Registry.RenameOrphansVerb`).
- **A leaving client takes its namesake's verbs.** A disconnect drops verbs by name
  (pkg/pbui/broker/broker.go:222-229). A registered verb stays through a step if and only if no client
  bearing its owner's name leaves (`Registry.NextKeepsVerb`, with the run `Registry.TwinTakesVerb`).
- **A late handler can leave the banner wrong.** The window manager registers its two accept handlers
  one after the other, after connecting (pkg/wmx11/pbui.go:22-48), while the read loop already runs. Once
  both are registered, the banner of a caught-up client is right if and only if what it showed then was
  what the messages read by then announce, or both of these have been replaced or cleared since
  (`EndToEnd.BannerShowsSession`). It goes wrong in two ways: the replay of a pending session is read
  before anyone listens (`LateBanner.LateListenerMissesSession`), or a clear is read when only the handler
  for modes is there, and a session that is over stays shown (`LateBanner.LateClearKeepsBanner`).
- **A call made after the connection died waits for its context.** The read loop closes the channels
  pending when it ends and no later ones (pkg/pbui/client/client.go:126-136). After a break a waiting
  call can return if and only if it was made before (`EndToEnd.OnlyEarlierCallsReturn`).
- **Directional focus can depend on the map's order.** The comment at pkg/wmcore/neighbor.go:59-61
  calls the answer deterministic. Two scan orders give different answers if and only if two candidates
  tie on distance, centre delta and corner with none nearer (`Neighbor.OrderDecidesIffTied`). That
  cannot happen while no split overflows (`Neighbor.UncrowdedHasOneAnswer`); it does for three
  leaves in a row ten pixels wide with the program's gap of eight (`Neighbor.OverflowTies`).
- **An empty match hangs the annotator.** The ordering loop of `Line` (pkg/pbui/scrape/scrape.go:91-104)
  ends if and only if no accepted match is empty, first at its place before the end of the line and
  inside no other (`Scrape.EndsUnlessStuck`, `Scrape.EmptyMatchNeverEnds`).
- **A leaf thinner than the gap can be stranded.** Directional focus finds a leaf one divider away from
  any leaf thicker than the gap that is not at the edge. A thinner one may lie wholly beside another
  column's divider, and then the answer is empty in the middle of the screen
  (`Neighbor.FocusIsCompleteAndAdjacent`, `Neighbor.ThinLeafIsStranded`).
- **Ids are safe to reload.** Both id counters are recomputed from the loaded document. For a saved desktop
  they may be lower than before, but never below a number in use (`Persistence.ReloadRestores`); and whatever
  the document and whatever ops follow, no minted id is in use (`Persistence.FreshIdsNeverCollide`).

## Model

| member | source | states |
|---|---|---|
| `Ids.ReadDecimal` | pkg/wmcore/desktop.go:170-188 | reading the digits of a printed number, on top of anything that follows, gives the number back |
| `Ids.ScanPrinted` | pkg/wmcore/desktop.go:170-188 | scanning a printed node, workspace or session id yields exactly the counter it was printed from |
| `Ids.ScanSigned` | pkg/wmcore/desktop.go:170-188 | a sign before the digits is read and anything but a digit after them ignored; without digits nothing is read |
| `Ids.PrintedIdsDiffer` | pkg/wmcore/tree.go:62-65 | ids printed from different counters are different strings |
| `Tree.UpdateIds` | pkg/wmcore/tree.go:228-244 | replacing a node exchanges exactly that node's ids for its replacement's, and the tree stays well formed exactly if the replacement is |
| `Tree.UpdateLeaves` | pkg/wmcore/tree.go:228-244 | replacing a node exchanges exactly its leaves, where they stood |
| `Tree.RemoveIds` | pkg/wmcore/tree.go:249-266 | removing a leaf takes out that leaf's id and one split's, and nothing else |
| `Tree.RemoveLeaves` | pkg/wmcore/tree.go:249-266 | removing a leaf keeps every other leaf in order |
| `Tree.DockMintsOnce` | pkg/wmcore/tree.go:342-372 | with distinct ids the docking callback runs once, so exactly one id is minted |
| `Tree.FindIffPresent` | pkg/wmcore/tree.go:120-134 | a node is found exactly if its id occurs in the tree |
| `Tree.HasLeafIffListed` | pkg/wmcore/tree.go:137-154 | the leaves found by id are exactly the leaves listed |
| `TreeLaws.SplitLeafIds` | pkg/wmcore/tree.go:270-279 | a split adds two fresh ids, leaf before parent, and keeps the tree well formed exactly if the direction is legal |
| `TreeLaws.SplitLeafOrder` | pkg/wmcore/tree.go:270-279 | the new leaf stands directly after the one that was split; no other leaf moves |
| `TreeLaws.CloseUndoesSplit` | pkg/wmcore/tree.go:270-295 | closing the leaf a split minted restores the original tree exactly |
| `TreeLaws.ClosedIsGone` | pkg/wmcore/tree.go:283-295 | on any tree, doubled ids or not, a leaf that was closed is gone |
| `TreeLaws.MoveSplitRelocates` | pkg/wmcore/tree.go:342-372 | a move keeps the multiset of (id, app) and the order of all other leaves, and puts the moved leaf directly before the target for left and top, directly after it otherwise |
| `TreeLaws.MoveSplitIds` | pkg/wmcore/tree.go:342-372 | a move trades exactly one split's id for a fresh one and keeps the tree well formed |
| `TreeLaws.ClampIsNearest` | pkg/wmcore/tree.go:85-93 | a ratio outside the bounds 0.1 and 0.9 becomes the bound it is beyond, any other stays |
| `TreeLaws.RatioOnly` | pkg/wmcore/tree.go:298-310 | setting a ratio changes that split's ratio to the nearest legal one and nothing else, so that setting the old one back restores the tree |
| `TreeLaws.PutAppLeaves` | pkg/wmcore/tree.go:313-323 | setting an app changes no id, no place and no other leaf's app |
| `TreeLaws.SwapExchangesApps` | pkg/wmcore/tree.go:328-337 | a swap exchanges the two apps and leaves all ids, places and other apps alone |
| `TreeLaws.SwapTwiceIsIdentity` | pkg/wmcore/tree.go:328-337 | swapping the same two leaves twice is the identity |
| `TreeLaws.CloneIsFreshCopy` | pkg/wmcore/tree.go:108-117 | a clone has the same shape, ratios and apps, and as many distinct fresh ids as there are nodes |
| `DesktopLaws.TreeOk` | pkg/wmcore/desktop.go:144-165 | while ids are in order each tree has distinct minted ids and two trees share none |
| `DesktopLaws.OnTreeInv` | pkg/wmcore/ops.go:76-135 | each op on one tree keeps ids in order whatever its direction, and trees well formed exactly if it is rejected or its direction is legal; a rejected one changes nothing |
| `DesktopLaws.MoveLeafInv` | pkg/wmcore/ops.go:136-179 | a move to another workspace is accepted exactly if its checks hold; it then keeps ids in order, carries (id, app) over, keeps the order of all other leaves, fills an emptied workspace with a fresh tile, and touches no third workspace; otherwise nothing changes |
| `DesktopLaws.CloneWorkspaceInv` | pkg/wmcore/desktop.go:118-131 | cloning a workspace keeps all ids distinct and minted, and trees well formed |
| `DesktopLaws.RemoveWorkspaceInv` | pkg/wmcore/desktop.go:85-104 | removing a workspace keeps ids in order, so the current id still names a workspace |
| `DesktopLaws.StepIds` | pkg/wmcore/ops.go:51-200 | for all twelve ops with any direction: while ids are in order a rejected op changes nothing, counters included, and ids stay in order |
| `DesktopLaws.StepInv` | pkg/wmcore/ops.go:51-200 | from a good desktop each of the twelve ops leads to a good one exactly if it was rejected or its direction is legal |
| `DesktopLaws.RunGoesOn` | pkg/wmcore/ops.go:51-200 | a run is its ops applied one after another, and its accepted ops are those whose step succeeded |
| `DesktopLaws.RunIds` | pkg/wmcore/ops.go:51-200 | every run, with any directions, keeps node and workspace ids distinct and minted and the current id naming a workspace |
| `DesktopLaws.RunInv` | pkg/wmcore/ops.go:51-200 | every run of ops with legal directions keeps the invariant |
| `DesktopLaws.InvImpliesValid` | pkg/wmcore/desktop.go:144-165 | the strengthened invariant implies everything Validate checks |
| `DesktopLaws.ReachableIsValid` | pkg/wmcore/desktop.go:24-30 | every desktop reachable from a new one by ops with legal directions validates |
| `DesktopLaws.IllegalDirInvalidates` | pkg/wmcore/ops.go:76-84 | after an accepted op the desktop validates if and only if the op's direction was legal |
| `DesktopLaws.AnyDirIsAccepted` | pkg/wmcore/ops.go:76-84 | splitting any leaf of a good desktop is accepted whatever the direction, and leaves a valid desktop exactly if it is legal |
| `DesktopLaws.FirstOpInvalidates` | pkg/wmcore/ops.go:76-84 | the first op on a new desktop can be accepted and invalidate it |
| `DesktopLaws.ReplayAccepted` | pkg/wmx11/wm.go:342-353 | in every run, replaying only the accepted ops gives the identical desktop with identical ids, and all of them are accepted again |
| `OpLaws.AcceptedWhereReached` | pkg/wmcore/ops.go:55-135 | an op on one tree is accepted exactly if a workspace it may work in, the one it names or else any, has its node and lets it be done; it then changes that tree and the counter and nothing else |
| `OpLaws.SplitLeafEffect` | pkg/wmcore/ops.go:76-84 | after an accepted split-leaf the new tile stands directly after the old and lands right of it for a row, below it otherwise, in its place; it is the leaf reported |
| `OpLaws.CloseLeafEffect` | pkg/wmcore/ops.go:86-94 | after an accepted close-leaf that tile is gone and the others stand in order |
| `OpLaws.SetRatioEffect` | pkg/wmcore/ops.go:96-104 | after an accepted set-ratio that split has the nearest legal ratio; set-ratio back undoes it |
| `OpLaws.SetLeafAppEffect` | pkg/wmcore/ops.go:106-114 | after an accepted set-leaf-app that tile shows the app and every other stays |
| `OpLaws.SwapLeavesEffect` | pkg/wmcore/ops.go:116-124 | after an accepted swap-leaves the two tiles show each other's app and every other stays |
| `OpLaws.MoveSplitEffect` | pkg/wmcore/ops.go:126-135 | after an accepted move-split the node stands directly before its target for the left and top zones, after it otherwise, on the side the zone names, the other tiles in order |
| `OpLaws.MoveLeafEffect` | pkg/wmcore/ops.go:136-179 | an allowed move-leaf lands the tile right of its target for row or no direction, below it for col, in the target's place, or so beside the whole tree when it names none |
| `Conservation.TilesAreTraded` | pkg/wmcore/ops.go:51-200 | for all twelve ops, exactly which (id, app) tiles of the whole desktop go and which come |
| `Conservation.NoTileIsLost` | pkg/wmcore/ops.go:51-200 | in any run without close-leaf and remove-workspace every tile stays somewhere on the desktop |
| `Conservation.ReportedLeafCame` | pkg/wmcore/ops.go:76-179 | an op reports a new leaf exactly if it split one or emptied a workspace, and that leaf is the tile that came |
| `Conservation.NewDesktop` | pkg/wmcore/desktop.go:24-38 | a new desktop has the one workspace ws-1 with one tile, and the next ids are the second of their kinds |
| `Conservation.BarOpAccepted` | pkg/wmcore/ops.go:180-198 | on any desktop an op on workspaces is accepted exactly if the one it names exists, and for a removal is not the last; adding always is, an unknown op never |
| `Conservation.AddedIsCurrent` | pkg/wmcore/desktop.go:73-82 | a new workspace is last, under an id nobody has, and is current and reported |
| `Conservation.CloneIsCurrent` | pkg/wmcore/desktop.go:118-131 | a clone is last and current under a new id and the primed name, with the original's shape and apps, and all others are untouched |
| `Conservation.RemovedIsGone` | pkg/wmcore/desktop.go:85-104 | removal succeeds exactly if the workspace exists and is not the last; the others stay as they were, in order, and if it was current the first of them becomes current |
| `Conservation.BarStays` | pkg/wmcore/desktop.go:107-140 | every other op keeps ids, names, order and the current workspace, except the one name it renames or the workspace it switches to |
| `Rejection.RejectedChangesIffCollision` | pkg/wmcore/ops.go:157-179 | over all desktops, good or not, a rejected op changes the desktop if and only if it is a move whose graft collides with an id of the destination |
| `Rejection.NoCollision` | pkg/wmcore/tree.go:396-412 | where no id occurs twice no move collides, and a rejected op changes nothing |
| `Rejection.RunsRejectCleanly` | pkg/wmcore/ops.go:157-179 | so in every run from a new desktop, whatever the directions |
| `Rejection.ValidateIsNotEnough` | pkg/wmcore/desktop.go:151-162 | a concrete desktop that Validate accepts and on which a rejected move loses a tile |
| `Persistence.SeedTreeCovers` | pkg/wmcore/tree.go:69-73 | seeding from a tree gives a counter at or above every number in it, and no higher than needed |
| `Persistence.SeedAllCovers` | pkg/wmcore/desktop.go:170-188 | the same for both counters over a whole document |
| `Persistence.ReloadRestores` | pkg/wmcore/desktop.go:170-188 | serialize then deserialize gives the same workspaces and current id, counters no higher than before, and ids in order under them |
| `Persistence.ReloadedRunsStayGood` | pkg/wmcore/ops.go:204-209 | every run on a reloaded desktop keeps ids in order, and a run with legal directions keeps a good one good |
| `Persistence.LoadedIsCovered` | pkg/wmcore/desktop.go:170-188 | whatever document is loaded, the desktop is what the document says and neither counter is below the number of an id in it |
| `Persistence.StepMints` | pkg/wmcore/ops.go:51-200 | on any desktop at all, every id in use after an op was in use before or comes off the counters |
| `Persistence.FreshIdsNeverCollide` | pkg/wmcore/desktop.go:167-188 | whatever document is loaded and whatever ops follow, the next op mints only ids numbered above the counters, and no such id is in use |
| `Engine.IDGen.Next` | pkg/wmcore/tree.go:62-65 | counts up and prints the new count |
| `Engine.IDGen.Seed` | pkg/wmcore/tree.go:69-73 | raises the counter to a larger number and never lowers it |
| `Engine.CheckNode` | pkg/wmcore/tree.go:181-220 | the recursive check with a set of ids seen accepts exactly the well-formed trees whose ids are distinct and unseen |
| `Engine.ValidateTree` | pkg/wmcore/tree.go:181-220 | accepts exactly the valid trees |
| `Engine.LiveDesktop.Apply` | pkg/wmcore/ops.go:51-200 | the in-place op leaves the state and gives the answer of Step |
| `Engine.LiveDesktop.MoveLeaf` | pkg/wmcore/ops.go:136-179 | the in-place move, source rewritten before the graft, is the move on values |
| `Engine.LiveDesktop.Validate` | pkg/wmcore/desktop.go:144-165 | the scan with a set of leaf ids seen accepts exactly the valid desktops |
| `Engine.LiveDesktop.Deserialize` | pkg/wmcore/desktop.go:170-188 | the constructor that seeds in place gives the deserialized desktop |
| `Engine.LiveDesktop.RemoveWorkspace` | pkg/wmcore/desktop.go:85-104 | the in-place removal is the removal on values |
| `Geometry.LayoutInto` | pkg/wmcore/layout.go:110-152 | the recursive fill of the output map computes the layout |
| `Geometry.ShareIsFair` | pkg/wmcore/layout.go:120-131 | a ratio in bounds gives either child at least a tenth of the pixels, rounded down |
| `Geometry.EnoughIsRoomy` | pkg/wmcore/layout.go:121-123 | the pixels computed from the tree alone are enough for no split to overflow |
| `Geometry.HalvesFit` | pkg/wmcore/layout.go:110-152 | the halves of a roomy split are non-empty, inside it, and exactly one divider apart |
| `Geometry.NodesInside` | pkg/wmcore/layout.go:104-152 | every node of a roomy tree is laid out as a non-empty rectangle inside the area |
| `Geometry.PaintsIffOwner` | pkg/wmcore/layout.go:104-152 | a leaf rectangle or divider contains a pixel exactly if the pixel is in the area and belongs to that node |
| `Geometry.TilesExactly` | pkg/wmcore/layout.go:104-152 | in an area large enough by the tree's own measure every pixel lies in exactly one leaf or divider rectangle, and no pixel outside lies in any |
| `Geometry.RoomyTilesExactly` | pkg/wmcore/layout.go:104-152 | the same whenever no split is shorter than gap + 2 along its direction |
| `Placement.ChildRects` | pkg/wmcore/layout.go:110-152 | anywhere in a tree, a split's children are laid out as its two halves |
| `Placement.SplitLandsAfter` | pkg/wmcore/tree.go:270-279 | after split-leaf the old and the new leaf stand side by side along the direction asked for, one gap apart, each with half of exactly the old leaf's place |
| `Placement.MoveLandsOnSide` | pkg/wmcore/tree.go:342-372 | after move-split the moved leaf is on the side of the target that the zone names, each with half of the target's place |
| `Placement.GraftLandsAfter` | pkg/wmcore/tree.go:396-412 | a grafted leaf lands right of its target for a row, below it otherwise, each with half of the target's place; with no target so beside the whole tree, in the whole area |
| `Neighbor.NeighborLeaf` | pkg/wmcore/neighbor.go:15-70 | for every tree and area the result is what the scan gives in the order the map yields, and a nearest candidate, or empty exactly when none is in reach |
| `Neighbor.ScanFindsNearest` | pkg/wmcore/neighbor.go:24-69 | scanning the items in any order ends with a nearest candidate |
| `Neighbor.OrderDecidesIffTied` | pkg/wmcore/neighbor.go:59-67 | two orders give different answers if and only if two candidates tie on distance, centre delta and corner with none nearer |
| `Neighbor.UncrowdedHasOneAnswer` | pkg/wmcore/neighbor.go:59-67 | where no split overflows no candidates tie, and the order does not matter |
| `Neighbor.OverflowTies` | pkg/wmcore/neighbor.go:59-67 | a valid tree, for any ids, with two valid answers that the order decides between |
| `Neighbor.CornerIdentifiesLeaf` | pkg/wmcore/neighbor.go:59-67 | two leaves whose rectangles start at the same point are the same leaf |
| `Neighbor.EdgeLeaf` | pkg/wmcore/layout.go:104-152 | any stretch longer than the gap along an edge of a tree meets a leaf lying on that edge |
| `Neighbor.LeavesApart` | pkg/wmcore/layout.go:104-152 | two leaves side by side across an axis are at least the gap apart along it |
| `Neighbor.AdjacentLeaf` | pkg/wmcore/neighbor.go:15-70 | a leaf thicker than the gap and off the area's edge has a cross-overlapping leaf exactly one gap away |
| `Neighbor.FocusIsCompleteAndAdjacent` | pkg/wmcore/neighbor.go:15-70 | from a leaf thicker than the gap the result is empty exactly if the leaf touches that edge of the area, and otherwise lies exactly the gap away that way across a shared line |
| `Neighbor.NearestOnScreen` | pkg/wmcore/neighbor.go:24-81 | from any leaf, by rectangles alone: the answer is empty exactly if no leaf lies that way across a shared line; otherwise none is nearer, and of those as near its middle is nearest to the source's, then topmost, then leftmost |
| `Neighbor.ThinLeafIsStranded` | pkg/wmcore/neighbor.go:15-70 | a valid tree, for any ids, laid out without overflow, in which a leaf three pixels high and away from the edge has no answer to its right |
| `Drag.Snap` | pkg/wmcore/layout.go:24-35 | snaps exactly if the fraction is less than 0.022 off one of 1/4, 1/3, 1/2, 2/3 and 3/4, and to that one; otherwise returns it |
| `Drag.SnapsWithinBand` | pkg/wmcore/layout.go:24-35 | every such fraction within the band is the one snapped to |
| `Drag.SnapSettles` | pkg/wmcore/layout.go:24-35 | snapping is idempotent, moves less than the band and stays in the ratio bounds |
| `Drag.OutsideStays` | pkg/wmcore/layout.go:110-152 | a new ratio leaves every node outside the split's subtree where it was |
| `Drag.DragIsLocal` | pkg/wmx11/input.go:347-351 | a drag moves nothing outside the dragged split, nor the split's own rectangle |
| `Drag.DragSetsRatio` | pkg/wmx11/input.go:347-351 | a motion leaves the split at the ratio for where the mouse is, held between 0.1 and 0.9, or at the fraction that sticks to |
| `Drag.DragTracksPointer` | pkg/wmx11/input.go:347-351 | after the drag an unsnapped pointer lies on the divider, a snapped one within the band, the gap and one pixel of it |
| `Recipe.NormalizedPlanIsOk` | pkg/jsmod/wmmod/rules.go:66-119 | an accepted spec is a plan with legal directions and ratios in bounds |
| `Recipe.WrittenPlanIsRead` | pkg/jsmod/wmmod/rules.go:66-119 | every such plan can be written as a spec and is read back unchanged |
| `Recipe.ReadAsSaid` | pkg/jsmod/wmmod/rules.go:66-119 | a spec is accepted exactly if it says a plan, key by key, an absent ratio saying one half, and is read as that plan |
| `RecipeCompiler.FindParent` | pkg/jsmod/wmmod/sugar.go:59-80 | the walk over all workspaces finds the parent the function defines |
| `RecipeCompiler.CompileLayout` | pkg/jsmod/wmmod/rules.go:238-265 | the recursive method issuing ops in place is the compiler on values |
| `RecipeCompiler.ApplyLayoutTo` | pkg/jsmod/wmmod/rules.go:220-233 | the method that compiles onto an empty workspace is the function on values |
| `RecipeCompiler.SearchFindsNewSplit` | pkg/jsmod/wmmod/sugar.go:59-80 | searching the whole desktop for the new leaf's parent finds the split just minted |
| `RecipeCompiler.RatioStep` | pkg/jsmod/wmmod/rules.go:250-260 | the ratio is set on that split |
| `RecipeCompiler.BuildIsPlan` | pkg/jsmod/wmmod/rules.go:238-265 | the tree a plan stands for, ids erased, is the plan |
| `RecipeCompiler.CompileBuilds` | pkg/jsmod/wmmod/rules.go:238-265 | compiling a legal plan at an empty leaf never fails and replaces that leaf by the plan's tree, minting exactly its ids |
| `RecipeCompiler.ApplyLayoutBuildsPlan` | pkg/jsmod/wmmod/rules.go:220-265 | on a workspace of one empty leaf the result, ids erased, is the plan, and no other workspace changes |
| `RecipeCompiler.ApplyLayoutTwice` | pkg/jsmod/wmmod/rules.go:229-231 | a second application changes nothing, and reports so unless the plan is a lone empty leaf |
| `RecipeCompiler.AllOrNothing` | pkg/jsmod/wmmod/rules.go:220-265 | a legal plan is built exactly as planned if and only if the workspace exists and is one empty leaf; otherwise the desktop is unchanged, and no other workspace ever changes |
| `RecipeCompiler.FirstPlanWins` | pkg/jsmod/wmmod/rules.go:220-233 | of any sequence of plans applied to a workspace the first real one is built on an empty one and all others do nothing; no other workspace changes |
| `RecipeCompiler.AcceptedSpecBuilds` | pkg/jsmod/wmmod/rules.go:66-119 | any spec accepted at definition time is built exactly as normalized |
| `Broker.WithinKeeps` | pkg/pbui/broker/broker.go:45-53 | what is left on a channel that drops on overflow is what was sent, in order, and all of it if nothing is missing |
| `Delivery.StepDelivers` | pkg/pbui/broker/broker.go:45-53 | all that a step sends a client is put on its channel if and only if it fits into the 128 slots with what waits there |
| `Delivery.LosslessIffRoom` | pkg/pbui/broker/broker.go:45-53 | in every run a client has lost nothing if and only if at each step since it connected the messages waiting and those sent came to at most 128 |
| `Delivery.KeepingUpIsLossless` | pkg/pbui/broker/broker.go:45-53 | a client whose channel is never full has everything sent to it on its channel, in order |
| `AcceptView.HandleAgrees` | pkg/pbui/broker/broker.go:237-408 | handling any message keeps every greeted client's folded view equal to the pending session |
| `AcceptView.RemoveAgrees` | pkg/pbui/broker/broker.go:214-235 | so does a disconnect, the requester's included |
| `AcceptView.RunAgrees` | pkg/pbui/broker/broker.go:244-322 | so does every run |
| `Replies.HandleAccounts` | pkg/pbui/broker/broker.go:237-408 | handling any message keeps replies sent plus the one due from the pending session equal to replies asked for, client by client and number by number, each of a kind that answers its request |
| `Replies.RemoveAccounts` | pkg/pbui/broker/broker.go:214-235 | a disconnect keeps the account |
| `BrokerRuns.ViewsAgree` | pkg/wmx11/pbui.go:33-48 | in every run a client that said hello and lost no message sees, by folding its channel, exactly the broker's pending session |
| `BrokerRuns.RepliesExactlyOnce` | pkg/pbui/broker/broker.go:237-408 | in every run each sequenced message other than doc.hover gets exactly one reply of its number, the only one outstanding being the accept.start of the pending session |
| `BrokerRuns.DeliveredRepliesAnswer` | pkg/pbui/broker/broker.go:45-53 | even when messages are dropped every reply answers a request of that client and none comes more often than asked |
| `BrokerRuns.PendingRequesterIsConnected` | pkg/pbui/broker/broker.go:230-233 | the pending session's requester is connected and asked for exactly the session's types |
| `Registry.HandleTalks` | pkg/pbui/broker/broker.go:237-408 | besides its one edit of a name, the verbs or the subscriptions, handling a message only sends, and exactly the subscribers hear exactly the events numbered in between |
| `Registry.SubscriberHearsAll` | pkg/pbui/broker/broker.go:441-453 | in every run, from the step by which a client subscribes and as long as it is connected, it is sent exactly the events numbered since, each once and in order |
| `Registry.ChannelHearsAll` | pkg/pbui/broker/broker.go:441-453 | the channel of a loss-free subscriber holds exactly the events since the step by which it subscribed; that of any other client holds none |
| `Registry.EventsAreConsecutive` | pkg/pbui/broker/broker.go:441-453 | hence a loss-free subscriber's event numbers are consecutive up to the latest, and who is not subscribed has none |
| `Registry.UpsertPlaces` | pkg/pbui/broker/broker.go:257-270 | registering replaces the first verb of that owner and id where it stands, or appends when there is none, and changes nothing else |
| `Registry.WithoutKeeps` | pkg/pbui/broker/broker.go:222-229 | a departure drops exactly the verbs of a non-empty owner |
| `Registry.NextOwned` | pkg/pbui/broker/broker.go:237-241 | a step keeps every named verb's owner connected if and only if it is not a hello by which the last bearer of a name abandons its verbs |
| `Registry.RegistryHolds` | pkg/pbui/broker/broker.go:222-275 | in every run no two verbs share owner and id, and if no client says hello twice every named verb has a connected client of that name |
| `Registry.RenameOrphansVerb` | pkg/pbui/broker/broker.go:239-241 | a concrete run in which a second hello leaves a verb without an owner |
| `Registry.NextKeepsVerb` | pkg/pbui/broker/broker.go:222-229 | a registered verb stays through a step if and only if no client bearing its owner's name leaves |
| `Registry.RegisteredVerbStays` | pkg/pbui/broker/broker.go:253-272 | in every run a verb a client registers is there for as long as no bearer of the name leaves |
| `Registry.RegisterSets` | pkg/pbui/broker/broker.go:253-272 | after a register, of the sender's verbs of each id listed exactly the last listed is on record, as given, and every other verb is as it was |
| `Registry.TwinTakesVerb` | pkg/pbui/broker/broker.go:222-229 | a concrete run in which a leaving namesake takes a connected client's verb |
| `Registry.HellosIdentify` | pkg/pbui/broker/broker.go:237-252 | in every run a client's record is exactly what it sent; its name is its last hello's, and it has a role, that of window manager included, exactly if one of its hellos carried it |
| `Transcript.RemoveTells` | pkg/pbui/broker/broker.go:214-235 | when a client leaves, exactly which messages each remaining client is sent, in order: the result, clear and event that end its pending session, then the event of its leaving |
| `Transcript.OfferedVerbs` | pkg/pbui/broker/broker.go:410-418 | the verbs offered for a type are exactly the registered ones that match it |
| `Transcript.OfferedInOrder` | pkg/pbui/broker/broker.go:410-418 | in the order registered |
| `Provenance.EverythingIsCaused` | pkg/pbui/broker/broker.go:237-453 | in every run each message ever sent to a connected client was caused by a step at a state that justified it: a result or clear by what ends that very session, with its reason; an acknowledgement, refusal or list by a request that deserves it, with its code or content; an event by a step that emits it under that number, name and source |
| `Provenance.StepEmits` | pkg/pbui/broker/broker.go:441-453 | each step counts the bus on by exactly the events listed for it |
| `Provenance.EventsAreNumbered` | pkg/pbui/broker/broker.go:441-453 | in every run events are numbered from 1 on as they are emitted |
| `Provenance.ObjectsWereOffered` | pkg/pbui/broker/broker.go:297-367 | an object received as an accept's result was offered, by a click or an answer that names that session or none, while that accept was pending, and is of a type it asked for |
| `Provenance.VerbsRunAtTheirOwner` | pkg/pbui/broker/broker.go:323-348 | a client asked to run a verb bore the name it was registered under when someone invoked it |
| `Provenance.MenusAreForClicks` | pkg/pbui/broker/broker.go:349-383 | only window managers are shown menus, for clicks that answered no accept, with exactly the matching verbs in order |
| `Sessions.SameIdSameSession` | pkg/pbui/broker/broker.go:286-294 | two sessions of one run with the same id are the same session |
| `Sessions.NextSession` | pkg/pbui/broker/broker.go:276-383 | exactly which session is pending after each step |
| `Sessions.PendingUntilEnded` | pkg/pbui/broker/broker.go:276-383 | in every run a session stays pending until its requester leaves, another accept starts, or someone answers or cancels it, by its id or none, or clicks an object it wants; nothing that names another session ends it, and it never comes back |
| `Sessions.SessionsAreNumbered` | pkg/pbui/broker/broker.go:286-288 | in every run sessions are numbered from s1 on as they are opened |
| `Provenance.ResultBeforeClear` | pkg/pbui/broker/broker.go:420-431 | whoever asked for a session is sent its result before its clear |
| `LiveBroker.Broker.Broadcast` | pkg/pbui/broker/broker.go:433-437 | the loop over the clients in no particular order reaches each of them once |
| `LiveBroker.Broker.Emit` | pkg/pbui/broker/broker.go:441-453 | the loop over the subscribers sends each of them the next event |
| `LiveBroker.Broker.ClearSession` | pkg/pbui/broker/broker.go:420-431 | the in-place end of a session is the one on values |
| `LiveBroker.Broker.Upsert` | pkg/pbui/broker/broker.go:257-270 | the search-and-replace loop is the upsert on values |
| `LiveBroker.Broker.DropVerbs` | pkg/pbui/broker/broker.go:222-229 | the in-place filter keeps exactly the other owners' verbs |
| `LiveBroker.Broker.VerbsFor` | pkg/pbui/broker/broker.go:410-418 | the loop collects the matching verbs in order |
| `LiveBroker.Broker.FindVerb` | pkg/pbui/broker/broker.go:326-331 | the loop finds the first verb of that id |
| `LiveBroker.Broker.FindClient` | pkg/pbui/broker/broker.go:336-341 | the loop finds a client of that name if there is one |
| `LiveBroker.Broker.Invoke` | pkg/pbui/broker/broker.go:323-348 | a verb runs at a client of its owner's name, whichever the map yields first |
| `LiveBroker.Broker.Handle` | pkg/pbui/broker/broker.go:237-408 | the in-place handler leaves the state of Handle |
| `LiveBroker.Broker.RemoveConn` | pkg/pbui/broker/broker.go:214-235 | the in-place disconnect leaves the state of RemoveConn |
| `LiveClient.Client.Begin` | pkg/pbui/client/client.go:193-199 | a call takes the next number and enters the pending table |
| `LiveClient.Client.Receive` | pkg/pbui/client/client.go:123-190 | one turn of the read loop hands a reply to the pending call of its number and folds the accept messages into the banner |
| `LiveClient.Client.ReadFails` | pkg/pbui/client/client.go:126-136 | the loop closes exactly the pending channels and empties the table |
| `EndToEnd.RunLinked` | pkg/pbui/client/client.go:123-224 | the invariant of one client, its connection and the broker, kept by every interleaving of their steps |
| `EndToEnd.CallsGetTheirOwnReply` | pkg/pbui/client/client.go:180-223 | a call that returns a reply returns the reply to itself, of a kind that answers it, and an accepted object matches the types asked for |
| `EndToEnd.NoReplyGoesAstray` | pkg/pbui/client/client.go:180-187 | no number is replied to twice, and each reply read went to the call of its number or found that caller gone |
| `EndToEnd.NoCallHangs` | pkg/pbui/client/client.go:206-223 | while the connection lives and everything sent has arrived, every waiting call has its reply at hand except the one whose accept.start is pending |
| `EndToEnd.BreakReleases` | pkg/pbui/client/client.go:126-136 | when the read loop ends exactly the pending calls' channels are closed, so every call in flight can return |
| `EndToEnd.OnlyEarlierCallsReturn` | pkg/pbui/client/client.go:193-223 | in every run, after the break a waiting call can return if and only if it was made before it; a later one stays pending until its context ends |
| `EndToEnd.LateCallWaits` | pkg/pbui/client/client.go:193-223 | such a later call, concretely |
| `EndToEnd.BannerShowsSession` | pkg/wmx11/pbui.go:33-48 | from any moment at which both accept handlers are registered, the banner of a caught-up client is the pending session if and only if what it showed then was what the messages read by then announce, or both have been replaced or cleared since |
| `EndToEnd.LastModeShows` | pkg/wmx11/pbui.go:33-40 | with only the handler for modes, the banner is the last mode read since it was registered, cleared or not |
| `LateBanner.LateListenerMissesSession` | pkg/wmx11/pbui.go:22-48 | a concrete run that ends with a caught-up window manager showing no banner while a session is pending |
| `LateBanner.LateClearKeepsBanner` | pkg/wmx11/pbui.go:33-48 | a concrete run that ends with a caught-up window manager still showing a session that is over |
| `EventQueue.BoundedQueue.Push` | pkg/jsmod/queue.go:30-46 | a push appends and signals, or drops the new item, counts it and does not signal |
| `EventQueue.BoundedQueue.Drain` | pkg/jsmod/queue.go:49-55 | a drain takes all items and leaves the count and the token |
| `EventQueue.BoundedQueue.TakeDropped` | pkg/jsmod/queue.go:58-64 | takes the drop count and resets it, leaving the items |
| `EventQueue.NothingIsLost` | pkg/jsmod/eventfan.go:98-135 | in every interleaving, if anything is queued or a drop is unreported then a token is present, a producer is between append and signal, or the drainer is between waking and the drop count; delivery keeps push order, and pushes are delivered, in hand, queued, reported or counted |
| `EventQueue.DropsOnlyWhenFull` | pkg/jsmod/queue.go:30-46 | a push is dropped exactly if it finds the queue full, 256 items unless another limit is given, and no queued item is ever lost to it |
| `EventQueue.DrainerFinishes` | pkg/jsmod/eventfan.go:103-135 | when producers have signalled, at most seven drainer steps deliver every accepted item in order and report every drop |
| `EventQueue.EverythingArrives` | pkg/jsmod/eventfan.go:98-135 | from every reachable state with the drainer alive, the pending signals and seven drainer steps are possible and deliver everything accepted so far, after which anyone can push again |
| `Plot.Line` | pkg/draw/plot.go:103-130 | for all endpoints the loop ends at the second one after max(abs dx, abs dy) + 1 pixels, each an 8-neighbour of the last and the nearest to the ideal line along the shorter axis, an exact half rounded up |
| `Plot.TestsKeepNear` | pkg/draw/plot.go:120-128 | the longer axis steps every time and the two tests keep the offset within half a pixel, never a half behind |
| `Scrape.AcceptedIsMaximal` | pkg/pbui/scrape/scrape.go:63-85 | accepted matches are disjoint, and a match left out overlaps one accepted before it |
| `Scrape.EarlierRulesWin` | pkg/pbui/scrape/scrape.go:60-85 | a match left out overlaps an accepted match of an earlier rule, or an earlier one of its own rule |
| `Scrape.OverlapIsShared` | pkg/pbui/scrape/scrape.go:70-83 | two matches overlap exactly if they cover a common position |
| `Scrape.Claim` | pkg/pbui/scrape/scrape.go:70-83 | the taken array accepts a match exactly if it overlaps no accepted one, and marks its positions |
| `Scrape.EndsUnlessStuck` | pkg/pbui/scrape/scrape.go:91-104 | the ordering loop ends if and only if no reachable position starts with an empty accepted match, hence whenever all matches are non-empty |
| `Scrape.EmptyMatchNeverEnds` | pkg/pbui/scrape/scrape.go:91-104 | a concrete line and rule on which it never leaves the first position |
| `Scrape.Order` | pkg/pbui/scrape/scrape.go:90-104 | the loop lists exactly the non-empty accepted matches, left to right |
| `Scrape.Line` | pkg/pbui/scrape/scrape.go:56-119 | with the links erased the annotated line is the line; its pieces are the accepted matches, each once and in order, linked when their type is legal, with the text between |
| `Scrape.LegalTypeNames` | pkg/pbui/object.go:24-45 | a type is linked only under a name of ASCII letters, digits, dots, dashes and underscores |
| `Match.SubsequenceScore` | pkg/launcher/match.go:50-85 | succeeds exactly if both strings are non-empty and the query is a subsequence; hits are pointwise earliest among all embeddings; the score is their total less the penalties and lies within the bounds |
| `Match.TotalBounds` | pkg/launcher/match.go:64-79 | k hits are worth between k and 6k - 2 |
| `Match.HitIsWorth` | pkg/launcher/match.go:64-76 | a hit is worth one point, three more at the start or after one of six separators, two more right after the hit before |

## Left out

- Windows, painting, fonts, input handling, EWMH and the rest of `pkg/wmx11`: foreign calls and I/O.
- Error texts: a rejected op carries a tag and the ids it names, not the message; the laws say when an op is rejected, not with which of the tags.
- JSON and the wire framing: trees, documents and messages are taken as already decoded values; object values, menu coordinates, event payloads, verb accept lists and documentation texts are not carried.
- Sockets and goroutine start-up: connecting, sending and disconnecting are steps; a failing encode sends nothing; the broker's shutdown and `OnEvent` tap are not modelled.
- Floating point: ratios and scores are reals, so rounding, NaN and infinities do not occur; a NaN ratio would pass `clampRatio`.
- Integer width: pixels and counters are unbounded integers.
- Neighbor.NeighborLeaf: that the result is nearest is for trees without a leaf of empty id, which `Validate` rejects; a candidate more than 2^30 away is not seen, as in the source.
- Nodes the types exclude: a nil child, or a kind other than leaf and split. Handing out the id generator through `Gen()` is not an op.
- Id scanning: leading white space that `Sscanf` would skip is not accepted; minted ids have none.
- Connections: `LiveBroker.Broker` keeps them as values in its client map and `LiveClient.Client` keeps its reply channels as values in its list of calls, so aliasing of connection and channel pointers is not captured.
- Handlers: the window manager's accept handlers are taken to run when the message is read, without its event loop in between; its menu, hover and verb handlers, which a late registration can make miss messages too, are not modelled.
- Writers: a connection's writer takes messages between two handled messages, not in the middle of a handler as it can in pkg/pbui/broker/broker.go:176-188; what is proved of channels rests on what was sent and on its order, which this does not change.
- Bresenham painting: `Plot.Line` returns the pixels in the order painted; clipping against the image is not part of this model.
- Regular expressions: `Scrape` takes each rule's matches as given intervals, already reduced to the capture group.
- Lower-casing: `Match` takes both strings as already lower-cased; field weights and frecency are left out.
- Event dispatch to script handlers, rules and commands, `pbui://` URIs, the CLI and the demo applications: plumbing around the parts above.
- `layout.go`'s `ZoneAt`, `tree.go`'s `Walk` and `CountLeaves`: read off their bodies.
