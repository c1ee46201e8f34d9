/**
 What the ops on trees mean, said of the op itself: when one is accepted, in which workspace it works,
 and where every tile stands and lands afterwards.
 */
module OpLaws {
  import opened Wrappers
  import opened Ids
  import opened Tree
  import opened TreeLaws
  import opened Desktop
  import opened DesktopLaws
  import opened Geometry
  import opened Placement

  // ----- which workspace ----------------------------------------------------

  /** The op reaches this node in workspace i: the one it names, or if it names none the one that has the node. */
  predicate Reaches(s: State, op: Op, i: nat)
    requires OnOneTree(op)
  {
    i < |s.workspaces| && (op.workspace == "" || s.workspaces[i].id == op.workspace) && op.node in NodeIds(s.workspaces[i].root)
  }

  predicate IsSplit(root: Node, id: NodeID) { Find(root, id).Some? && Find(root, id).value.Split? }

  /** The tree lets the op be done. */
  predicate Possible(root: Node, op: Op)
    requires OnOneTree(op)
  {
    match op
    case OpSplitLeaf(node, _, _, _) => HasLeaf(root, node)
    case OpCloseLeaf(node, _) => HasLeaf(root, node) && root.Split?
    case OpSetRatio(node, _, _) => IsSplit(root, node)
    case OpSetLeafApp(node, _, _) => HasLeaf(root, node)
    case OpSwapLeaves(node, _, target) => HasLeaf(root, node) && HasLeaf(root, target)
    case OpMoveSplit(node, _, target, _) => HasLeaf(root, node) && HasLeaf(root, target) && node != target
  }

  lemma {:induction false} ReachedOnce(s: State, op: Op, i: nat, j: nat)
    requires IdInv(s) && OnOneTree(op) && Reaches(s, op, i) && Reaches(s, op, j)
    ensures i == j
  {
    hide IdsOk, NamesOk, NodeIds;
    TreeOk(s, i);
  }

  /** While ids are in order the op works where it reaches its node, or it is rejected. */
  lemma {:induction false} ResolvesWhereReached(s: State, op: Op, i: nat)
    requires IdInv(s) && OnOneTree(op) && Reaches(s, op, i)
    ensures Resolve(s, op.workspace, op.node) == Ok(i)
  {
    hide IdsOk, NodeIds;
    var j := if op.workspace != "" then IndexOf(s.workspaces, op.workspace) else LeafHome(s.workspaces, op.node);
    var k := NodeHome(s.workspaces, op.node);
    FindIffPresent(s.workspaces[i].root, op.node);
    if op.workspace != "" {
      NamedOnce(s, i, j);
    } else if j < |s.workspaces| {
      FindIffPresent(s.workspaces[j].root, op.node);
      ReachedOnce(s, op, i, j);
    } else {
      FindIffPresent(s.workspaces[k].root, op.node);
      ReachedOnce(s, op, i, k);
    }
  }

  lemma {:induction false} NamedOnce(s: State, i: nat, j: nat)
    requires IdInv(s) && i < |s.workspaces| && j <= |s.workspaces|
    requires j < |s.workspaces| ==> s.workspaces[j].id == s.workspaces[i].id
    requires forall k | 0 <= k < j :: s.workspaces[k].id != s.workspaces[i].id
    ensures i == j
  {
    hide IdsOk, NamedUpTo;
  }

  lemma {:induction false} PossibleIsDone(s: State, i: nat, op: Op)
    requires i < |s.workspaces| && OnOneTree(op) && Distinct(NodeIds(s.workspaces[i].root))
    ensures OnTree(s, op, i).result.Ok? <==> Possible(s.workspaces[i].root, op)
    ensures Possible(s.workspaces[i].root, op) ==> op.node in NodeIds(s.workspaces[i].root)
  {
    var root := s.workspaces[i].root;
    FindIffPresent(root, op.node);
    if op.OpCloseLeaf? && Possible(root, op) {
      Detaches(root, op.node);
    } else if op.OpMoveSplit? && Possible(root, op) {
      var parent := DetachKeepsTarget(root, op.node, op.target);
    }
  }

  lemma {:induction false} Detaches(root: Node, id: NodeID)
    requires Distinct(NodeIds(root)) && root.Split? && HasLeaf(root, id)
    ensures !HasLeaf(RemoveLeaf(root, id), id)
  {
    hide RemoveLeaf;
    var parent := RemoveIds(root, id);
    assert NodeIds(root)[id] <= 1;
    FindIffPresent(RemoveLeaf(root, id), id);
  }

  /**
   An op on one tree is accepted exactly if some workspace it may work in has its node and lets it be done; it
   then changes that workspace's tree and the id counter, and nothing else.
   */
  lemma {:induction false} AcceptedWhereReached(s: State, op: Op)
    requires IdInv(s) && OnOneTree(op)
    ensures Step(s, op).result.Ok? <==> exists i: nat :: Reaches(s, op, i) && Possible(s.workspaces[i].root, op)
    ensures forall i: nat | Reaches(s, op, i) && Step(s, op).result.Ok? ::
      var t := Step(s, op).state; |t.workspaces| == |s.workspaces| && t == WithRoot(s, i, t.workspaces[i].root, t.gen)
  {
    hide IdInv, Possible, NodeIds, Distinct, OnTree;
    var where := Resolve(s, op.workspace, op.node);
    if where.Ok? {
      TreeOk(s, where.value);
      PossibleIsDone(s, where.value, op);
      if Step(s, op).result.Ok? { assert Reaches(s, op, where.value); }
    }
    forall i: nat | Reaches(s, op, i)
      ensures Resolve(s, op.workspace, op.node) == Ok(i)
    {
      ResolvesWhereReached(s, op, i);
    }
    if where.Ok? { OnlyThatTree(s, where.value, op); }
  }

  lemma {:induction false} OnlyThatTree(s: State, i: nat, op: Op)
    requires i < |s.workspaces| && OnOneTree(op)
    ensures var t := OnTree(s, op, i).state;
      |t.workspaces| == |s.workspaces| && t == WithRoot(s, i, t.workspaces[i].root, t.gen)
  {
    hide SplitLeaf, CloseLeaf, SetRatio, SetLeafApp, SwapLeaves, MoveSplit;
    assert s == WithRoot(s, i, s.workspaces[i].root, s.gen);
  }

  /** Where an accepted op works. */
  lemma {:induction false} Located(s: State, op: Op) returns (i: nat)
    requires IdInv(s) && OnOneTree(op) && Step(s, op).result.Ok?
    ensures Reaches(s, op, i) && Possible(s.workspaces[i].root, op)
    ensures Step(s, op) == OnTree(s, op, i) && |Step(s, op).state.workspaces| == |s.workspaces|
    ensures Distinct(NodeIds(s.workspaces[i].root)) && MintedUpTo(NodeIds(s.workspaces[i].root), s.gen)
  {
    hide IdInv, Possible, NodeIds, Distinct, OnTree, MintedUpTo;
    i := Resolve(s, op.workspace, op.node).value;
    TreeOk(s, i);
    PossibleIsDone(s, i, op);
    OnlyThatTree(s, i, op);
  }

  // ----- each op ------------------------------------------------------------

  /** split-leaf: the new tile stands directly after the one split, on the side the direction names, in its place. */
  lemma {:induction false} SplitLeafEffect(s: State, op: Op, area: Rect, gap: int)
      returns (i: nat, l: seq<Tile>, r: seq<Tile>, app: string)
    requires IdInv(s) && op.OpSplitLeaf? && Step(s, op).result.Ok?
    ensures Reaches(s, op, i) && i < |Step(s, op).state.workspaces|
    ensures var was, out, made := s.workspaces[i].root, Step(s, op).state.workspaces[i].root, NodeName(s.gen + 1);
      var before, after := Layout(was, area, gap), Layout(out, area, gap);
      && Step(s, op).result.value == Report(made, "")
      && Leaves(was) == l + [Tile(op.node, app)] + r && Leaves(out) == l + [Tile(op.node, app), Tile(made, op.app)] + r
      && op.node in before && op.node in after && made in after
      && Halved(after[op.node].rect, after[made].rect, op.dir == Row, gap, before[op.node].rect)
  {
    hide IdInv, NodeIds, Distinct, MintedUpTo, Layout, Halved, SplitLeaf, Decimal, Reaches;
    i := Located(s, op);
    ReachedIsThere(s, op, i);
    var root := s.workspaces[i].root;
    l, r := SplitLeafOrder(root, op.node, op.dir, op.app, s.gen);
    SplitLandsAfter(root, area, gap, op.node, op.dir, op.app, s.gen);
    app := Find(root, op.node).value.app;
  }

  lemma {:induction false} ReachedIsThere(s: State, op: Op, i: nat)
    requires OnOneTree(op) && Reaches(s, op, i)
    ensures i < |s.workspaces|
  {
  }

  /**
   move-split: with the tile lifted out, the others keep their order; it stands directly before its target for the
   left and top zones, directly after it otherwise, and lands on that side of it, in the place the target then had.
   */
  lemma {:induction false} MoveSplitEffect(s: State, op: Op, area: Rect, gap: int)
      returns (i: nat, l: seq<Tile>, r: seq<Tile>, before: seq<Tile>, after: seq<Tile>, moved: Tile, kept: Tile)
    requires IdInv(s) && op.OpMoveSplit? && Step(s, op).result.Ok?
    ensures Reaches(s, op, i) && i < |Step(s, op).state.workspaces|
    ensures moved.id == op.node && kept.id == op.target
    ensures var was, out := s.workspaces[i].root, Step(s, op).state.workspaces[i].root;
      var lifted := RemoveLeaf(was, op.node);
      var first := op.zone == ZoneLeft || op.zone == ZoneTop;
      && Leaves(was) == l + [moved] + r && Leaves(lifted) == l + r == before + [kept] + after
      && Leaves(out) == before + (if first then [moved, kept] else [kept, moved]) + after
    ensures var lifted, out := RemoveLeaf(s.workspaces[i].root, op.node), Step(s, op).state.workspaces[i].root;
      var first := op.zone == ZoneLeft || op.zone == ZoneTop;
      var whole, items := Layout(lifted, area, gap), Layout(out, area, gap);
      && op.target in whole && op.node in items && op.target in items
      && Halved(items[if first then op.node else op.target].rect, items[if first then op.target else op.node].rect,
                    op.zone == ZoneLeft || op.zone == ZoneRight, gap, whole[op.target].rect)
  {
    hide IdInv, NodeIds, Distinct, MintedUpTo, Layout, Halved, MoveSplit, Decimal, Reaches, RemoveLeaf, Leaves;
    i := Located(s, op);
    ReachedIsThere(s, op, i);
    var root := s.workspaces[i].root;
    l, r, before, after := MoveSplitRelocates(root, op.node, op.target, op.zone, s.gen);
    MoveLandsOnSide(root, area, gap, op.node, op.target, op.zone, s.gen);
    moved, kept := Tile(op.node, Find(root, op.node).value.app), Tile(op.target, Find(root, op.target).value.app);
  }

  /** close-leaf: the tile goes and the others keep their order. */
  lemma {:induction false} CloseLeafEffect(s: State, op: Op) returns (i: nat, l: seq<Tile>, r: seq<Tile>, app: string)
    requires IdInv(s) && op.OpCloseLeaf? && Step(s, op).result.Ok?
    ensures Reaches(s, op, i) && i < |Step(s, op).state.workspaces|
    ensures Leaves(s.workspaces[i].root) == l + [Tile(op.node, app)] + r
    ensures Leaves(Step(s, op).state.workspaces[i].root) == l + r
  {
    hide IdInv, NodeIds, Distinct, MintedUpTo, Leaves, Reaches, RemoveLeaf;
    i := Located(s, op);
    ReachedIsThere(s, op, i);
    l, r := RemoveLeaves(s.workspaces[i].root, op.node);
    app := Find(s.workspaces[i].root, op.node).value.app;
  }

  /** set-ratio: the split is found with the nearest legal ratio, and setting back a legal one it had undoes it. */
  lemma {:induction false} SetRatioEffect(s: State, op: Op) returns (i: nat)
    requires IdInv(s) && op.OpSetRatio? && Step(s, op).result.Ok?
    ensures Reaches(s, op, i) && i < |Step(s, op).state.workspaces|
    ensures var was, out := s.workspaces[i].root, Step(s, op).state.workspaces[i].root;
      var r := if op.ratio < 0.1 then 0.1 else if op.ratio > 0.9 then 0.9 else op.ratio;
      && IsSplit(was, op.node) && Find(out, op.node) == Some(Find(was, op.node).value.(ratio := r))
      && Leaves(out) == Leaves(was)
      && (0.1 <= Find(was, op.node).value.ratio <= 0.9 ==>
            Step(Step(s, op).state, op.(ratio := Find(was, op.node).value.ratio)).state == s)
  {
    hide IdInv, NodeIds, Distinct, MintedUpTo, Leaves, Find, Update;
    i := Located(s, op);
    var root := s.workspaces[i].root;
    RatioOnly(root, op.node, op.ratio);
    ClampIsNearest(op.ratio);
    var t, back := Step(s, op).state, op.(ratio := Find(root, op.node).value.ratio);
    StepIds(s, op);
    RatioKeepsReach(s, t, op, i, back);
    ResolvesWhereReached(t, back, i);
    assert s == WithRoot(t, i, root, t.gen);
  }

  lemma {:induction false} RatioKeepsReach(s: State, t: State, op: Op, i: nat, back: Op)
    requires IdInv(s) && op.OpSetRatio? && Reaches(s, op, i) && Possible(s.workspaces[i].root, op)
    requires t == WithRoot(s, i, SetRatio(s.workspaces[i].root, op.node, op.ratio).value, s.gen)
    requires back.OpSetRatio? && back.node == op.node && back.workspace == op.workspace
    ensures Reaches(t, back, i)
  {
    hide IdInv, Distinct;
    TreeOk(s, i);
    SetRatioIds(s.workspaces[i].root, op.node, op.ratio);
  }

  /** set-leaf-app: that tile shows the app; no id, no place and no other app changes. */
  lemma {:induction false} SetLeafAppEffect(s: State, op: Op) returns (i: nat)
    requires IdInv(s) && op.OpSetLeafApp? && Step(s, op).result.Ok?
    ensures Reaches(s, op, i) && i < |Step(s, op).state.workspaces|
    ensures var was, out := Leaves(s.workspaces[i].root), Leaves(Step(s, op).state.workspaces[i].root);
      && |out| == |was|
      && forall k | 0 <= k < |was| :: out[k] == if was[k].id == op.node then Tile(op.node, op.app) else was[k]
  {
    hide IdInv, NodeIds, Distinct, MintedUpTo, Leaves, Reaches, Update;
    i := Located(s, op);
    ReachedIsThere(s, op, i);
    PutAppLeaves(s.workspaces[i].root, op.node, op.app);
  }

  /** swap-leaves: each of the two tiles shows what the other did; no id, no place and no other app changes. */
  lemma {:induction false} SwapLeavesEffect(s: State, op: Op) returns (i: nat, appA: string, appB: string)
    requires IdInv(s) && op.OpSwapLeaves? && Step(s, op).result.Ok?
    ensures Reaches(s, op, i) && i < |Step(s, op).state.workspaces|
    ensures var was, out := Leaves(s.workspaces[i].root), Leaves(Step(s, op).state.workspaces[i].root);
      && Tile(op.node, appA) in was && Tile(op.target, appB) in was && |out| == |was|
      && forall k | 0 <= k < |was| ::
           out[k] == if was[k].id == op.target then Tile(op.target, appA)
                     else if was[k].id == op.node then Tile(op.node, appB) else was[k]
  {
    hide IdInv, NodeIds, Distinct, MintedUpTo, Leaves, Reaches, Find, Update;
    i := Located(s, op);
    ReachedIsThere(s, op, i);
    var root := s.workspaces[i].root;
    appA, appB := Find(root, op.node).value.app, Find(root, op.target).value.app;
    HasLeafIffListed(root, Tile(op.node, appA));
    HasLeafIffListed(root, Tile(op.target, appB));
    SwapExchangesApps(root, op.node, op.target);
  }

  /**
   move-leaf: the tile goes from the workspace that had it to the one named, where it lands beside the target, or
   beside everything if none is named: below it for "col", right of it for "row" or no direction, in its place.
   */
  lemma {:induction false} MoveLeafEffect(s: State, op: Op, area: Rect, gap: int)
    requires IdInv(s) && op.OpMoveLeaf? && MoveAllowed(s, op)
    ensures Step(s, op).result.Ok? && Transported(s, Step(s, op).state, op)
    ensures var dst := IndexOf(s.workspaces, op.workspace);
      var was, out := s.workspaces[dst].root, Step(s, op).state.workspaces[dst].root;
      var before, after := Layout(was, area, gap), Layout(out, area, gap);
      var beside := if op.target == "" then was.id else op.target;
      && beside in before && beside in after && op.node in after && (op.target == "" ==> before[beside].rect == area)
      && Halved(after[beside].rect, after[op.node].rect, op.dir == Row || op.dir == Unset, gap, before[beside].rect)
  {
    hide IdInv, NodeIds, Distinct, MintedUpTo, Layout, Halved, GraftLeaf, Decimal, Transported, RemoveLeaf, MintedIn;
    var src, dst := LeafHome(s.workspaces, op.node), IndexOf(s.workspaces, op.workspace);
    var root := s.workspaces[src].root;
    MoveLeafInv(s, op);
    MoveLeafSteps(s, op);
    var rest := Remainder(root, op.node, s.gen);
    MovedIsReady(s, op);
    GraftLandsAfter(s.workspaces[dst].root, area, gap, Find(root, op.node).value, op.target, DirOrRow(op.dir), rest.gen);
  }

  /** With the tile lifted out, the destination is as it was and knows nothing of the tile. */
  lemma {:induction false} MovedIsReady(s: State, op: Op)
    requires IdInv(s) && op.OpMoveLeaf? && MoveAllowed(s, op)
    ensures var dst := s.workspaces[IndexOf(s.workspaces, op.workspace)].root;
      var root := s.workspaces[LeafHome(s.workspaces, op.node)].root;
      var rest := Remainder(root, op.node, s.gen);
      var lifted := WithRoot(s, LeafHome(s.workspaces, op.node), rest.tree, rest.gen);
      && lifted.workspaces[IndexOf(s.workspaces, op.workspace)].root == dst
      && Distinct(NodeIds(dst)) && MintedUpTo(NodeIds(dst), rest.gen)
      && op.node !in NodeIds(dst) && op.node != NodeName(rest.gen + 1)
  {
    hide IdInv, NodeIds, Distinct, MintedUpTo, Decimal, RemoveLeaf, MintedIn, Departed, Grows;
    var src, dst := LeafHome(s.workspaces, op.node), IndexOf(s.workspaces, op.workspace);
    var root := s.workspaces[src].root;
    TreeOk(s, src);
    RemainderOk(root, op.node, s.gen);
    var rest := Remainder(root, op.node, s.gen);
    LiftInv(s, src, op.node, rest.tree, rest.gen);
    var lifted := WithRoot(s, src, rest.tree, rest.gen);
    TreeOk(lifted, dst);
    MovedIsNew(lifted, dst, op.node);
  }

  /** The lifted tile's id is in no tree and is not the next one minted. */
  lemma {:induction false} MovedIsNew(s: State, dst: nat, id: NodeID)
    requires dst < |s.workspaces| && Occurrences(s.workspaces, id) == 0 && MintedIn(id, 0, s.gen)
    ensures id !in NodeIds(s.workspaces[dst].root) && id != NodeName(s.gen + 1)
  {
    hide NodeIds, Decimal;
    OccurrencesAtLeast(s.workspaces, dst, dst, id);
    var k: nat :| 0 < k <= s.gen && id == NodeName(k);
    if id == NodeName(s.gen + 1) { PrintedIdsDiffer(NODE_PREFIX, k, s.gen + 1); }
  }
}
