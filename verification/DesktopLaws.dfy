/**
 The strengthened desktop invariant in two parts: that every run keeps ids distinct and minted, so
 that a rejected op leaves no trace and ops may be replayed; and that exactly the ops with a legal
 direction keep the trees well formed.
 */
module DesktopLaws {
  import opened Wrappers
  import opened Ids
  import opened Tree
  import opened TreeLaws
  import opened Desktop

  /** How many nodes of the whole desktop carry this id. */
  function Occurrences(ws: seq<Workspace>, x: NodeID): nat {
    if ws == [] then 0 else NodeIds(ws[0].root)[x] + Occurrences(ws[1..], x)
  }

  /** Every id in use is used once and was minted by a counter that has reached gen. */
  ghost predicate IdsOk(ws: seq<Workspace>, gen: nat) {
    forall x :: Occurrences(ws, x) <= 1 && (Occurrences(ws, x) == 1 ==> MintedIn(x, 0, gen))
  }

  /** x is the name of a workspace counter value in (0, hi]. */
  ghost predicate NamedUpTo(x: string, hi: nat) {
    exists k: nat :: 0 < k <= hi && x == WorkspaceName(k)
  }

  ghost predicate NamesOk(ws: seq<Workspace>, wsSeq: nat) {
    && (forall i | 0 <= i < |ws| :: NamedUpTo(ws[i].id, wsSeq))
    && (forall i, j | 0 <= i < j < |ws| :: ws[i].id != ws[j].id)
  }

  /**
   All node ids are distinct across the whole desktop and minted by the counter, workspace ids
   likewise, and current names a workspace.
   */
  ghost predicate IdInv(s: State) {
    && s.workspaces != []
    && IdsOk(s.workspaces, s.gen)
    && NamesOk(s.workspaces, s.wsSeq)
    && IndexOf(s.workspaces, s.current) < |s.workspaces|
  }

  ghost predicate Formed(s: State) {
    forall i | 0 <= i < |s.workspaces| :: WellFormed(s.workspaces[i].root)
  }

  /** Ids are in order and every tree is well formed. */
  ghost predicate Inv(s: State) { IdInv(s) && Formed(s) }

  // ----- counting ids -------------------------------------------------------

  lemma {:induction false} OccurrencesWith(ws: seq<Workspace>, i: nat, w: Workspace, x: NodeID)
    requires i < |ws|
    ensures Occurrences(ws[i := w], x) == Occurrences(ws, x) - NodeIds(ws[i].root)[x] + NodeIds(w.root)[x]
  {
    hide NodeIds;
    if i == 0 {
      assert ws[i := w][1..] == ws[1..];
    } else {
      OccurrencesWith(ws[1..], i - 1, w, x);
      assert ws[i := w][1..] == ws[1..][i - 1 := w];
    }
  }

  lemma {:induction false} OccurrencesConcat(xs: seq<Workspace>, ys: seq<Workspace>, x: NodeID)
    ensures Occurrences(xs + ys, x) == Occurrences(xs, x) + Occurrences(ys, x)
  {
    hide NodeIds;
    if xs == [] {
      assert xs + ys == ys;
    } else {
      OccurrencesConcat(xs[1..], ys, x);
      assert (xs + ys)[1..] == xs[1..] + ys;
    }
  }

  lemma {:induction false} OccurrencesWithout(ws: seq<Workspace>, i: nat, x: NodeID)
    requires i < |ws|
    ensures Occurrences(ws, x) == Occurrences(ws[..i] + ws[i + 1..], x) + NodeIds(ws[i].root)[x]
  {
    hide NodeIds;
    OccurrencesConcat(ws[..i], ws[i + 1..], x);
    OccurrencesConcat(ws[..i], ws[i..], x);
    assert ws[..i] + ws[i..] == ws;
    assert ws[i..][1..] == ws[i + 1..];
  }

  /** An id occurs in the whole desktop at least as often as in any two of its trees. */
  lemma {:induction false} OccurrencesAtLeast(ws: seq<Workspace>, i: nat, j: nat, x: NodeID)
    requires i < |ws| && j < |ws|
    ensures Occurrences(ws, x) >= NodeIds(ws[i].root)[x] + (if i == j then 0 else NodeIds(ws[j].root)[x])
  {
    hide NodeIds;
    if i == 0 && j == 0 {
    } else if i == 0 {
      OccurrencesAtLeast(ws[1..], j - 1, j - 1, x);
    } else if j == 0 {
      OccurrencesAtLeast(ws[1..], i - 1, i - 1, x);
    } else {
      OccurrencesAtLeast(ws[1..], i - 1, j - 1, x);
    }
  }

  /** When ids are in order each tree has distinct minted ids, and two trees share none. */
  lemma {:induction false} TreeOk(s: State, i: nat)
    requires IdInv(s) && i < |s.workspaces|
    ensures Distinct(NodeIds(s.workspaces[i].root)) && MintedUpTo(NodeIds(s.workspaces[i].root), s.gen)
    ensures forall j, x | 0 <= j < |s.workspaces| && j != i && x in NodeIds(s.workspaces[i].root) ::
              x !in NodeIds(s.workspaces[j].root)
  {
    var ids := NodeIds(s.workspaces[i].root);
    forall x
      ensures ids[x] <= 1
      ensures x in ids ==> MintedIn(x, 0, s.gen)
    {
      OccurrencesAtLeast(s.workspaces, i, i, x);
    }
    forall j, x | 0 <= j < |s.workspaces| && j != i && x in ids
      ensures x !in NodeIds(s.workspaces[j].root)
    {
      OccurrencesAtLeast(s.workspaces, i, j, x);
    }
  }

  // ----- replacing one tree -------------------------------------------------

  /** out uses no id more often than was did, except once each those minted in (gen, later] and those in extra. */
  ghost predicate Grows(was: Node, out: Node, gen: nat, later: nat, extra: set<NodeID>) {
    forall x :: NodeIds(out)[x] <= NodeIds(was)[x] + (if MintedIn(x, gen, later) || x in extra then 1 else 0)
  }

  /** Putting such a tree in place of the old one keeps ids in order. */
  lemma {:induction false} WithRootKeepsIds(s: State, i: nat, root: Node, gen: nat, extra: set<NodeID>)
    requires IdInv(s) && i < |s.workspaces| && s.gen <= gen
    requires Grows(s.workspaces[i].root, root, s.gen, gen, extra)
    requires forall x | x in extra :: Occurrences(s.workspaces, x) == 0 && MintedIn(x, 0, s.gen)
    ensures IdInv(WithRoot(s, i, root, gen))
  {
    var w := s.workspaces[i].(root := root);
    var ws := s.workspaces[i := w];
    forall x
      ensures Occurrences(ws, x) <= 1 && (Occurrences(ws, x) == 1 ==> MintedIn(x, 0, gen))
    {
      OccurrencesWith(s.workspaces, i, w, x);
      if MintedIn(x, 0, s.gen) {
        MintedLater(x, s.gen, gen);
        RangesDiffer(x, 0, s.gen, gen);
      } else if MintedIn(x, s.gen, gen) {
        MintedEarlier(x, s.gen, gen);
      }
    }
    SameNamesSameIndex(s.workspaces, ws, s.current);
  }

  lemma {:induction false} MintedEarlier(x: NodeID, lo: nat, hi: nat)
    requires MintedIn(x, lo, hi)
    ensures MintedIn(x, 0, hi)
  {
  }

  lemma {:induction false} MintedLater(x: NodeID, gen: nat, later: nat)
    requires MintedIn(x, 0, gen) && gen <= later
    ensures MintedIn(x, 0, later)
  {
  }

  lemma {:induction false} SameNamesSameIndex(ws: seq<Workspace>, vs: seq<Workspace>, id: string)
    requires |ws| == |vs| && forall i | 0 <= i < |ws| :: ws[i].id == vs[i].id
    ensures IndexOf(ws, id) == IndexOf(vs, id)
  {
  }

  lemma {:induction false} NextNames(gen: nat)
    ensures MintedIn(NodeName(gen + 1), gen, gen + 1) && MintedIn(NodeName(gen + 1), gen, gen + 2)
    ensures MintedIn(NodeName(gen + 2), gen, gen + 2)
    ensures NodeName(gen + 1) != NodeName(gen + 2)
  {
    if NodeName(gen + 1) == NodeName(gen + 2) { PrintedIdsDiffer(NODE_PREFIX, gen + 1, gen + 2); }
  }

  // ----- one op -------------------------------------------------------------

  /** The directions the source should have checked: split-leaf and move-leaf take any string. */
  predicate LegalDir(op: Op) {
    match op
    case OpSplitLeaf(_, _, dir, _) => Legal(dir)
    case OpMoveLeaf(_, _, _, dir) => Legal(DirOrRow(dir))
    case _ => true
  }

  lemma {:induction false} WithRootFormed(s: State, i: nat, root: Node, gen: nat)
    requires i < |s.workspaces| && Formed(s)
    ensures Formed(WithRoot(s, i, root, gen)) <==> WellFormed(root)
  {
    assert WithRoot(s, i, root, gen).workspaces[i].root == root;
  }

  lemma {:induction false} SplitLeafGrows(root: Node, id: NodeID, dir: Dir, app: string, gen: nat)
    requires Distinct(NodeIds(root)) && HasLeaf(root, id)
    ensures var r := SplitLeaf(root, id, dir, app, gen);
      r.Ok? && r.value.gen == gen + 2 && Grows(root, r.value.tree, gen, r.value.gen, {})
  {
    SplitLeafIds(root, id, dir, app, gen);
    NextNames(gen);
  }

  lemma {:induction false} MoveSplitGrows(root: Node, from: NodeID, target: NodeID, zone: Zone, gen: nat)
    requires Distinct(NodeIds(root)) && MoveSplit(root, from, target, zone, gen).Ok?
    ensures var r := MoveSplit(root, from, target, zone, gen);
      && r.value.gen == gen + 1 && Grows(root, r.value.tree, gen, r.value.gen, {})
      && (WellFormed(root) ==> WellFormed(r.value.tree))
  {
    FindIffPresent(root, target);
    if WellFormed(root) { FoundIds(root, target); }
    var parent := MoveSplitIds(root, from, target, zone, gen);
    NextNames(gen);
    ShrinkGrows(root, MoveSplit(root, from, target, zone, gen).value.tree, gen);
  }

  lemma {:induction false} ShrinkGrows(root: Node, out: Node, gen: nat)
    requires NodeIds(out) <= NodeIds(root) + multiset{NodeName(gen + 1)}
    ensures Grows(root, out, gen, gen + 1, {})
  {
    NextNames(gen);
    hide MintedIn, NodeName, NodeIds;
    var bound := NodeIds(root) + multiset{NodeName(gen + 1)};
    forall x
      ensures NodeIds(out)[x] <= NodeIds(root)[x] + (if MintedIn(x, gen, gen + 1) then 1 else 0)
    {
      assert NodeIds(out)[x] <= bound[x];
    }
  }

  predicate Quiet(op: Op) {
    op.OpCloseLeaf? || op.OpSetRatio? || op.OpSetLeafApp? || op.OpSwapLeaves?
  }

  /** close-leaf, set-ratio, set-leaf-app and swap-leaves on one tree. */
  function QuietTree(root: Node, op: Op): Result<Node, Error>
    requires Quiet(op)
  {
    match op
    case OpCloseLeaf(node, _) => CloseLeaf(root, node)
    case OpSetRatio(node, _, ratio) => SetRatio(root, node, ratio)
    case OpSetLeafApp(node, _, app) => SetLeafApp(root, node, app)
    case OpSwapLeaves(node, _, target) => SwapLeaves(root, node, target)
  }

  lemma {:induction false} SetRatioIds(root: Node, id: NodeID, ratio: real)
    requires Distinct(NodeIds(root)) && SetRatio(root, id, ratio).Ok?
    ensures NodeIds(SetRatio(root, id, ratio).value) == NodeIds(root)
    ensures WellFormed(root) ==> WellFormed(SetRatio(root, id, ratio).value)
  {
    FindIffPresent(root, id);
    FoundIds(root, id);
    var others := UpdateIds(root, id, PutRatio(ratio));
  }

  /** They mint nothing and add no id. */
  lemma {:induction false} QuietTreeGrows(root: Node, op: Op, gen: nat)
    requires Distinct(NodeIds(root)) && Quiet(op) && QuietTree(root, op).Ok?
    ensures Grows(root, QuietTree(root, op).value, gen, gen, {})
    ensures WellFormed(root) ==> WellFormed(QuietTree(root, op).value)
  {
    hide MintedIn, NodeName, NodeIds, WellFormed, Find, Update, RemoveLeaf;
    match op {
      case OpCloseLeaf(node, _) => var parent := RemoveIds(root, node);
      case OpSetRatio(node, _, ratio) => SetRatioIds(root, node, ratio);
      case OpSetLeafApp(node, _, app) => PutAppLeaves(root, node, app);
      case OpSwapLeaves(node, _, target) => SwapExchangesApps(root, node, target);
    }
  }

  /**
   An op on one tree keeps ids in order, and keeps trees well formed exactly when it is rejected or its
   direction is legal.
   */
  lemma {:induction false} OnTreeInv(s: State, i: nat, op: Op)
    requires IdInv(s) && i < |s.workspaces| && OnOneTree(op)
    ensures var out := OnTree(s, op, i);
      if out.result.Err? then out.state == s
      else IdInv(out.state) && (Formed(s) ==> (Formed(out.state) <==> LegalDir(op)))
  {
    hide MintedIn, NodeName, NodeIds, WellFormed;
    var root := s.workspaces[i].root;
    TreeOk(s, i);
    var out := OnTree(s, op, i);
    if out.result.Ok? {
      var tree := out.state.workspaces[i].root;
      if op.OpSplitLeaf? {
        SplitLeafGrows(root, op.node, op.dir, op.app, s.gen);
        SplitLeafIds(root, op.node, op.dir, op.app, s.gen);
      } else if op.OpMoveSplit? {
        MoveSplitGrows(root, op.node, op.target, op.zone, s.gen);
      } else {
        QuietTreeGrows(root, op, s.gen);
      }
      WithRootKeepsIds(s, i, tree, out.state.gen, {});
      if Formed(s) { WithRootFormed(s, i, tree, out.state.gen); }
    }
  }

  // ----- move-leaf ----------------------------------------------------------

  /** Where the graft puts the leaf: beside the target, or beside the whole root. */
  ghost predicate Joined(was: Node, out: Node, moved: Node, target: NodeID)
    requires moved.Leaf?
  {
    var tile := Tile(moved.id, moved.app);
    if target == "" then Leaves(out) == Leaves(was) + [tile]
    else
      exists l, r, app ::
        Leaves(was) == l + [Tile(target, app)] + r && Leaves(out) == l + [Tile(target, app), tile] + r
  }

  lemma {:induction false} GraftTree(root: Node, moved: Node, target: NodeID, dir: Dir, gen: nat)
    requires Distinct(NodeIds(root)) && moved.Leaf? && moved.id !in NodeIds(root)
    requires target == "" || HasLeaf(root, target)
    ensures var g := GraftLeaf(root, moved, target, dir, gen);
      && g.Ok? && g.value.gen == gen + 1
      && NodeIds(g.value.tree) == NodeIds(root) + multiset{moved.id} + multiset{NodeName(gen + 1)}
      && (WellFormed(root) && WellFormed(moved) ==> (WellFormed(g.value.tree) <==> Legal(dir)))
      && Joined(root, g.value.tree, moved, target)
  {
    hide NodeIds, WellFormed, DockAt, Find, NodeName, Joined;
    FindIffPresent(root, moved.id);
    if target == "" {
      RootTree(root, moved, dir, gen);
    } else {
      DockedTree(root, moved, target, dir, gen);
      DockJoins(root, moved, target, dir, gen);
    }
  }

  lemma {:induction false} RootTree(root: Node, moved: Node, dir: Dir, gen: nat)
    requires moved.Leaf?
    ensures var out := NewSplit(NodeName(gen + 1), dir, root, moved, 0.5);
      && NodeIds(out) == NodeIds(root) + multiset{moved.id} + multiset{NodeName(gen + 1)}
      && (WellFormed(root) && WellFormed(moved) ==> (WellFormed(out) <==> Legal(dir)))
      && Joined(root, out, moved, "")
  {
  }

  lemma {:induction false} DockedTree(root: Node, moved: Node, target: NodeID, dir: Dir, gen: nat)
    requires Distinct(NodeIds(root)) && moved.Leaf? && target != "" && HasLeaf(root, target)
    ensures var out := DockAt(root, target, dir, moved, false, gen);
      && out.gen == gen + 1
      && NodeIds(out.tree) == NodeIds(root) + multiset{moved.id} + multiset{NodeName(gen + 1)}
      && (WellFormed(root) && WellFormed(moved) ==> (WellFormed(out.tree) <==> Legal(dir)))
  {
    FindIffPresent(root, target);
    FoundIds(root, target);
    DockMintsOnce(root, target, dir, moved, false, gen);
    var others := UpdateIds(root, target, PutDock(NodeName(gen + 1), dir, moved, false));
  }

  lemma {:induction false} DockJoins(root: Node, moved: Node, target: NodeID, dir: Dir, gen: nat)
    requires Distinct(NodeIds(root)) && moved.Leaf? && target != "" && HasLeaf(root, target)
    ensures Joined(root, DockAt(root, target, dir, moved, false, gen).tree, moved, target)
  {
    var l, r := DockOrder(root, target, dir, moved, false, gen);
    var app := Find(root, target).value.app;
    assert Leaves(root) == l + [Tile(target, app)] + r;
  }

  lemma {:induction false} GraftGrows(root: Node, out: Node, moved: NodeID, gen: nat)
    requires NodeIds(out) == NodeIds(root) + multiset{moved} + multiset{NodeName(gen + 1)}
    requires MintedIn(moved, 0, gen)
    ensures Grows(root, out, gen, gen + 1, {moved})
  {
    NextNames(gen);
    RangesDiffer(moved, 0, gen, gen + 1);
  }

  lemma {:induction false} GraftInv(s: State, dst: nat, moved: Node, target: NodeID, dir: Dir, report: Report)
    requires IdInv(s) && dst < |s.workspaces| && moved.Leaf?
    requires Occurrences(s.workspaces, moved.id) == 0 && MintedIn(moved.id, 0, s.gen)
    requires target == "" || HasLeaf(s.workspaces[dst].root, target)
    ensures var out := Grafted(s, dst, moved, target, dir, report);
      && out.result == Ok(report)
      && IdInv(out.state) && (Formed(s) ==> (Formed(out.state) <==> Legal(dir)))
      && out.state == WithRoot(s, dst, out.state.workspaces[dst].root, s.gen + 1)
      && Joined(s.workspaces[dst].root, out.state.workspaces[dst].root, moved, target)
  {
    hide NodeIds, Distinct, MintedIn, GraftLeaf, Joined, Grows, Occurrences, IdsOk, NamesOk;
    var root := s.workspaces[dst].root;
    TreeOk(s, dst);
    OccurrencesAtLeast(s.workspaces, dst, dst, moved.id);
    MintedNameNotEmpty(moved.id, 0, s.gen);
    GraftTree(root, moved, target, dir, s.gen);
    var out := GraftLeaf(root, moved, target, dir, s.gen).value.tree;
    GraftGrows(root, out, moved.id, s.gen);
    WithRootKeepsIds(s, dst, out, s.gen + 1, {moved.id});
    if Formed(s) { WithRootFormed(s, dst, out, s.gen + 1); }
  }

  /** The desktop between the two halves of a move: the leaf is out, nothing else is amiss. */
  lemma {:induction false} LiftInv(s: State, src: nat, node: NodeID, root: Node, gen: nat)
    requires IdInv(s) && src < |s.workspaces| && s.gen <= gen
    requires node in NodeIds(s.workspaces[src].root) && node !in NodeIds(root)
    requires Grows(s.workspaces[src].root, root, s.gen, gen, {})
    ensures var lifted := WithRoot(s, src, root, gen);
      && IdInv(lifted) && (Formed(s) && WellFormed(root) ==> Formed(lifted))
      && Occurrences(lifted.workspaces, node) == 0 && MintedIn(node, 0, gen)
  {
    WithRootKeepsIds(s, src, root, gen, {});
    OccurrencesWith(s.workspaces, src, s.workspaces[src].(root := root), node);
    OccurrencesAtLeast(s.workspaces, src, src, node);
    MintedLater(node, s.gen, gen);
  }

  /** The tree a leaf leaves behind. */
  function Remainder(root: Node, node: NodeID, gen: nat): Minted {
    if root.Leaf? then Minted(Leaf(NodeName(gen + 1), ""), gen + 1) else Minted(RemoveLeaf(root, node), gen)
  }

  lemma {:induction false} RemainderOk(root: Node, node: NodeID, gen: nat)
    requires Distinct(NodeIds(root)) && MintedUpTo(NodeIds(root), gen) && HasLeaf(root, node)
    ensures var rest := Remainder(root, node, gen);
      && node in NodeIds(root) && node !in NodeIds(rest.tree)
      && (WellFormed(root) ==> WellFormed(rest.tree)) && Grows(root, rest.tree, gen, rest.gen, {})
      && Departed(root, rest.tree, Tile(node, Find(root, node).value.app), gen)
  {
    FindIffPresent(root, node);
    if root.Leaf? {
      NextNames(gen);
      FreshIsAbsent(NodeIds(root), gen, gen + 1);
    } else {
      hide NodeIds, WellFormed, Grows, MintedIn;
      DetachedIds(root, node, gen);
      var l, r := RemoveLeaves(root, node);
      assert Leaves(root) == l + [Tile(node, Find(root, node).value.app)] + r;
    }
  }

  lemma {:induction false} DetachedIds(root: Node, node: NodeID, gen: nat)
    requires Distinct(NodeIds(root)) && root.Split? && HasLeaf(root, node)
    ensures node !in NodeIds(RemoveLeaf(root, node)) && (WellFormed(root) ==> WellFormed(RemoveLeaf(root, node)))
    ensures Grows(root, RemoveLeaf(root, node), gen, gen, {})
  {
    hide MintedIn;
    var parent := RemoveIds(root, node);
    assert NodeIds(root)[node] <= 1;
  }

  /** What move-leaf's checks before the first change amount to. */
  predicate MoveAllowed(s: State, op: Op)
    requires op.OpMoveLeaf?
  {
    var src := LeafHome(s.workspaces, op.node);
    var dst := IndexOf(s.workspaces, op.workspace);
    && src < |s.workspaces| && dst < |s.workspaces|
    && s.workspaces[src].id != s.workspaces[dst].id
    && (op.target == "" || HasLeaf(s.workspaces[dst].root, op.target))
  }

  /** The source tree and the destination tree after a move: the tile leaves one and joins the other. */
  ghost predicate Transported(s: State, t: State, op: Op)
    requires op.OpMoveLeaf? && MoveAllowed(s, op)
  {
    var src := LeafHome(s.workspaces, op.node);
    var dst := IndexOf(s.workspaces, op.workspace);
    var leaf := Find(s.workspaces[src].root, op.node).value;
    && |t.workspaces| == |s.workspaces|
    && (forall i | 0 <= i < |s.workspaces| && i != src && i != dst :: t.workspaces[i] == s.workspaces[i])
    && Departed(s.workspaces[src].root, t.workspaces[src].root, Tile(leaf.id, leaf.app), s.gen)
    && Joined(s.workspaces[dst].root, t.workspaces[dst].root, leaf, op.target)
  }

  /** The leaf is gone and the others keep their order; a workspace left empty gets a fresh empty tile. */
  ghost predicate Departed(was: Node, out: Node, tile: Tile, gen: nat) {
    if was.Leaf? then Leaves(was) == [tile] && Leaves(out) == [Tile(NodeName(gen + 1), "")]
    else exists l, r :: Leaves(was) == l + [tile] + r && Leaves(out) == l + r
  }

  lemma {:induction false} MoveLeafInv(s: State, op: Op)
    requires IdInv(s) && op.OpMoveLeaf?
    ensures var out := Step(s, op);
      if MoveAllowed(s, op)
      then
        && out.result.Ok? && IdInv(out.state) && Transported(s, out.state, op)
        && (Formed(s) ==> (Formed(out.state) <==> LegalDir(op)))
      else out.result.Err? && out.state == s
  {
    hide MintedIn, NodeIds, WellFormed, Decimal, Grafted, Joined, Departed, Grows, Occurrences, IdsOk, NamesOk, RemoveLeaf;
    if MoveAllowed(s, op) {
      var src := LeafHome(s.workspaces, op.node);
      var dst := IndexOf(s.workspaces, op.workspace);
      var root := s.workspaces[src].root;
      var leaf := Find(root, op.node).value;
      TreeOk(s, src);
      RemainderOk(root, op.node, s.gen);
      var rest := Remainder(root, op.node, s.gen);
      LiftInv(s, src, op.node, rest.tree, rest.gen);
      MoveLeafSteps(s, op);
      var report := if root.Leaf? then Report(NodeName(s.gen + 1), "") else NOTHING;
      GraftInv(WithRoot(s, src, rest.tree, rest.gen), dst, leaf, op.target, DirOrRow(op.dir), report);
    }
  }

  /** An allowed move lifts the leaf out of its tree and then grafts it. */
  lemma {:induction false} MoveLeafSteps(s: State, op: Op)
    requires IdInv(s) && op.OpMoveLeaf? && MoveAllowed(s, op)
    ensures var src := LeafHome(s.workspaces, op.node);
      var dst := IndexOf(s.workspaces, op.workspace);
      var root := s.workspaces[src].root;
      var rest := Remainder(root, op.node, s.gen);
      var report := if root.Leaf? then Report(NodeName(s.gen + 1), "") else NOTHING;
      && Find(root, op.node).value.id == op.node
      && Step(s, op) == Grafted(WithRoot(s, src, rest.tree, rest.gen), dst,
                                Find(root, op.node).value, op.target, DirOrRow(op.dir), report)
  {
    hide MintedIn, NodeIds, Distinct, WellFormed, Grafted, Departed, Grows, Occurrences, IdsOk, NamesOk, GraftLeaf, Decimal;
    var src := LeafHome(s.workspaces, op.node);
    var root := s.workspaces[src].root;
    TreeOk(s, src);
    RemainderOk(root, op.node, s.gen);
    FindIffPresent(root, op.node);
    FindIffPresent(RemoveLeaf(root, op.node), op.node);
  }

  // ----- workspace ops ------------------------------------------------------

  /** Appending a workspace with the next name and a tree of fresh ids keeps ids in order. */
  lemma {:induction false} AppendInv(s: State, w: Workspace, gen: nat)
    requires IdInv(s) && s.gen <= gen && w.id == WorkspaceName(s.wsSeq + 1) && Distinct(NodeIds(w.root))
    requires forall x | x in NodeIds(w.root) :: MintedIn(x, s.gen, gen)
    ensures var t := State(s.workspaces + [w], w.id, gen, s.wsSeq + 1);
      IdInv(t) && (Formed(s) && WellFormed(w.root) ==> Formed(t))
  {
    var ws := s.workspaces + [w];
    forall x
      ensures Occurrences(ws, x) <= 1 && (Occurrences(ws, x) == 1 ==> MintedIn(x, 0, gen))
    {
      OccurrencesConcat(s.workspaces, [w], x);
      assert Occurrences([w], x) == NodeIds(w.root)[x] + Occurrences([w][1..], x);
      if MintedIn(x, 0, s.gen) {
        MintedLater(x, s.gen, gen);
        RangesDiffer(x, 0, s.gen, gen);
      } else if MintedIn(x, s.gen, gen) {
        MintedEarlier(x, s.gen, gen);
      }
    }
    AppendNames(s.workspaces, w, s.wsSeq);
    assert ws[|s.workspaces|].id == w.id;
  }

  lemma {:induction false} AppendNames(ws: seq<Workspace>, w: Workspace, wsSeq: nat)
    requires NamesOk(ws, wsSeq) && w.id == WorkspaceName(wsSeq + 1)
    ensures NamesOk(ws + [w], wsSeq + 1)
  {
    forall i | 0 <= i < |ws|
      ensures NamedUpTo(ws[i].id, wsSeq + 1) && ws[i].id != w.id
    {
      var k: nat :| 0 < k <= wsSeq && ws[i].id == WorkspaceName(k);
      if ws[i].id == w.id { PrintedIdsDiffer(WORKSPACE_PREFIX, k, wsSeq + 1); }
    }
    assert NamedUpTo(w.id, wsSeq + 1);
  }

  lemma {:induction false} AddWorkspaceInv(s: State, app: string)
    requires IdInv(s)
    ensures IdInv(AddWorkspace(s, app).state) && (Formed(s) ==> Formed(AddWorkspace(s, app).state))
  {
    NextNames(s.gen);
    var w := AddWorkspace(s, app).state.workspaces[|s.workspaces|];
    AppendInv(s, w, s.gen + 1);
  }

  lemma {:induction false} CloneWorkspaceInv(s: State, id: string)
    requires IdInv(s)
    ensures IdInv(CloneWorkspace(s, id).state) && (Formed(s) ==> Formed(CloneWorkspace(s, id).state))
  {
    var i := IndexOf(s.workspaces, id);
    if i < |s.workspaces| {
      CloneIsFreshCopy(s.workspaces[i].root, s.gen);
      var w := CloneWorkspace(s, id).state.workspaces[|s.workspaces|];
      AppendInv(s, w, CloneFresh(s.workspaces[i].root, s.gen).gen);
    }
  }

  lemma {:induction false} RemoveWorkspaceInv(s: State, id: string)
    requires IdInv(s)
    ensures IdInv(RemoveWorkspace(s, id).state) && (Formed(s) ==> Formed(RemoveWorkspace(s, id).state))
  {
    hide IdsOk, NamesOk, WellFormed, IndexOf;
    var i := IndexOf(s.workspaces, id);
    if |s.workspaces| >= 2 && i < |s.workspaces| {
      FewerIds(s.workspaces, i, s.gen);
      FewerNames(s.workspaces, i, s.wsSeq);
      CurrentStays(s, id);
    }
  }

  lemma {:induction false} FewerIds(ws: seq<Workspace>, i: nat, gen: nat)
    requires IdsOk(ws, gen) && i < |ws|
    ensures IdsOk(ws[..i] + ws[i + 1..], gen)
  {
    hide MintedIn, NodeIds, Occurrences;
    var rest := ws[..i] + ws[i + 1..];
    forall x
      ensures Occurrences(rest, x) <= Occurrences(ws, x)
    {
      OccurrencesWithout(ws, i, x);
    }
  }

  lemma {:induction false} FewerNames(ws: seq<Workspace>, i: nat, wsSeq: nat)
    requires NamesOk(ws, wsSeq) && i < |ws|
    ensures NamesOk(ws[..i] + ws[i + 1..], wsSeq)
  {
    hide NamedUpTo;
  }

  lemma {:induction false} CurrentStays(s: State, id: string)
    requires |s.workspaces| >= 2 && IndexOf(s.workspaces, id) < |s.workspaces|
    requires IndexOf(s.workspaces, s.current) < |s.workspaces|
    ensures var t := RemoveWorkspace(s, id).state; IndexOf(t.workspaces, t.current) < |t.workspaces|
  {
    hide IndexOf;
    var i := IndexOf(s.workspaces, id);
    var rest := s.workspaces[..i] + s.workspaces[i + 1..];
    if s.current != id {
      var c := IndexOf(s.workspaces, s.current);
      assert rest[if c < i then c else c - 1].id == s.current;
    } else {
      assert rest[0].id == rest[0].id;
    }
  }

  lemma {:induction false} RenameWorkspaceInv(s: State, id: string, name: string)
    requires IdInv(s)
    ensures IdInv(RenameWorkspace(s, id, name).state) && (Formed(s) ==> Formed(RenameWorkspace(s, id, name).state))
  {
    hide MintedIn, NamedUpTo, NodeIds, WellFormed;
    var i := IndexOf(s.workspaces, id);
    if i < |s.workspaces| {
      var ws := s.workspaces[i := s.workspaces[i].(name := name)];
      forall x
        ensures Occurrences(ws, x) <= 1 && (Occurrences(ws, x) == 1 ==> MintedIn(x, 0, s.gen))
      {
        OccurrencesWith(s.workspaces, i, s.workspaces[i].(name := name), x);
      }
      SameNamesSameIndex(s.workspaces, ws, s.current);
    }
  }

  // ----- every op, every run ------------------------------------------------

  /**
   While ids are in order a rejected op changes nothing at all, and every op, whatever its direction,
   keeps them so; and it keeps trees well formed exactly when it is rejected or its direction, where it
   has one, is "row" or "col".
   */
  lemma {:induction false} StepIds(s: State, op: Op)
    requires IdInv(s)
    ensures Step(s, op).result.Err? ==> Step(s, op).state == s
    ensures IdInv(Step(s, op).state)
    ensures Formed(s) ==> (Formed(Step(s, op).state) <==> Step(s, op).result.Err? || LegalDir(op))
  {
    hide IdInv, Formed, MintedIn, NodeIds, WellFormed;
    match op {
      case OpMoveLeaf(_, _, _, _) => MoveLeafInv(s, op);
      case OpAddWorkspace(app) => AddWorkspaceInv(s, app);
      case OpRemoveWorkspace(id) => RemoveWorkspaceInv(s, id);
      case OpRenameWorkspace(id, name) => RenameWorkspaceInv(s, id, name);
      case OpCloneWorkspace(id) => CloneWorkspaceInv(s, id);
      case OpSwitchWorkspace(id) => SwitchWorkspaceInv(s, id);
      case OpUnknown(_) =>
      case _ =>
        var where := Resolve(s, op.workspace, op.node);
        if where.Ok? { OnTreeInv(s, where.value, op); }
    }
  }

  /** From a good desktop exactly the rejected ops and those with a legal direction lead to a good one. */
  lemma {:induction false} StepInv(s: State, op: Op)
    requires Inv(s)
    ensures Step(s, op).result.Err? ==> Step(s, op).state == s
    ensures Inv(Step(s, op).state) <==> Step(s, op).result.Err? || LegalDir(op)
  {
    hide IdInv, Formed, Step, LegalDir;
    StepIds(s, op);
  }

  lemma {:induction false} SwitchWorkspaceInv(s: State, id: string)
    requires IdInv(s)
    ensures IdInv(SwitchWorkspace(s, id).state) && (Formed(s) ==> Formed(SwitchWorkspace(s, id).state))
  {
  }

  lemma {:induction false} InitialInv(app: string)
    ensures Inv(Initial(app))
  {
    var s := Initial(app);
    NextNames(0);
    forall x
      ensures Occurrences(s.workspaces, x) <= 1 && (Occurrences(s.workspaces, x) == 1 ==> MintedIn(x, 0, 1))
    {
      assert Occurrences(s.workspaces, x) == NodeIds(s.workspaces[0].root)[x] + Occurrences(s.workspaces[1..], x);
    }
    assert NamedUpTo(WorkspaceName(1), 1);
    assert s.workspaces[0].id == s.current;
  }

  /** A run is its ops applied one after another, a rejected one followed by the next all the same. */
  lemma {:induction false} RunGoesOn(s: State, ops: seq<Op>, op: Op)
    ensures Run(s, []) == s && Run(s, ops + [op]) == Step(Run(s, ops), op).state
    ensures Accepted(s, ops + [op]) == Accepted(s, ops) + if Step(Run(s, ops), op).result.Ok? then [op] else []
    decreases |ops|
  {
    hide Step;
    if ops == [] {
      assert [] + [op] == [op] && [op][1..] == [];
    } else {
      RunGoesOn(Step(s, ops[0]).state, ops[1..], op);
      assert (ops + [op])[1..] == ops[1..] + [op];
    }
  }

  /** Every run at all keeps ids in order. */
  lemma {:induction false} RunIds(s: State, ops: seq<Op>)
    requires IdInv(s)
    ensures IdInv(Run(s, ops))
    decreases |ops|
  {
    hide IdInv, Formed, Step;
    if ops != [] {
      StepIds(s, ops[0]);
      RunIds(Step(s, ops[0]).state, ops[1..]);
    }
  }

  /** Every run of ops with legal directions from a good desktop stays good. */
  lemma {:induction false} RunInv(s: State, ops: seq<Op>)
    requires Inv(s) && forall op | op in ops :: LegalDir(op)
    ensures Inv(Run(s, ops))
    decreases |ops|
  {
    if ops != [] {
      assert ops[0] in ops;
      StepInv(s, ops[0]);
      RunInv(Step(s, ops[0]).state, ops[1..]);
    }
  }

  /** The invariant implies everything the source's Validate checks. */
  lemma {:induction false} InvImpliesValid(s: State)
    requires Inv(s)
    ensures ValidDesktop(s)
  {
    forall i | 0 <= i < |s.workspaces|
      ensures ValidTree(s.workspaces[i].root)
    {
      TreeOk(s, i);
    }
    forall i, j | 0 <= i < j < |s.workspaces|
      ensures TilesApart(s.workspaces[i].root, s.workspaces[j].root)
    {
      TreeOk(s, i);
      LeafIdsPresent(s.workspaces[i].root);
      LeafIdsPresent(s.workspaces[j].root);
    }
  }

  /** So every desktop reachable from a new one by ops with legal directions validates. */
  lemma {:induction false} ReachableIsValid(app: string, ops: seq<Op>)
    requires forall op | op in ops :: LegalDir(op)
    ensures Inv(Run(Initial(app), ops)) && ValidDesktop(Run(Initial(app), ops))
  {
    InitialInv(app);
    RunInv(Initial(app), ops);
    InvImpliesValid(Run(Initial(app), ops));
  }

  /** An accepted op with an unchecked direction leaves a desktop that no longer validates. */
  lemma {:induction false} IllegalDirInvalidates(s: State, op: Op)
    requires Inv(s) && Step(s, op).result.Ok?
    ensures ValidDesktop(Step(s, op).state) <==> LegalDir(op)
  {
    StepInv(s, op);
    if LegalDir(op) {
      InvImpliesValid(Step(s, op).state);
    } else {
      IllegalTree(s, op);
    }
  }

  /** split-leaf accepts any leaf with any direction, so each illegal direction invalidates each good desktop. */
  lemma {:induction false} AnyDirIsAccepted(s: State, i: nat, id: NodeID, dir: Dir, app: string)
    requires Inv(s) && i < |s.workspaces| && HasLeaf(s.workspaces[i].root, id)
    ensures Step(s, OpSplitLeaf(id, "", dir, app)).result.Ok?
    ensures ValidDesktop(Step(s, OpSplitLeaf(id, "", dir, app)).state) <==> Legal(dir)
  {
    hide Inv, Legal, ValidDesktop, Decimal;
    IllegalDirInvalidates(s, OpSplitLeaf(id, "", dir, app));
  }

  /** The first op on a new desktop can do it. */
  lemma {:induction false} FirstOpInvalidates(app: string, text: string)
    ensures var out := Step(Initial(app), OpSplitLeaf(NodeName(1), "", Other(text), ""));
      out.result.Ok? && !ValidDesktop(out.state)
  {
    InitialInv(app);
    AnyDirIsAccepted(Initial(app), 0, NodeName(1), Other(text), "");
  }

  lemma {:induction false} IllegalTree(s: State, op: Op)
    requires Inv(s) && Step(s, op).result.Ok? && !LegalDir(op)
    ensures exists i | 0 <= i < |Step(s, op).state.workspaces| :: !WellFormed(Step(s, op).state.workspaces[i].root)
  {
    var t := Step(s, op).state;
    if op.OpSplitLeaf? {
      var i := Resolve(s, op.workspace, op.node).value;
      TreeOk(s, i);
      SplitLeafIds(s.workspaces[i].root, op.node, op.dir, op.app, s.gen);
      assert !WellFormed(t.workspaces[i].root);
    } else {
      MoveLeafInv(s, op);
      var dst := IndexOf(s.workspaces, op.workspace);
      MoveLeafIllegal(s, op);
      assert !WellFormed(t.workspaces[dst].root);
    }
  }

  lemma {:induction false} MoveLeafIllegal(s: State, op: Op)
    requires Inv(s) && op.OpMoveLeaf? && MoveAllowed(s, op) && !LegalDir(op)
    ensures var dst := IndexOf(s.workspaces, op.workspace);
      dst < |Step(s, op).state.workspaces| && !WellFormed(Step(s, op).state.workspaces[dst].root)
  {
    var src := LeafHome(s.workspaces, op.node);
    var dst := IndexOf(s.workspaces, op.workspace);
    var root := s.workspaces[src].root;
    TreeOk(s, src);
    TreeOk(s, dst);
    FindIffPresent(root, op.node);
    FoundIds(root, op.node);
    MoveLeafSteps(s, op);
    GraftTree(s.workspaces[dst].root, Find(root, op.node).value, op.target, DirOrRow(op.dir),
              Remainder(root, op.node, s.gen).gen);
  }

  // ----- rejected ops -------------------------------------------------------

  /** In every run, replaying just the accepted ops gives the identical desktop, counters included. */
  lemma {:induction false} ReplayAccepted(s: State, ops: seq<Op>)
    requires IdInv(s)
    ensures Run(s, Accepted(s, ops)) == Run(s, ops)
    ensures Accepted(s, Accepted(s, ops)) == Accepted(s, ops)
    decreases |ops|
  {
    hide IdInv, Formed, Step;
    if ops != [] {
      var out := Step(s, ops[0]);
      StepIds(s, ops[0]);
      ReplayAccepted(out.state, ops[1..]);
      var kept := Accepted(out.state, ops[1..]);
      if out.result.Err? {
        assert Accepted(s, ops) == kept;
      } else {
        assert Accepted(s, ops) == [ops[0]] + kept;
        assert ([ops[0]] + kept)[1..] == kept;
      }
    }
  }
}
