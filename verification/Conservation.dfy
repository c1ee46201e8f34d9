/**
 What each op does to the tiles of the whole desktop: which (id, app) pairs go and which come.
 Nothing but close-leaf and remove-workspace ever makes a tile disappear.
 */
module Conservation {
  import opened Wrappers
  import opened Ids
  import opened Tree
  import opened TreeLaws
  import opened Desktop
  import opened DesktopLaws

  function Tiles(n: Node): multiset<Tile> { multiset(Leaves(n)) }

  /** Every tile of every workspace, with multiplicity. */
  function AllTiles(ws: seq<Workspace>): multiset<Tile> {
    if ws == [] then multiset{} else Tiles(ws[0].root) + AllTiles(ws[1..])
  }

  /** out is was less gone and with come, tile by tile. */
  ghost predicate Traded(was: multiset<Tile>, out: multiset<Tile>, gone: multiset<Tile>, come: multiset<Tile>) {
    forall t :: out[t] + gone[t] == was[t] + come[t]
  }

  // ----- one tree -----------------------------------------------------------

  /** The leaf as a tile; its app is empty when there is no such leaf. */
  function TileAt(n: Node, id: NodeID): Tile {
    Tile(id, if Find(n, id).Some? && HasLeaf(n, id) then Find(n, id).value.app else "")
  }

  lemma {:induction false} Spread(l: seq<Tile>, x: seq<Tile>, r: seq<Tile>, t: Tile)
    ensures multiset(l + x + r)[t] == multiset(l)[t] + multiset(x)[t] + multiset(r)[t]
  {
  }

  /** Replacing a stretch of the leaves by another trades just those two stretches. */
  lemma {:induction false} ReplaceOne(was: seq<Tile>, out: seq<Tile>, l: seq<Tile>, x: seq<Tile>, y: seq<Tile>, r: seq<Tile>)
    requires was == l + x + r && out == l + y + r
    ensures Traded(multiset(was), multiset(out), multiset(x), multiset(y))
  {
    forall t ensures multiset(out)[t] + multiset(x)[t] == multiset(was)[t] + multiset(y)[t] {
      Spread(l, x, r, t);
      Spread(l, y, r, t);
    }
  }

  lemma {:induction false} SetAppTrades(n: Node, id: NodeID, app: string)
    requires Distinct(NodeIds(n)) && HasLeaf(n, id)
    ensures Traded(Tiles(n), Tiles(Update(n, id, PutApp(app))), multiset([TileAt(n, id)]), multiset([Tile(id, app)]))
  {
    hide Traded, NodeIds;
    FindIffPresent(n, id);
    var l, r := UpdateLeaves(n, id, PutApp(app));
    ReplaceOne(Leaves(n), Leaves(Update(n, id, PutApp(app))), l, [TileAt(n, id)], [Tile(id, app)], r);
  }

  lemma {:induction false} RatioTradesNothing(n: Node, id: NodeID, ratio: real)
    requires Distinct(NodeIds(n)) && SetRatio(n, id, ratio).Ok?
    ensures Tiles(SetRatio(n, id, ratio).value) == Tiles(n)
  {
    var l, r := UpdateLeaves(n, id, PutRatio(ratio));
  }

  lemma {:induction false} SplitTrades(n: Node, id: NodeID, dir: Dir, app: string, gen: nat)
    requires Distinct(NodeIds(n)) && HasLeaf(n, id)
    ensures SplitLeaf(n, id, dir, app, gen).Ok?
    ensures var out := SplitLeaf(n, id, dir, app, gen).value.tree;
      Traded(Tiles(n), Tiles(out), multiset{}, multiset([Tile(NodeName(gen + 1), app)]))
  {
    hide SplitLeaf, Traded, NodeIds;
    var l, r := SplitLeafOrder(n, id, dir, app, gen);
    var kept, made := TileAt(n, id), Tile(NodeName(gen + 1), app);
    var was, out := Leaves(n), Leaves(SplitLeaf(n, id, dir, app, gen).value.tree);
    assert was == (l + [kept]) + [] + r;
    assert out == (l + [kept]) + [made] + r;
    ReplaceOne(was, out, l + [kept], [], [made], r);
  }

  lemma {:induction false} CloseTrades(n: Node, id: NodeID)
    requires Distinct(NodeIds(n)) && CloseLeaf(n, id).Ok?
    ensures Traded(Tiles(n), Tiles(CloseLeaf(n, id).value), multiset([TileAt(n, id)]), multiset{})
  {
    hide Traded, NodeIds;
    FindIffPresent(n, id);
    var l, r := RemoveLeaves(n, id);
    assert l + [] + r == l + r;
    ReplaceOne(Leaves(n), Leaves(RemoveLeaf(n, id)), l, [TileAt(n, id)], [], r);
  }

  lemma {:induction false} TradeThen(a: multiset<Tile>, b: multiset<Tile>, c: multiset<Tile>,
                                     gone: multiset<Tile>, come: multiset<Tile>, gone': multiset<Tile>, come': multiset<Tile>)
    requires Traded(a, b, gone, come) && Traded(b, c, gone', come')
    ensures Traded(a, c, gone + gone', come + come')
  {
  }

  lemma {:induction false} SwapTrades(n: Node, a: NodeID, b: NodeID)
    requires Distinct(NodeIds(n)) && HasLeaf(n, a) && HasLeaf(n, b) && a != b
    ensures var appA, appB := TileAt(n, a).app, TileAt(n, b).app;
      Traded(Tiles(n), Tiles(SwapLeaves(n, a, b).value),
             multiset([TileAt(n, a)]) + multiset([TileAt(n, b)]), multiset([Tile(a, appB)]) + multiset([Tile(b, appA)]))
  {
    hide Traded, NodeIds, Tiles;
    var appA, appB := TileAt(n, a).app, TileAt(n, b).app;
    var half := Update(n, a, PutApp(appB));
    FindIffPresent(n, a);
    FindIffPresent(n, b);
    SetAppTrades(n, a, appB);
    PutAppLeaves(n, a, appB);
    PutAppFinds(n, a, appB, b);
    SetAppTrades(half, b, appA);
    TradeThen(Tiles(n), Tiles(half), Tiles(Update(half, b, PutApp(appA))),
              multiset([TileAt(n, a)]), multiset([Tile(a, appB)]), multiset([TileAt(half, b)]), multiset([Tile(b, appA)]));
  }

  lemma {:induction false} SwapSameTrades(n: Node, a: NodeID)
    requires Distinct(NodeIds(n)) && HasLeaf(n, a)
    ensures Tiles(SwapLeaves(n, a, a).value) == Tiles(n)
  {
    PutAppTwice(n, a, TileAt(n, a).app, TileAt(n, a).app);
    FindIffPresent(n, a);
  }

  // ----- the whole desktop --------------------------------------------------

  lemma {:induction false} AllTilesWith(ws: seq<Workspace>, i: nat, w: Workspace)
    requires i < |ws|
    ensures Traded(AllTiles(ws), AllTiles(ws[i := w]), Tiles(ws[i].root), Tiles(w.root))
  {
    hide Tiles;
    if i == 0 {
      assert ws[i := w][1..] == ws[1..];
    } else {
      AllTilesWith(ws[1..], i - 1, w);
      assert ws[i := w][1..] == ws[1..][i - 1 := w];
    }
  }

  lemma {:induction false} AllTilesConcat(xs: seq<Workspace>, ys: seq<Workspace>)
    ensures AllTiles(xs + ys) == AllTiles(xs) + AllTiles(ys)
  {
    hide Tiles;
    if xs != [] {
      AllTilesConcat(xs[1..], ys);
      assert (xs + ys)[1..] == xs[1..] + ys;
    } else {
      assert xs + ys == ys;
    }
  }

  lemma {:induction false} AllTilesOfOne(w: Workspace)
    ensures AllTiles([w]) == Tiles(w.root)
  {
  }

  lemma {:induction false} TradeInTree(s: State, i: nat, root: Node, gen: nat, gone: multiset<Tile>, come: multiset<Tile>)
    requires i < |s.workspaces| && Traded(Tiles(s.workspaces[i].root), Tiles(root), gone, come)
    ensures Traded(AllTiles(s.workspaces), AllTiles(WithRoot(s, i, root, gen).workspaces), gone, come)
  {
    hide Tiles, AllTiles;
    var w := s.workspaces[i].(root := root);
    AllTilesWith(s.workspaces, i, w);
    var all, after := AllTiles(s.workspaces), AllTiles(s.workspaces[i := w]);
    var was, out := Tiles(s.workspaces[i].root), Tiles(root);
    forall t ensures after[t] + gone[t] == all[t] + come[t] {
      assert after[t] + was[t] == all[t] + out[t];
      assert out[t] + gone[t] == was[t] + come[t];
    }
  }

  /** The workspace an op on one tree works on. */
  function Where(s: State, op: Op): nat
    requires OnOneTree(op) && Resolve(s, op.workspace, op.node).Ok?
  {
    Resolve(s, op.workspace, op.node).value
  }

  function RootAt(s: State, op: Op): Node
    requires OnOneTree(op) && Resolve(s, op.workspace, op.node).Ok?
  {
    s.workspaces[Where(s, op)].root
  }

  /** The tiles an accepted op takes away. */
  function Gone(s: State, op: Op): multiset<Tile>
    requires Step(s, op).result.Ok?
  {
    match op
    case OpCloseLeaf(node, _) => multiset([TileAt(RootAt(s, op), node)])
    case OpSetLeafApp(node, _, _) => multiset([TileAt(RootAt(s, op), node)])
    case OpSwapLeaves(node, _, target) =>
      if node == target then multiset{}
      else multiset([TileAt(RootAt(s, op), node)]) + multiset([TileAt(RootAt(s, op), target)])
    case OpRemoveWorkspace(id) => Tiles(s.workspaces[IndexOf(s.workspaces, id)].root)
    case _ => multiset{}
  }

  /** The tiles it brings. */
  function Come(s: State, op: Op): multiset<Tile>
    requires Step(s, op).result.Ok?
  {
    match op
    case OpSplitLeaf(_, _, _, app) => multiset([Tile(NodeName(s.gen + 1), app)])
    case OpSetLeafApp(node, _, app) => multiset([Tile(node, app)])
    case OpSwapLeaves(node, _, target) =>
      if node == target then multiset{}
      else multiset([Tile(node, TileAt(RootAt(s, op), target).app)]) + multiset([Tile(target, TileAt(RootAt(s, op), node).app)])
    case OpMoveLeaf(node, _, _, _) =>
      if s.workspaces[LeafHome(s.workspaces, node)].root.Leaf? then multiset([Tile(NodeName(s.gen + 1), "")]) else multiset{}
    case OpAddWorkspace(app) => multiset([Tile(NodeName(s.gen + 1), app)])
    case OpCloneWorkspace(id) => Tiles(CloneFresh(s.workspaces[IndexOf(s.workspaces, id)].root, s.gen).tree)
    case _ => multiset{}
  }

  lemma {:induction false} TreeOpTrades(s: State, op: Op)
    requires IdInv(s) && OnOneTree(op) && Step(s, op).result.Ok?
    ensures Traded(AllTiles(s.workspaces), AllTiles(Step(s, op).state.workspaces), Gone(s, op), Come(s, op))
  {
    hide IdInv, Tiles, AllTiles, NodeIds, Traded, SplitLeaf, CloseLeaf, SetRatio, SwapLeaves, MoveSplit, TileAt;
    var i, root := Where(s, op), RootAt(s, op);
    TreeOk(s, i);
    match op {
      case OpSplitLeaf(node, _, dir, app) =>
        SplitNeedsLeaf(root, node, dir, app, s.gen);
        SplitTrades(root, node, dir, app, s.gen);
        var out := SplitLeaf(root, node, dir, app, s.gen).value;
        TradeInTree(s, i, out.tree, out.gen, Gone(s, op), Come(s, op));
      case OpCloseLeaf(node, _) =>
        CloseTrades(root, node);
        TradeInTree(s, i, CloseLeaf(root, node).value, s.gen, Gone(s, op), Come(s, op));
      case OpSetRatio(node, _, ratio) =>
        RatioTradesNothing(root, node, ratio);
        SameTiles(Tiles(root));
        TradeInTree(s, i, SetRatio(root, node, ratio).value, s.gen, multiset{}, multiset{});
      case OpSetLeafApp(node, _, app) =>
        SetAppTrades(root, node, app);
        TradeInTree(s, i, SetLeafApp(root, node, app).value, s.gen, Gone(s, op), Come(s, op));
      case OpSwapLeaves(node, _, target) =>
        SwapNeedsLeaves(root, node, target);
        if node == target {
          SwapSameTrades(root, node);
          SameTiles(Tiles(root));
        } else {
          SwapTrades(root, node, target);
        }
        TradeInTree(s, i, SwapLeaves(root, node, target).value, s.gen, Gone(s, op), Come(s, op));
      case OpMoveSplit(node, _, target, zone) =>
        MoveKeepsTiles(root, node, target, zone, s.gen);
        SameTiles(Tiles(root));
        var out := MoveSplit(root, node, target, zone, s.gen).value;
        TradeInTree(s, i, out.tree, out.gen, multiset{}, multiset{});
    }
  }

  lemma {:induction false} SplitNeedsLeaf(n: Node, id: NodeID, dir: Dir, app: string, gen: nat)
    requires SplitLeaf(n, id, dir, app, gen).Ok?
    ensures HasLeaf(n, id)
  {
  }

  lemma {:induction false} SwapNeedsLeaves(n: Node, a: NodeID, b: NodeID)
    requires SwapLeaves(n, a, b).Ok?
    ensures HasLeaf(n, a) && HasLeaf(n, b)
  {
  }

  lemma {:induction false} SameTiles(ts: multiset<Tile>)
    ensures Traded(ts, ts, multiset{}, multiset{})
  {
  }

  lemma {:induction false} MoveKeepsTiles(n: Node, from: NodeID, target: NodeID, zone: Zone, gen: nat)
    requires Distinct(NodeIds(n)) && MoveSplit(n, from, target, zone, gen).Ok?
    ensures Tiles(MoveSplit(n, from, target, zone, gen).value.tree) == Tiles(n)
  {
    var _, _, _, _ := MoveSplitRelocates(n, from, target, zone, gen);
  }

  /** Moving a tile to another workspace moves just that tile, and fills a workspace it leaves empty. */
  lemma {:induction false} MoveLeafTrades(s: State, op: Op)
    requires IdInv(s) && op.OpMoveLeaf? && Step(s, op).result.Ok?
    ensures Traded(AllTiles(s.workspaces), AllTiles(Step(s, op).state.workspaces), Gone(s, op), Come(s, op))
  {
    hide IdInv, Formed, Tiles, AllTiles, NodeIds, Departed, Joined, Step, Traded;
    MoveLeafInv(s, op);
    var t := Step(s, op).state;
    var src := LeafHome(s.workspaces, op.node);
    var dst := IndexOf(s.workspaces, op.workspace);
    var leaf := Find(s.workspaces[src].root, op.node).value;
    var tile := Tile(leaf.id, leaf.app);
    DepartedTiles(s.workspaces[src].root, t.workspaces[src].root, tile, s.gen);
    JoinedTiles(s.workspaces[dst].root, t.workspaces[dst].root, leaf, op.target);
    var lifted := s.workspaces[src := t.workspaces[src]];
    AllTilesWith(s.workspaces, src, t.workspaces[src]);
    AllTilesWith(lifted, dst, t.workspaces[dst]);
    assert t.workspaces == lifted[dst := t.workspaces[dst]];
    TradesCancel(AllTiles(s.workspaces), AllTiles(lifted), AllTiles(t.workspaces),
                 Tiles(s.workspaces[src].root), Tiles(t.workspaces[src].root),
                 Tiles(s.workspaces[dst].root), Tiles(t.workspaces[dst].root), multiset([tile]), Come(s, op));
  }

  /** A tile that leaves one tree and joins another cancels out over the whole. */
  lemma {:induction false} TradesCancel(all: multiset<Tile>, lifted: multiset<Tile>, after: multiset<Tile>,
                                        src: multiset<Tile>, src': multiset<Tile>, dst: multiset<Tile>, dst': multiset<Tile>,
                                        moved: multiset<Tile>, come: multiset<Tile>)
    requires Traded(all, lifted, src, src') && Traded(lifted, after, dst, dst')
    requires Traded(src, src', moved, come) && Traded(dst, dst', multiset{}, moved)
    ensures Traded(all, after, multiset{}, come)
  {
    forall t ensures after[t] == all[t] + come[t] {
      assert lifted[t] + src[t] == all[t] + src'[t];
      assert after[t] + dst[t] == lifted[t] + dst'[t];
      assert src'[t] + moved[t] == src[t] + come[t];
      assert dst'[t] == dst[t] + moved[t];
    }
  }

  lemma {:induction false} DepartedTiles(was: Node, out: Node, tile: Tile, gen: nat)
    requires Departed(was, out, tile, gen)
    ensures Traded(Tiles(was), Tiles(out), multiset([tile]),
                   if was.Leaf? then multiset([Tile(NodeName(gen + 1), "")]) else multiset{})
  {
    hide Traded;
    if was.Leaf? {
      var fill := [Tile(NodeName(gen + 1), "")];
      assert [] + [tile] + [] == [tile] && [] + fill + [] == fill;
      ReplaceOne(Leaves(was), Leaves(out), [], [tile], fill, []);
    } else {
      var l, r :| Leaves(was) == l + [tile] + r && Leaves(out) == l + r;
      assert l + [] + r == l + r;
      ReplaceOne(Leaves(was), Leaves(out), l, [tile], [], r);
    }
  }

  lemma {:induction false} JoinedTiles(was: Node, out: Node, moved: Node, target: NodeID)
    requires moved.Leaf? && Joined(was, out, moved, target)
    ensures Traded(Tiles(was), Tiles(out), multiset{}, multiset([Tile(moved.id, moved.app)]))
  {
    hide Traded, Leaves;
    var tile := Tile(moved.id, moved.app);
    if target == "" {
      JoinsAfter(Leaves(was), Leaves(out), Leaves(was), [], tile);
    } else {
      var l, r, app :| Leaves(was) == l + [Tile(target, app)] + r && Leaves(out) == l + [Tile(target, app), tile] + r;
      Apart(l, Tile(target, app), tile, r);
      JoinsAfter(Leaves(was), Leaves(out), l + [Tile(target, app)], r, tile);
    }
  }

  lemma {:induction false} Apart(l: seq<Tile>, x: Tile, y: Tile, r: seq<Tile>)
    ensures l + [x, y] + r == l + [x] + [y] + r
  {
  }

  lemma {:induction false} JoinsAfter(was: seq<Tile>, out: seq<Tile>, l: seq<Tile>, r: seq<Tile>, tile: Tile)
    requires was == l + r && out == l + [tile] + r
    ensures Traded(multiset(was), multiset(out), multiset{}, multiset([tile]))
  {
    hide Traded;
    assert l + [] + r == l + r;
    ReplaceOne(was, out, l, [], [tile], r);
  }

  /** Appending a workspace brings its tiles, and taking one out takes them. */
  lemma {:induction false} AppendedTiles(ws: seq<Workspace>, w: Workspace)
    ensures Traded(AllTiles(ws), AllTiles(ws + [w]), multiset{}, Tiles(w.root))
  {
    hide Tiles;
    AllTilesConcat(ws, [w]);
    AllTilesOfOne(w);
  }

  lemma {:induction false} TakenOutTiles(ws: seq<Workspace>, i: nat)
    requires i < |ws|
    ensures Traded(AllTiles(ws), AllTiles(ws[..i] + ws[i + 1..]), Tiles(ws[i].root), multiset{})
  {
    hide Tiles, AllTiles;
    assert ws == (ws[..i] + [ws[i]]) + ws[i + 1..];
    AllTilesConcat(ws[..i] + [ws[i]], ws[i + 1..]);
    AllTilesConcat(ws[..i], [ws[i]]);
    AllTilesOfOne(ws[i]);
    AllTilesConcat(ws[..i], ws[i + 1..]);
  }

  /** What each op does to the tiles of the desktop, for all twelve. */
  lemma {:induction false} TilesAreTraded(s: State, op: Op)
    requires IdInv(s) && Step(s, op).result.Ok?
    ensures Traded(AllTiles(s.workspaces), AllTiles(Step(s, op).state.workspaces), Gone(s, op), Come(s, op))
  {
    hide IdInv, Tiles, AllTiles, Traded, Resolve, OnTree, MoveLeaf, CloneFresh, Decimal;
    match op {
      case OpMoveLeaf(_, _, _, _) => MoveLeafTrades(s, op);
      case OpAddWorkspace(app) =>
        var w := Step(s, op).state.workspaces[|s.workspaces|];
        AppendedTiles(s.workspaces, w);
        LeafTiles(w.root);
      case OpCloneWorkspace(id) => AppendedTiles(s.workspaces, Step(s, op).state.workspaces[|s.workspaces|]);
      case OpRemoveWorkspace(id) => TakenOutTiles(s.workspaces, IndexOf(s.workspaces, id));
      case OpRenameWorkspace(id, name) =>
        AllTilesIgnoreNames(s.workspaces, IndexOf(s.workspaces, id), name);
        SameTiles(AllTiles(s.workspaces));
      case OpSwitchWorkspace(_) => SameTiles(AllTiles(s.workspaces));
      case OpUnknown(_) =>
      case _ => TreeOpTrades(s, op);
    }
  }

  lemma {:induction false} AllTilesIgnoreNames(ws: seq<Workspace>, i: nat, name: string)
    requires i < |ws|
    ensures AllTiles(ws[i := ws[i].(name := name)]) == AllTiles(ws)
  {
    hide Tiles;
    var w := ws[i].(name := name);
    if i == 0 {
      assert ws[i := w][1..] == ws[1..];
    } else {
      AllTilesIgnoreNames(ws[1..], i - 1, name);
      assert ws[i := w][1..] == ws[1..][i - 1 := w];
    }
  }

  lemma {:induction false} LeafTiles(n: Node)
    requires n.Leaf?
    ensures Tiles(n) == multiset([Tile(n.id, n.app)])
  {
  }

  // ----- runs that close nothing --------------------------------------------

  /** Some workspace shows a tile with this id. */
  ghost predicate Shown(s: State, id: NodeID) { exists t :: t in AllTiles(s.workspaces) && t.id == id }

  predicate Closes(op: Op) { op.OpCloseLeaf? || op.OpRemoveWorkspace? }

  lemma {:induction false} StepShows(s: State, op: Op, id: NodeID)
    requires IdInv(s) && Shown(s, id) && !Closes(op)
    ensures Shown(Step(s, op).state, id)
  {
    hide IdInv, Formed, Tiles, AllTiles, Step, Gone, Come;
    StepIds(s, op);
    if Step(s, op).result.Ok? {
      TilesAreTraded(s, op);
      var t :| t in AllTiles(s.workspaces) && t.id == id;
      var out := AllTiles(Step(s, op).state.workspaces);
      if t !in out {
        assert Gone(s, op)[t] > Come(s, op)[t];
        var u := GoneComesBack(s, op, t);
        assert u in out;
      }
    }
  }

  /** A tile taken away by an op that closes nothing comes back under its id. */
  lemma {:induction false} GoneComesBack(s: State, op: Op, t: Tile) returns (u: Tile)
    requires Step(s, op).result.Ok? && !Closes(op) && Gone(s, op)[t] > Come(s, op)[t]
    ensures u.id == t.id && Come(s, op)[u] > Gone(s, op)[u]
  {
    hide OnTree, MoveLeaf, AddWorkspace, RemoveWorkspace, RenameWorkspace, CloneWorkspace, RootAt, Tiles;
    var other := if op.OpSwapLeaves? then TileAt(RootAt(s, op), if t.id == op.node then op.target else op.node).app
                 else if op.OpSetLeafApp? then op.app else "";
    u := Tile(t.id, other);
  }

  /** Whatever is done to a desktop short of closing tiles or workspaces, every tile stays somewhere on it. */
  lemma {:induction false} NoTileIsLost(s: State, ops: seq<Op>, id: NodeID)
    requires IdInv(s) && Shown(s, id) && forall op | op in ops :: !Closes(op)
    ensures Shown(Run(s, ops), id)
    decreases |ops|
  {
    hide IdInv, Formed, Shown, Step;
    if ops != [] {
      assert ops[0] in ops;
      StepIds(s, ops[0]);
      StepShows(s, ops[0], id);
      NoTileIsLost(Step(s, ops[0]).state, ops[1..], id);
    }
  }

  // ----- workspaces, in order ------------------------------------------------

  datatype Tab = Tab(id: string, name: string)

  /** The workspaces as the bar shows them. */
  function Tabs(ws: seq<Workspace>): seq<Tab> {
    seq(|ws|, i requires 0 <= i < |ws| => Tab(ws[i].id, ws[i].name))
  }

  predicate OnBar(op: Op) { !OnOneTree(op) && !op.OpMoveLeaf? }

  /** When an op on the bar is accepted, on any desktop: if the workspace it names exists, and is not the last to go. */
  lemma {:induction false} BarOpAccepted(s: State, op: Op)
    requires OnBar(op)
    ensures Step(s, op).result.Ok? <==>
      match op
      case OpAddWorkspace(_) => true
      case OpRemoveWorkspace(id) => |s.workspaces| > 1 && exists w | w in s.workspaces :: w.id == id
      case OpRenameWorkspace(id, _) => exists w | w in s.workspaces :: w.id == id
      case OpCloneWorkspace(id) => exists w | w in s.workspaces :: w.id == id
      case OpSwitchWorkspace(id) => exists w | w in s.workspaces :: w.id == id
      case _ => false
  {
    hide Decimal, CloneFresh;
    if !op.OpAddWorkspace? && !op.OpUnknown? {
      var i := IndexOf(s.workspaces, op.workspace);
      if i < |s.workspaces| { assert s.workspaces[i] in s.workspaces; }
    }
  }

  /** A new desktop: one workspace, ws-1, with one tile, and the next ids are the second of their kinds. */
  lemma {:induction false} NewDesktop(app: string)
    ensures var s := Initial(app);
      && Tabs(s.workspaces) == [Tab("ws1", "ws-1")] && s.current == "ws1"
      && AllTiles(s.workspaces) == multiset{Tile("n1", app)}
      && Step(s, OpAddWorkspace(app)).result == Ok(Report("", "ws2"))
      && Step(s, OpSplitLeaf("n1", "", Row, app)).result == Ok(Report("n2", ""))
  {
    var s := Initial(app);
    assert Decimal(1) == "1" && Decimal(2) == "2";
    assert "n" + "1" == "n1" && "n" + "2" == "n2" && "ws" + "1" == "ws1" && "ws" + "2" == "ws2";
    assert LeafHome(s.workspaces, "n1") == 0;
  }

  /** A new workspace is last, has an id nobody has, and is current and reported. */
  lemma {:induction false} AddedIsCurrent(s: State, app: string)
    requires IdInv(s)
    ensures var out := Step(s, OpAddWorkspace(app));
      var id := WorkspaceName(s.wsSeq + 1);
      && out.result == Ok(Report("", id)) && out.state.current == id
      && (forall w | w in s.workspaces :: w.id != id)
      && Tabs(out.state.workspaces) == Tabs(s.workspaces) + [Tab(id, "ws-" + Decimal(|s.workspaces| + 1))]
  {
    hide IdInv, Decimal;
    FreshTab(s);
  }

  /** A clone is last and current, under a new id and the primed name, and has the original's shape and apps. */
  lemma {:induction false} CloneIsCurrent(s: State, id: string)
    requires IdInv(s) && IndexOf(s.workspaces, id) < |s.workspaces|
    ensures var out := Step(s, OpCloneWorkspace(id));
      var original := s.workspaces[IndexOf(s.workspaces, id)];
      var copy := WorkspaceName(s.wsSeq + 1);
      && out.result == Ok(Report("", copy)) && out.state.current == copy
      && (forall w | w in s.workspaces :: w.id != copy)
      && Tabs(out.state.workspaces) == Tabs(s.workspaces) + [Tab(copy, original.name + "'")]
      && out.state.workspaces[..|s.workspaces|] == s.workspaces
      && |out.state.workspaces| == |s.workspaces| + 1
      && Erase(out.state.workspaces[|s.workspaces|].root) == Erase(original.root)
  {
    hide IdInv, Decimal, CloneFresh;
    FreshTab(s);
    CloneIsFreshCopy(s.workspaces[IndexOf(s.workspaces, id)].root, s.gen);
  }

  /** Removing a workspace keeps the others, in order; if it was current the first of them becomes current. */
  lemma {:induction false} RemovedIsGone(s: State, id: string)
    requires IdInv(s)
    ensures var out := Step(s, OpRemoveWorkspace(id));
      && (out.result.Ok? <==> |s.workspaces| > 1 && exists w | w in s.workspaces :: w.id == id)
      && (out.result.Ok? ==>
            && (var i := IndexOf(s.workspaces, id);
                i < |s.workspaces| && out.state.workspaces == s.workspaces[..i] + s.workspaces[i + 1..])
            && (forall w :: w in out.state.workspaces <==> w in s.workspaces && w.id != id)
            && out.state.current == if s.current == id then out.state.workspaces[0].id else s.current)
  {
    hide WellFormed, IdsOk, NamedUpTo, Decimal;
    var i := IndexOf(s.workspaces, id);
    if i < |s.workspaces| {
      assert s.workspaces[i] in s.workspaces;
      var rest := s.workspaces[..i] + s.workspaces[i + 1..];
      forall w
        ensures w in rest <==> w in s.workspaces && w.id != id
      {
        if w in s.workspaces && w.id != id {
          var j :| 0 <= j < |s.workspaces| && s.workspaces[j] == w;
          assert rest[if j < i then j else j - 1] == w;
        }
      }
    }
  }

  /** Every other op keeps the bar and the current workspace, but for the one name or the switch it is for. */
  lemma {:induction false} BarStays(s: State, op: Op)
    requires IdInv(s) && Step(s, op).result.Ok?
    requires !op.OpAddWorkspace? && !op.OpCloneWorkspace? && !op.OpRemoveWorkspace?
    ensures var t := Step(s, op).state;
      && Step(s, op).result.value.newWorkspace == ""
      && t.current == (if op.OpSwitchWorkspace? then op.workspace else s.current)
      && Tabs(t.workspaces) == (if op.OpRenameWorkspace? && IndexOf(s.workspaces, op.workspace) < |s.workspaces|
                                then Tabs(s.workspaces)[IndexOf(s.workspaces, op.workspace) := Tab(op.workspace, op.name)]
                                else Tabs(s.workspaces))
  {
    hide IdInv, SplitLeaf, CloseLeaf, SetRatio, SetLeafApp, SwapLeaves, MoveSplit, MoveLeaf, Resolve, Decimal;
    if op.OpMoveLeaf? { MoveLeafTabs(s, op); }
  }

  lemma {:induction false} MoveLeafTabs(s: State, op: Op)
    requires IdInv(s) && op.OpMoveLeaf? && Step(s, op).result.Ok?
    ensures Tabs(Step(s, op).state.workspaces) == Tabs(s.workspaces) && Step(s, op).state.current == s.current
    ensures Step(s, op).result.value.newWorkspace == ""
  {
    hide IdInv, GraftLeaf, DetachLeaf;
  }

  lemma {:induction false} FreshTab(s: State)
    requires IdInv(s)
    ensures forall w | w in s.workspaces :: w.id != WorkspaceName(s.wsSeq + 1)
  {
    hide Decimal;
    forall w | w in s.workspaces
      ensures w.id != WorkspaceName(s.wsSeq + 1)
    {
      var k: nat :| 0 < k <= s.wsSeq && w.id == WorkspaceName(k);
      if w.id == WorkspaceName(s.wsSeq + 1) { PrintedIdsDiffer(WORKSPACE_PREFIX, k, s.wsSeq + 1); }
    }
  }

  /** The leaf an op reports is a tile that came, and the op reports one exactly if it split a leaf or emptied a workspace. */
  lemma {:induction false} ReportedLeafCame(s: State, op: Op)
    requires IdInv(s) && Step(s, op).result.Ok?
    ensures var leaf := Step(s, op).result.value.newLeaf;
      && (leaf != "" <==> op.OpSplitLeaf? || (op.OpMoveLeaf? && Come(s, op) != multiset{}))
      && (leaf != "" ==> exists app :: Come(s, op) == multiset([Tile(leaf, app)]))
  {
    hide IdInv, Decimal, GraftLeaf, DetachLeaf, SplitLeaf, CloseLeaf, SetRatio, SwapLeaves, MoveSplit, CloneFresh, Tiles;
    if op.OpSplitLeaf? {
      assert Come(s, op) == multiset([Tile(NodeName(s.gen + 1), op.app)]);
    } else if op.OpMoveLeaf? {
      var fill := multiset([Tile(NodeName(s.gen + 1), "")]);
      assert Tile(NodeName(s.gen + 1), "") in fill;
    }
  }
}
