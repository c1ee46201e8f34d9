/** What the mutations of a tree keep, undo and conserve. */
module TreeLaws {
  import opened Wrappers
  import opened Ids
  import opened Tree

  /** A tree with its ids forgotten; also the form of a layout recipe. */
  datatype Shape =
    | LeafShape(app: string)
    | SplitShape(dir: Dir, ratio: real, a: Shape, b: Shape)

  function Erase(n: Node): Shape {
    if n.Leaf? then LeafShape(n.app) else SplitShape(n.dir, n.ratio, Erase(n.a), Erase(n.b))
  }

  /** x is the name of a counter value in (lo, hi]. */
  ghost predicate MintedIn(x: NodeID, lo: nat, hi: nat) {
    exists k: nat :: lo < k <= hi && x == NodeName(k)
  }

  /** No id of the tree was minted after gen. */
  ghost predicate MintedUpTo(ids: multiset<NodeID>, gen: nat) {
    forall x :: x in ids ==> MintedIn(x, 0, gen)
  }

  lemma {:induction false} FreshIsAbsent(ids: multiset<NodeID>, gen: nat, k: nat)
    requires MintedUpTo(ids, gen) && gen < k
    ensures NodeName(k) !in ids
  {
    if NodeName(k) in ids {
      var j: nat :| 0 < j <= gen && NodeName(k) == NodeName(j);
      PrintedIdsDiffer(NODE_PREFIX, j, k);
    }
  }

  lemma {:induction false} MintedNameNotEmpty(x: NodeID, lo: nat, hi: nat)
    requires MintedIn(x, lo, hi)
    ensures x != ""
  {
  }

  /** Everything split-leaf does to the ids: two fresh ones, one for the leaf and one for its parent. */
  lemma {:induction false} SplitLeafIds(root: Node, id: NodeID, dir: Dir, app: string, gen: nat)
    requires Distinct(NodeIds(root)) && HasLeaf(root, id)
    ensures SplitLeaf(root, id, dir, app, gen)
         == Ok(Minted(Update(root, id, PutDock(NodeName(gen + 2), dir, Leaf(NodeName(gen + 1), app), false)), gen + 2))
    ensures var out := SplitLeaf(root, id, dir, app, gen).value.tree;
      && NodeIds(out) == NodeIds(root) + multiset{NodeName(gen + 1)} + multiset{NodeName(gen + 2)}
      && (WellFormed(root) ==> (WellFormed(out) <==> Legal(dir)))
  {
    var other := Leaf(NodeName(gen + 1), app);
    FindIffPresent(root, id);
    FoundIds(root, id);
    DockMintsOnce(root, id, dir, other, false, gen + 1);
    var others := UpdateIds(root, id, PutDock(NodeName(gen + 2), dir, other, false));
  }

  /** The new leaf stands directly after the leaf that was split. */
  lemma {:induction false} SplitLeafOrder(root: Node, id: NodeID, dir: Dir, app: string, gen: nat)
      returns (left: seq<Tile>, right: seq<Tile>)
    requires Distinct(NodeIds(root)) && HasLeaf(root, id)
    ensures var split := Tile(id, Find(root, id).value.app);
      && SplitLeaf(root, id, dir, app, gen).Ok?
      && Leaves(root) == left + [split] + right
      && Leaves(SplitLeaf(root, id, dir, app, gen).value.tree) == left + [split, Tile(NodeName(gen + 1), app)] + right
  {
    SplitLeafIds(root, id, dir, app, gen);
    FindIffPresent(root, id);
    left, right := UpdateLeaves(root, id, PutDock(NodeName(gen + 2), dir, Leaf(NodeName(gen + 1), app), false));
  }

  lemma {:induction false} RemoveUndoesDock(n: Node, id: NodeID, split: NodeID, dir: Dir, other: Node)
    requires Distinct(NodeIds(n)) && HasLeaf(n, id)
    requires other.Leaf? && other.id !in NodeIds(n) && split != other.id
    ensures RemoveLeaf(Update(n, id, PutDock(split, dir, other, false)), other.id) == n
  {
    var f := PutDock(split, dir, other, false);
    if n.id != id {
      SearchSide(n, id);
      if Find(n.a, id).Some? {
        RemoveUndoesDock(n.a, id, split, dir, other);
        UpdateAbsent(n.b, id, f);
        RemoveAbsent(n.b, other.id);
      } else {
        RemoveUndoesDock(n.b, id, split, dir, other);
        UpdateAbsent(n.a, id, f);
        RemoveAbsent(n.a, other.id);
      }
    }
  }

  /** Closing the leaf a split created gives back the tree that was split. */
  lemma {:induction false} CloseUndoesSplit(root: Node, id: NodeID, dir: Dir, app: string, gen: nat)
    requires Distinct(NodeIds(root)) && MintedUpTo(NodeIds(root), gen) && HasLeaf(root, id)
    ensures var split := SplitLeaf(root, id, dir, app, gen);
      split.Ok? && CloseLeaf(split.value.tree, NodeName(gen + 1)) == Ok(root)
  {
    var added := Leaf(NodeName(gen + 1), app);
    SplitLeafIds(root, id, dir, app, gen);
    var out := SplitLeaf(root, id, dir, app, gen).value.tree;
    FreshIsAbsent(NodeIds(root), gen, gen + 1);
    if NodeName(gen + 1) == NodeName(gen + 2) { PrintedIdsDiffer(NODE_PREFIX, gen + 1, gen + 2); }
    RemoveUndoesDock(root, id, NodeName(gen + 2), dir, added);
    DockedIsFound(root, id, NodeName(gen + 2), dir, added);
    FindIffPresent(root, added.id);
    assert CloseLeaf(out, added.id) == Ok(root);
  }

  lemma {:induction false} DockedIsFound(n: Node, id: NodeID, split: NodeID, dir: Dir, other: Node)
    requires Distinct(NodeIds(n)) && HasLeaf(n, id)
    requires other.Leaf? && other.id !in NodeIds(n) && split != other.id
    ensures Find(Update(n, id, PutDock(split, dir, other, false)), other.id) == Some(other)
    ensures Update(n, id, PutDock(split, dir, other, false)).Split?
  {
    var f := PutDock(split, dir, other, false);
    FindIffPresent(n, other.id);
    if n.id != id {
      SearchSide(n, id);
      if Find(n.a, id).Some? {
        DockedIsFound(n.a, id, split, dir, other);
      } else {
        UpdateAbsent(n.a, id, f);
        DockedIsFound(n.b, id, split, dir, other);
      }
    }
  }

  /**
   A move takes the leaf out of its place and puts it, id and app unchanged, directly
   before the target for left and top and directly after it otherwise; no other leaf moves.
   */
  lemma {:induction false} MoveSplitRelocates(root: Node, from: NodeID, target: NodeID, zone: Zone, gen: nat)
      returns (l: seq<Tile>, r: seq<Tile>, before: seq<Tile>, after: seq<Tile>)
    requires Distinct(NodeIds(root)) && HasLeaf(root, from) && HasLeaf(root, target) && from != target
    ensures MoveSplit(root, from, target, zone, gen).Ok?
    ensures var out := MoveSplit(root, from, target, zone, gen).value.tree;
      var moved := Tile(from, Find(root, from).value.app);
      var kept := Tile(target, Find(root, target).value.app);
      && Leaves(root) == l + [moved] + r
      && Leaves(RemoveLeaf(root, from)) == l + r == before + [kept] + after
      && Leaves(out) == before + (if ZoneBefore(zone) then [moved, kept] else [kept, moved]) + after
      && multiset(Leaves(out)) == multiset(Leaves(root))
  {
    var parent := MoveSplitIds(root, from, target, zone, gen);
    FindIffPresent(root, from);
    l, r := RemoveLeaves(root, from);
    before, after := DockOrder(RemoveLeaf(root, from), target, ZoneDir(zone), Find(root, from).value, ZoneBefore(zone), gen);
    FindIffPresent(root, target);
    Repositioned(l, r, Tile(from, Find(root, from).value.app), before, Tile(target, Find(root, target).value.app), after);
  }

  /** On any tree, ids doubled or not: what was closed is gone. */
  lemma {:induction false} ClosedIsGone(n: Node, id: NodeID)
    ensures CloseLeaf(n, id).Ok? ==> n.Split? && HasLeaf(n, id) && !HasLeaf(CloseLeaf(n, id).value, id)
  {
  }

  /** Docking a leaf at a target puts it directly before or directly after the target. */
  lemma {:induction false} DockOrder(n: Node, target: NodeID, dir: Dir, other: Node, first: bool, gen: nat)
      returns (before: seq<Tile>, after: seq<Tile>)
    requires Distinct(NodeIds(n)) && HasLeaf(n, target) && other.Leaf?
    ensures var kept, moved := Tile(target, Find(n, target).value.app), Tile(other.id, other.app);
      && Leaves(n) == before + [kept] + after
      && Leaves(DockAt(n, target, dir, other, first, gen).tree)
           == before + (if first then [moved, kept] else [kept, moved]) + after
  {
    FindIffPresent(n, target);
    DockMintsOnce(n, target, dir, other, first, gen);
    var f := PutDock(NodeName(gen + 1), dir, other, first);
    before, after := UpdateLeaves(n, target, f);
    var x := Find(n, target).value;
    assert Leaves(f(x)) == if first then Leaves(other) + Leaves(x) else Leaves(x) + Leaves(other);
  }

  /** The same tiles but for one that is put elsewhere: before or after the tile kept. */
  lemma {:induction false} Repositioned(l: seq<Tile>, r: seq<Tile>, moved: Tile, before: seq<Tile>, kept: Tile, after: seq<Tile>)
    requires l + r == before + [kept] + after
    ensures multiset(before + [moved, kept] + after) == multiset(l + [moved] + r)
    ensures multiset(before + [kept, moved] + after) == multiset(l + [moved] + r)
  {
    Inserted(l, moved, r);
    InsertedBefore(before, moved, kept, after);
    InsertedAfter(before, moved, kept, after);
  }

  lemma {:induction false} InsertedBefore(l: seq<Tile>, x: Tile, kept: Tile, r: seq<Tile>)
    ensures multiset(l + [x, kept] + r) == multiset(l + [kept] + r) + multiset{x}
  {
    Inserted(l, x, [kept] + r);
    assert l + [x, kept] + r == l + [x] + ([kept] + r);
    assert l + [kept] + r == l + ([kept] + r);
  }

  lemma {:induction false} InsertedAfter(l: seq<Tile>, x: Tile, kept: Tile, r: seq<Tile>)
    ensures multiset(l + [kept, x] + r) == multiset(l + [kept] + r) + multiset{x}
  {
    Inserted(l + [kept], x, r);
    assert l + [kept, x] + r == l + [kept] + [x] + r;
  }

  lemma {:induction false} Inserted(l: seq<Tile>, x: Tile, r: seq<Tile>)
    ensures multiset(l + [x] + r) == multiset(l + r) + multiset{x}
  {
  }

  /** With one leaf detached, the other is still found as before. */
  lemma {:induction false} DetachKeepsTarget(root: Node, from: NodeID, target: NodeID) returns (parent: NodeID)
    requires Distinct(NodeIds(root)) && HasLeaf(root, from) && HasLeaf(root, target) && from != target
    ensures var small := RemoveLeaf(root, from);
      && NodeIds(root) == NodeIds(small) + multiset{from} + multiset{parent}
      && Distinct(NodeIds(small)) && !HasLeaf(small, from)
      && HasLeaf(small, target) && Find(small, target) == Find(root, target)
      && Find(root, from).Some? && Find(root, from).value == Leaf(from, Find(root, from).value.app)
      && (WellFormed(root) ==> WellFormed(small) && WellFormed(Find(root, from).value))
      && Find(root, parent).Some? && Find(root, parent).value.Split?
  {
    hide RemoveLeaf, Leaves;
    FindIffPresent(root, from);
    FindIffPresent(root, target);
    FoundIds(root, from);
    var small := RemoveLeaf(root, from);
    parent := RemoveIds(root, from);
    SmallerIsDistinct(NodeIds(small), NodeIds(root));
    var l, r := RemoveLeaves(root, from);
    var kept := Tile(target, Find(root, target).value.app);
    HasLeafIffListed(root, kept);
    HasLeafIffListed(small, kept);
    FindIffPresent(small, target);
    assert NodeIds(root)[from] <= 1;
    FindIffPresent(small, from);
  }

  /** The moved tree trades exactly one split's id for the fresh one. */
  lemma {:induction false} MoveSplitIds(root: Node, from: NodeID, target: NodeID, zone: Zone, gen: nat)
      returns (parent: NodeID)
    requires Distinct(NodeIds(root)) && HasLeaf(root, from) && HasLeaf(root, target) && from != target
    ensures var out := MoveSplit(root, from, target, zone, gen);
      && out.Ok? && out.value.gen == gen + 1
      && NodeIds(out.value.tree) + multiset{parent} == NodeIds(root) + multiset{NodeName(gen + 1)}
      && (WellFormed(root) && target != "" ==> WellFormed(out.value.tree))
    ensures Find(root, parent).Some? && Find(root, parent).value.Split?
    ensures Distinct(NodeIds(RemoveLeaf(root, from))) && HasLeaf(RemoveLeaf(root, from), target)
    ensures Find(RemoveLeaf(root, from), target) == Find(root, target)
  {
    hide RemoveLeaf, Distinct;
    var small := RemoveLeaf(root, from);
    parent := DetachKeepsTarget(root, from, target);
    var src := Find(root, from).value;
    FindIffPresent(small, target);
    var f := PutDock(NodeName(gen + 1), ZoneDir(zone), src, ZoneBefore(zone));
    DockMintsOnce(small, target, ZoneDir(zone), src, ZoneBefore(zone), gen);
    FoundIds(small, target);
    var others := UpdateIds(small, target, f);
    DockedIds(NodeIds(root), NodeIds(small), others, multiset{target}, multiset{from}, multiset{parent},
              multiset{NodeName(gen + 1)}, NodeIds(Update(small, target, f)));
  }

  lemma {:induction false} DockedIds(root: multiset<NodeID>, small: multiset<NodeID>, others: multiset<NodeID>,
                                     target: multiset<NodeID>, from: multiset<NodeID>, parent: multiset<NodeID>,
                                     split: multiset<NodeID>, out: multiset<NodeID>)
    requires root == small + from + parent && small == others + target
    requires out == others + (split + target + from) || out == others + (split + from + target)
    ensures out + parent == root + split
  {
  }

  lemma {:induction false} SmallerIsDistinct(small: multiset<NodeID>, large: multiset<NodeID>)
    requires small <= large && Distinct(large)
    ensures Distinct(small)
  {
    forall x
      ensures small[x] <= 1
    {
      assert large[x] <= 1;
    }
  }

  // ----- ratios -------------------------------------------------------------

  /** The nearest legal ratio. */
  lemma {:induction false} ClampIsNearest(r: real)
    ensures 0.1 <= Clamp(r) <= 0.9 && (0.1 <= r <= 0.9 ==> Clamp(r) == r)
    ensures (r < 0.1 ==> Clamp(r) == 0.1) && (r > 0.9 ==> Clamp(r) == 0.9)
  {
  }

  /**
   Setting a ratio changes that split's ratio and nothing else: it is found with the new one, the tiles stay,
   and setting the old one again gives back the tree.
   */
  lemma {:induction false} RatioOnly(n: Node, id: NodeID, ratio: real)
    requires Distinct(NodeIds(n)) && Find(n, id).Some? && Find(n, id).value.Split?
    ensures var out, was := Update(n, id, PutRatio(ratio)), Find(n, id).value;
      && Find(out, id) == Some(was.(ratio := Clamp(ratio))) && Leaves(out) == Leaves(n)
      && (0.1 <= was.ratio <= 0.9 ==> Update(out, id, PutRatio(was.ratio)) == n)
  {
    if n.id != id {
      SearchSide(n, id);
      var inA := Find(n.a, id).Some?;
      UpdateAbsent(if inA then n.b else n.a, id, PutRatio(ratio));
      UpdateAbsent(if inA then n.b else n.a, id, PutRatio(Find(n, id).value.ratio));
      FindIffPresent(n.a, id);
      RatioOnly(if inA then n.a else n.b, id, ratio);
    }
  }

  // ----- swaps --------------------------------------------------------------

  function Retitled(t: Tile, id: NodeID, app: string): Tile {
    if t.id == id then Tile(id, app) else t
  }

  function RetitleAll(ts: seq<Tile>, id: NodeID, app: string): seq<Tile> {
    seq(|ts|, i requires 0 <= i < |ts| => Retitled(ts[i], id, app))
  }

  lemma {:induction false} PutAppIds(n: Node, id: NodeID, app: string)
    requires Distinct(NodeIds(n)) && HasLeaf(n, id)
    ensures NodeIds(Update(n, id, PutApp(app))) == NodeIds(n)
    ensures WellFormed(n) ==> WellFormed(Update(n, id, PutApp(app)))
  {
    if n.id != id {
      SearchSide(n, id);
      var inA := Find(n.a, id).Some?;
      UpdateAbsent(if inA then n.b else n.a, id, PutApp(app));
      PutAppIds(if inA then n.a else n.b, id, app);
    }
  }

  /** Changing one leaf's app changes no id, no place and no other app. */
  lemma {:induction false} PutAppLeaves(n: Node, id: NodeID, app: string)
    requires Distinct(NodeIds(n)) && HasLeaf(n, id)
    ensures NodeIds(Update(n, id, PutApp(app))) == NodeIds(n)
    ensures WellFormed(n) ==> WellFormed(Update(n, id, PutApp(app)))
    ensures Leaves(Update(n, id, PutApp(app))) == RetitleAll(Leaves(n), id, app)
  {
    hide NodeIds, Distinct, WellFormed;
    PutAppIds(n, id, app);
    if n.id != id {
      SearchSide(n, id);
      var inA := Find(n.a, id).Some?;
      var quiet := if inA then n.b else n.a;
      UpdateAbsent(quiet, id, PutApp(app));
      PutAppLeaves(if inA then n.a else n.b, id, app);
      LeafIdsPresent(quiet);
      assert RetitleAll(Leaves(quiet), id, app) == Leaves(quiet);
      RetitleConcat(Leaves(n.a), Leaves(n.b), id, app);
    }
  }

  lemma {:induction false} RetitleConcat(xs: seq<Tile>, ys: seq<Tile>, id: NodeID, app: string)
    ensures RetitleAll(xs + ys, id, app) == RetitleAll(xs, id, app) + RetitleAll(ys, id, app)
  {
  }

  /** After the change the leaf has the new app, and every other leaf is found as before. */
  lemma {:induction false} PutAppFinds(n: Node, id: NodeID, app: string, other: NodeID)
    requires Distinct(NodeIds(n)) && HasLeaf(n, id) && HasLeaf(n, other)
    ensures Find(Update(n, id, PutApp(app)), other) == if other == id then Some(Leaf(id, app)) else Find(n, other)
  {
    var out := Update(n, id, PutApp(app));
    if n.id != id {
      SearchSide(n, id);
      SearchSide(n, other);
      UpdateAbsent(if Find(n.a, id).Some? then n.b else n.a, id, PutApp(app));
      FindIffPresent(out.a, other);
      FindIffPresent(n.a, other);
      if Find(n.a, id).Some? {
        PutAppLeaves(n.a, id, app);
        if HasLeaf(n.a, other) { PutAppFinds(n.a, id, app, other); }
      } else if HasLeaf(n.b, other) {
        PutAppFinds(n.b, id, app, other);
      }
    }
  }

  lemma {:induction false} PutAppTwice(n: Node, id: NodeID, first: string, second: string)
    requires Distinct(NodeIds(n)) && HasLeaf(n, id)
    ensures Update(Update(n, id, PutApp(first)), id, PutApp(second)) == Update(n, id, PutApp(second))
    ensures Update(n, id, PutApp(Find(n, id).value.app)) == n
  {
    if n.id != id {
      SearchSide(n, id);
      var inA := Find(n.a, id).Some?;
      var quiet := if inA then n.b else n.a;
      UpdateAbsent(quiet, id, PutApp(first));
      UpdateAbsent(quiet, id, PutApp(second));
      UpdateAbsent(quiet, id, PutApp(Find(n, id).value.app));
      PutAppTwice(if inA then n.a else n.b, id, first, second);
    }
  }

  lemma {:induction false} PutAppCommutes(n: Node, x: NodeID, appX: string, y: NodeID, appY: string)
    requires x != y
    ensures Update(Update(n, x, PutApp(appX)), y, PutApp(appY)) == Update(Update(n, y, PutApp(appY)), x, PutApp(appX))
  {
    if n.Split? && n.id != x && n.id != y {
      PutAppCommutes(n.a, x, appX, y, appY);
      PutAppCommutes(n.b, x, appX, y, appY);
    }
  }

  /** A swap exchanges the two apps and leaves every other leaf, every id and every place alone. */
  lemma {:induction false} SwapExchangesApps(root: Node, a: NodeID, b: NodeID)
    requires Distinct(NodeIds(root)) && HasLeaf(root, a) && HasLeaf(root, b)
    ensures var appA, appB := Find(root, a).value.app, Find(root, b).value.app;
      var out := SwapLeaves(root, a, b);
      && out.Ok?
      && Leaves(out.value) == RetitleAll(RetitleAll(Leaves(root), a, appB), b, appA)
      && NodeIds(out.value) == NodeIds(root)
      && (WellFormed(root) ==> WellFormed(out.value))
      && HasLeaf(out.value, a) && Find(out.value, a).value.app == appB
      && HasLeaf(out.value, b) && Find(out.value, b).value.app == appA
  {
    var appA, appB := Find(root, a).value.app, Find(root, b).value.app;
    FindIffPresent(root, a);
    FindIffPresent(root, b);
    var mid := Update(root, a, PutApp(appB));
    PutAppLeaves(root, a, appB);
    PutAppFinds(root, a, appB, a);
    PutAppFinds(root, a, appB, b);
    PutAppLeaves(mid, b, appA);
    PutAppFinds(mid, b, appA, a);
    PutAppFinds(mid, b, appA, b);
  }

  /** Swapping the same two leaves twice is the identity. */
  lemma {:induction false} SwapTwiceIsIdentity(root: Node, a: NodeID, b: NodeID)
    requires Distinct(NodeIds(root)) && HasLeaf(root, a) && HasLeaf(root, b)
    ensures SwapLeaves(root, a, b).Ok?
    ensures SwapLeaves(SwapLeaves(root, a, b).value, a, b) == Ok(root)
  {
    var appA, appB := Find(root, a).value.app, Find(root, b).value.app;
    FindIffPresent(root, a);
    FindIffPresent(root, b);
    SwapExchangesApps(root, a, b);
    var mid := Update(root, a, PutApp(appB));
    if a == b {
      PutAppTwice(root, a, appB, appA);
    } else {
      PutAppCommutes(mid, b, appA, a, appA);
      PutAppTwice(root, a, appB, appA);
      PutAppTwice(root, b, appA, appB);
    }
  }

  // ----- cloning ------------------------------------------------------------

  /** A clone keeps the shape and renumbers every node with its own fresh id. */
  lemma {:induction false} CloneIsFreshCopy(n: Node, gen: nat)
    ensures var out := CloneFresh(n, gen);
      && Erase(out.tree) == Erase(n)
      && out.gen == gen + |NodeIds(n)|
      && Distinct(NodeIds(out.tree))
      && (forall x :: x in NodeIds(out.tree) ==> MintedIn(x, gen, out.gen))
      && (WellFormed(n) ==> WellFormed(out.tree))
  {
    if n.Split? {
      var a := CloneFresh(n.a, gen + 1);
      var b := CloneFresh(n.b, a.gen);
      CloneIsFreshCopy(n.a, gen + 1);
      CloneIsFreshCopy(n.b, a.gen);
      var out := CloneFresh(n, gen);
      var top := NodeName(gen + 1);
      forall x
        ensures NodeIds(out.tree)[x] <= 1
        ensures x in NodeIds(out.tree) ==> MintedIn(x, gen, out.gen)
      {
        if x in NodeIds(a.tree) { RangesDiffer(x, gen + 1, a.gen, b.gen); }
        if x == top && x in NodeIds(a.tree) { RangesDiffer(x, gen, gen + 1, a.gen); }
        if x == top && x in NodeIds(b.tree) { RangesDiffer(x, gen, gen + 1, b.gen); }
        assert NodeIds(a.tree)[x] <= 1 && NodeIds(b.tree)[x] <= 1;
      }
    } else {
      assert NodeName(gen + 1) == CloneFresh(n, gen).tree.id;
    }
  }

  lemma {:induction false} RangesDiffer(x: NodeID, lo: nat, mid: nat, hi: nat)
    requires MintedIn(x, lo, mid)
    ensures !MintedIn(x, mid, hi)
  {
    if MintedIn(x, mid, hi) {
      var j: nat :| lo < j <= mid && x == NodeName(j);
      var k: nat :| mid < k <= hi && x == NodeName(k);
      PrintedIdsDiffer(NODE_PREFIX, j, k);
    }
  }
}
