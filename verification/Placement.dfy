/**
 Where a tile lands on screen: docking a leaf puts it on the side asked for, next to its target,
 the two and the divider between them filling exactly the place the target had.
 */
module Placement {
  import opened Wrappers
  import opened Ids
  import opened Tree
  import opened TreeLaws
  import opened Geometry

  /** The children of a split are laid out as its halves, wherever in the tree it is. */
  lemma {:induction false} ChildRects(n: Node, r: Rect, gap: int, p: NodeID)
    requires Distinct(NodeIds(n)) && Find(n, p).Some? && Find(n, p).value.Split?
    ensures var x := Find(n, p).value; var items := Layout(n, r, gap);
      && p in items && x.a.id in items && x.b.id in items
      && items[x.a.id].rect == First(x, items[p].rect, gap) && items[x.b.id].rect == Second(x, items[p].rect, gap)
  {
    hide First, Second, Distinct;
    FindIffPresent(n, p);
    var x := Find(n, p).value;
    FoundIds(n, p);
    RootItem(n, r, gap);
    LookBelow(n, r, gap, p);
    if n.id == p {
      LookBelow(n, r, gap, x.a.id);
      LookBelow(n, r, gap, x.b.id);
      RootItem(x.a, First(n, r, gap), gap);
      RootItem(x.b, Second(n, r, gap), gap);
    } else {
      var inA := p in NodeIds(n.a);
      var below, half := if inA then n.a else n.b, if inA then First(n, r, gap) else Second(n, r, gap);
      FoundIds(below, p);
      ChildRects(below, half, gap, p);
      LookBelow(n, r, gap, x.a.id);
      LookBelow(n, r, gap, x.b.id);
    }
  }

  lemma {:induction false} RootItem(n: Node, r: Rect, gap: int)
    requires Distinct(NodeIds(n))
    ensures n.id in NodeIds(n) && n.id in Layout(n, r, gap) && Layout(n, r, gap)[n.id].rect == r
  {
    if n.Split? { LookBelow(n, r, gap, n.id); }
  }

  /** What is put in place of a leaf is laid out where the leaf was. */
  lemma {:induction false} DockedInPlace(n: Node, r: Rect, gap: int, target: NodeID, split: NodeID, dir: Dir,
                                         other: Node, before: bool)
    requires Distinct(NodeIds(n)) && HasLeaf(n, target) && other.Leaf?
    requires Distinct(NodeIds(Update(n, target, PutDock(split, dir, other, before))))
    ensures var out := Update(n, target, PutDock(split, dir, other, before));
      && Find(out, split) == Some(Dock(split, dir, Find(n, target).value, other, before))
      && split in Layout(out, r, gap) && target in Layout(n, r, gap)
      && Layout(out, r, gap)[split].rect == Layout(n, r, gap)[target].rect
  {
    hide First, Second, Distinct, Dock;
    var f := PutDock(split, dir, other, before);
    var out := Update(n, target, f);
    FindIffPresent(n, target);
    RootItem(n, r, gap);
    RootItem(out, r, gap);
    if n.id == target {
      DockIsSplit(split, dir, n, other, before);
    } else {
      SearchSide(n, target);
      DistinctParts(out);
      LookBelow(n, r, gap, target);
      var inA := target in NodeIds(n.a);
      UpdateAbsent(if inA then n.b else n.a, target, f);
      DockedInPlace(if inA then n.a else n.b, if inA then First(n, r, gap) else Second(n, r, gap), gap,
                    target, split, dir, other, before);
      FindIffPresent(if inA then out.a else out.b, split);
      LookBelow(out, r, gap, split);
      SameHalves(n, out, r, gap);
    }
  }

  lemma {:induction false} DockIsSplit(split: NodeID, dir: Dir, n: Node, other: Node, before: bool)
    ensures var d := Dock(split, dir, n, other, before);
      && d.Split? && d.id == split && d.dir == dir && d.ratio == 0.5
      && (if before then d.a == other && d.b == n else d.a == n && d.b == other)
  {
  }

  lemma {:induction false} SameHalves(n: Node, m: Node, r: Rect, gap: int)
    requires n.Split? && m.Split? && n.dir == m.dir && n.ratio == m.ratio
    ensures First(n, r, gap) == First(m, r, gap) && Second(n, r, gap) == Second(m, r, gap)
  {
  }

  /**
   left and right stand side by side along the axis, one divider apart, flush across it; and if the whole is
   long enough for two pixels and the divider, the three fill it exactly.
   */
  ghost predicate SideBySide(left: Rect, right: Rect, row: bool, gap: int, whole: Rect) {
    && End(left, row) + gap == Start(right, row)
    && Start(left, !row) == Start(right, !row) == Start(whole, !row)
    && Extent(left, !row) == Extent(right, !row) == Extent(whole, !row)
    && Start(left, row) == Start(whole, row)
    && (Extent(whole, row) >= gap + 2 ==> End(right, row) == End(whole, row))
  }

  /** And each has half of it; an odd pixel goes to the second. */
  ghost predicate Halved(left: Rect, right: Rect, row: bool, gap: int, whole: Rect) {
    SideBySide(left, right, row, gap, whole) && 0 <= Extent(right, row) - Extent(left, row) <= 1
  }

  lemma {:induction false} HalvesSideBySide(x: Node, r: Rect, gap: int)
    requires x.Split?
    ensures SideBySide(First(x, r, gap), Second(x, r, gap), IsRow(x), gap, r)
  {
    hide Share;
  }

  lemma {:induction false} EvenHalves(x: Node, r: Rect, gap: int)
    requires x.Split? && x.ratio == 0.5
    ensures Halved(First(x, r, gap), Second(x, r, gap), IsRow(x), gap, r)
  {
    hide SideBySide;
    HalvesSideBySide(x, r, gap);
    var avail := Avail(Extent(r, IsRow(x)), gap);
    HalfShare(avail);
    hide Share;
  }

  lemma {:induction false} HalfShare(avail: int)
    requires avail >= 2
    ensures Share(avail, 0.5) == avail / 2
  {
    var half := avail as real * 0.5;
    assert (avail / 2) as real <= half < (avail / 2 + 1) as real;
    assert half.Floor == avail / 2;
  }

  /** Docked at a leaf, the two share the leaf's old place side by side. */
  lemma {:induction false} DockSideBySide(n: Node, r: Rect, gap: int, target: NodeID, split: NodeID, dir: Dir,
                                          other: Node, before: bool)
    requires Distinct(NodeIds(n)) && HasLeaf(n, target) && other.Leaf?
    requires Distinct(NodeIds(Update(n, target, PutDock(split, dir, other, before))))
    ensures var items := Layout(Update(n, target, PutDock(split, dir, other, before)), r, gap);
      && target in items && other.id in items && target in Layout(n, r, gap)
      && Halved(items[if before then other.id else target].rect, items[if before then target else other.id].rect,
                    dir == Row, gap, Layout(n, r, gap)[target].rect)
  {
    hide First, Second, Distinct, Dock, Halved, Layout;
    var out := Update(n, target, PutDock(split, dir, other, before));
    FindIffPresent(n, target);
    DockedInPlace(n, r, gap, target, split, dir, other, before);
    DockIsSplit(split, dir, Find(n, target).value, other, before);
    ChildRects(out, r, gap, split);
    EvenHalves(Find(out, split).value, Layout(n, r, gap)[target].rect, gap);
  }

  /** After split-leaf the new leaf is right of the old one for a row, below it otherwise, in the old one's place. */
  lemma {:induction false} SplitLandsAfter(root: Node, area: Rect, gap: int, id: NodeID, dir: Dir, app: string, gen: nat)
    requires Distinct(NodeIds(root)) && MintedUpTo(NodeIds(root), gen) && HasLeaf(root, id)
    ensures SplitLeaf(root, id, dir, app, gen).Ok?
    ensures var items := Layout(SplitLeaf(root, id, dir, app, gen).value.tree, area, gap);
      && id in items && NodeName(gen + 1) in items && id in Layout(root, area, gap)
      && Halved(items[id].rect, items[NodeName(gen + 1)].rect, dir == Row, gap, Layout(root, area, gap)[id].rect)
  {
    hide Halved, Layout, WellFormed, SplitLeaf, HasLeaf, Decimal, NodeIds, Distinct;
    SplitLeafIds(root, id, dir, app, gen);
    FreshIsAbsent(NodeIds(root), gen, gen + 1);
    FreshIsAbsent(NodeIds(root), gen, gen + 2);
    if NodeName(gen + 1) == NodeName(gen + 2) { PrintedIdsDiffer(NODE_PREFIX, gen + 1, gen + 2); }
    AddedIsDistinct(NodeIds(root), NodeName(gen + 1));
    AddedIsDistinct(NodeIds(root) + multiset{NodeName(gen + 1)}, NodeName(gen + 2));
    DockSideBySide(root, area, gap, id, NodeName(gen + 2), dir, Leaf(NodeName(gen + 1), app), false);
  }

  /**
   After move-split the moved leaf is on the side of the target that the zone names: left or above for the
   left and top zones, right for the right zone, below otherwise; both in the place the target had once the
   moved leaf was lifted out.
   */
  lemma {:induction false} MoveLandsOnSide(root: Node, area: Rect, gap: int, from: NodeID, target: NodeID, zone: Zone, gen: nat)
    requires Distinct(NodeIds(root)) && MintedUpTo(NodeIds(root), gen)
    requires HasLeaf(root, from) && HasLeaf(root, target) && from != target
    ensures MoveSplit(root, from, target, zone, gen).Ok?
    ensures var items := Layout(MoveSplit(root, from, target, zone, gen).value.tree, area, gap);
      var before, lifted := zone == ZoneLeft || zone == ZoneTop, Layout(RemoveLeaf(root, from), area, gap);
      && from in items && target in items && target in lifted
      && Halved(items[if before then from else target].rect, items[if before then target else from].rect,
                    zone == ZoneLeft || zone == ZoneRight, gap, lifted[target].rect)
  {
    hide Halved, Layout, WellFormed, Decimal, RemoveLeaf, NodeIds, Distinct, MoveSplit;
    var leaf := MovedIds(root, from, target, zone, gen);
    DockSideBySide(RemoveLeaf(root, from), area, gap, target, NodeName(gen + 1), ZoneDir(zone), leaf, ZoneBefore(zone));
  }

  /** A move docks the detached leaf beside its target in what is left of the tree, and all ids stay distinct. */
  lemma {:induction false} MovedIds(root: Node, from: NodeID, target: NodeID, zone: Zone, gen: nat) returns (leaf: Node)
    requires Distinct(NodeIds(root)) && MintedUpTo(NodeIds(root), gen)
    requires HasLeaf(root, from) && HasLeaf(root, target) && from != target
    ensures var small := RemoveLeaf(root, from);
      var out := Update(small, target, PutDock(NodeName(gen + 1), ZoneDir(zone), leaf, ZoneBefore(zone)));
      && MoveSplit(root, from, target, zone, gen) == Ok(Minted(out, gen + 1))
      && leaf.Leaf? && leaf.id == from
      && Distinct(NodeIds(small)) && HasLeaf(small, target) && Distinct(NodeIds(out))
  {
    hide WellFormed, Decimal, RemoveLeaf, NodeIds, Distinct, MintedUpTo;
    var small := RemoveLeaf(root, from);
    var parent := DetachKeepsTarget(root, from, target);
    var lost := MoveSplitIds(root, from, target, zone, gen);
    leaf := Find(root, from).value;
    FindIffPresent(small, target);
    DockMintsOnce(small, target, ZoneDir(zone), leaf, ZoneBefore(zone), gen);
    FreshIsAbsent(NodeIds(root), gen, gen + 1);
    AddedIsDistinct(NodeIds(root), NodeName(gen + 1));
    var out := MoveSplit(root, from, target, zone, gen).value.tree;
    assert NodeIds(out) <= NodeIds(out) + multiset{lost};
    SmallerIsDistinct(NodeIds(out), NodeIds(root) + multiset{NodeName(gen + 1)});
  }

  lemma {:induction false} AddedIsDistinct(ids: multiset<NodeID>, x: NodeID)
    requires Distinct(ids) && x !in ids
    ensures Distinct(ids + multiset{x})
  {
  }

  /**
   A grafted leaf lands right of its target for a row, below it otherwise, in the target's place; with no target
   it lands so beside the whole tree, in the whole area.
   */
  lemma {:induction false} GraftLandsAfter(root: Node, area: Rect, gap: int, leaf: Node, target: NodeID, dir: Dir, gen: nat)
    requires Distinct(NodeIds(root)) && MintedUpTo(NodeIds(root), gen) && (target == "" || HasLeaf(root, target))
    requires leaf.Leaf? && leaf.id !in NodeIds(root) && leaf.id != NodeName(gen + 1)
    ensures GraftLeaf(root, leaf, target, dir, gen).Ok?
    ensures var items := Layout(GraftLeaf(root, leaf, target, dir, gen).value.tree, area, gap);
      var beside := if target == "" then root.id else target;
      && beside in items && leaf.id in items && beside in Layout(root, area, gap)
      && Halved(items[beside].rect, items[leaf.id].rect, dir == Row, gap, Layout(root, area, gap)[beside].rect)
      && (target == "" ==> Layout(root, area, gap)[beside].rect == area)
  {
    hide Halved, Layout, NodeIds, Distinct, Decimal, GraftLeaf;
    if target == "" {
      WrappedSideBySide(root, area, gap, leaf, dir, gen);
    } else {
      GraftedIds(root, leaf, target, dir, gen);
      DockSideBySide(root, area, gap, target, NodeName(gen + 1), dir, leaf, false);
    }
  }

  /** The whole tree and a leaf under a new root. */
  lemma {:induction false} WrappedSideBySide(root: Node, area: Rect, gap: int, leaf: Node, dir: Dir, gen: nat)
    requires Distinct(NodeIds(root)) && MintedUpTo(NodeIds(root), gen)
    requires leaf.Leaf? && leaf.id !in NodeIds(root) && leaf.id != NodeName(gen + 1)
    ensures GraftLeaf(root, leaf, "", dir, gen).Ok?
    ensures var items := Layout(GraftLeaf(root, leaf, "", dir, gen).value.tree, area, gap);
      && root.id in items && leaf.id in items && root.id in Layout(root, area, gap)
      && Layout(root, area, gap)[root.id].rect == area
      && Halved(items[root.id].rect, items[leaf.id].rect, dir == Row, gap, area)
  {
    hide Halved, Layout, MintedUpTo, Decimal, Distinct;
    var split := NodeName(gen + 1);
    var out := Split(split, dir, 0.5, root, leaf);
    FindIffPresent(root, leaf.id);
    FreshIsAbsent(NodeIds(root), gen, gen + 1);
    AddedIsDistinct(NodeIds(root), split);
    AddedIsDistinct(NodeIds(root) + multiset{split}, leaf.id);
    assert NodeIds(out) == NodeIds(root) + multiset{split} + multiset{leaf.id};
    RootItem(root, area, gap);
    RootItem(out, area, gap);
    ChildRects(out, area, gap, split);
    EvenHalves(out, area, gap);
  }

  lemma {:induction false} GraftedIds(root: Node, leaf: Node, target: NodeID, dir: Dir, gen: nat)
    requires Distinct(NodeIds(root)) && MintedUpTo(NodeIds(root), gen) && HasLeaf(root, target) && target != ""
    requires leaf.Leaf? && leaf.id !in NodeIds(root) && leaf.id != NodeName(gen + 1)
    ensures var out := Update(root, target, PutDock(NodeName(gen + 1), dir, leaf, false));
      GraftLeaf(root, leaf, target, dir, gen) == Ok(Minted(out, gen + 1)) && Distinct(NodeIds(out))
  {
    hide WellFormed, Decimal, Distinct, MintedUpTo;
    FindIffPresent(root, leaf.id);
    FindIffPresent(root, target);
    DockMintsOnce(root, target, dir, leaf, false, gen);
    var f := PutDock(NodeName(gen + 1), dir, leaf, false);
    var others := UpdateIds(root, target, f);
    FreshIsAbsent(NodeIds(root), gen, gen + 1);
    AddedIsDistinct(NodeIds(root), leaf.id);
    AddedIsDistinct(NodeIds(root) + multiset{leaf.id}, NodeName(gen + 1));
    var t := multiset{target};
    assert NodeIds(Update(root, target, f)) == others + (multiset{NodeName(gen + 1)} + t + multiset{leaf.id});
    Reordered(others, t, multiset{leaf.id}, multiset{NodeName(gen + 1)});
  }

  lemma {:induction false} Reordered(o: multiset<NodeID>, t: multiset<NodeID>, l: multiset<NodeID>, s: multiset<NodeID>)
    ensures o + (s + t + l) == o + t + l + s
  {
  }
}
