/**
 From a tree to pixel rectangles.  Both split directions are described once, along the
 axis they divide: row = true is the horizontal axis.
 */
module Geometry {
  import opened Wrappers
  import opened Ids
  import opened Tree

  datatype Rect = Rect(x: int, y: int, w: int, h: int)

  /** divider is the strip between a split's children; it is empty for a leaf. */
  datatype Item = Item(rect: Rect, divider: Rect)

  const NO_RECT := Rect(0, 0, 0, 0)

  predicate Contains(r: Rect, px: int, py: int) {
    r.x <= px < r.x + r.w && r.y <= py < r.y + r.h
  }

  function Start(r: Rect, row: bool): int { if row then r.x else r.y }

  function Extent(r: Rect, row: bool): int { if row then r.w else r.h }

  function End(r: Rect, row: bool): int { Start(r, row) + Extent(r, row) }

  /** r cut down to [start, start + extent) along one axis. */
  function Slab(r: Rect, row: bool, start: int, extent: int): Rect {
    if row then Rect(start, r.y, extent, r.h) else Rect(r.x, start, r.w, extent)
  }

  /** Conversion of a real to an integer, toward zero. */
  function Trunc(v: real): int { if v >= 0.0 then v.Floor else -((-v).Floor) }

  function Avail(extent: int, gap: int): int { if extent - gap < 2 then 2 else extent - gap }

  /** Pixels of the first child. */
  function Share(avail: int, ratio: real): int { Bounded(Trunc(avail as real * ratio), avail) }

  function Bounded(share: int, avail: int): int {
    if share < 1 then 1 else if share > avail - 1 then avail - 1 else share
  }

  predicate IsRow(n: Node) { n.Split? && n.dir == Row }

  function First(n: Node, r: Rect, gap: int): Rect
    requires n.Split?
  {
    Slab(r, IsRow(n), Start(r, IsRow(n)), Share(Avail(Extent(r, IsRow(n)), gap), n.ratio))
  }

  function Divider(n: Node, r: Rect, gap: int): Rect
    requires n.Split?
  {
    Slab(r, IsRow(n), End(First(n, r, gap), IsRow(n)), gap)
  }

  function Second(n: Node, r: Rect, gap: int): Rect
    requires n.Split?
  {
    var avail := Avail(Extent(r, IsRow(n)), gap);
    Slab(r, IsRow(n), End(Divider(n, r, gap), IsRow(n)), avail - Share(avail, n.ratio))
  }

  function ItemOf(n: Node, r: Rect, gap: int): Item {
    Item(r, if n.Leaf? then NO_RECT else Divider(n, r, gap))
  }

  function Layout(n: Node, r: Rect, gap: int): map<NodeID, Item> {
    if n.Leaf? then map[n.id := ItemOf(n, r, gap)]
    else map[n.id := ItemOf(n, r, gap)] + Layout(n.a, First(n, r, gap), gap) + Layout(n.b, Second(n, r, gap), gap)
  }

  /** The clamped division of a split's extent: pixels for both children, and for the first. */
  method Divide(extent: int, ratio: real, gap: int) returns (avail: int, share: int)
    ensures avail == Avail(extent, gap) && share == Share(avail, ratio)
  {
    avail := extent - gap;
    if avail < 2 { avail := 2; }
    share := Trunc(avail as real * ratio);
    if share < 1 { share := 1; }
    if share > avail - 1 { share := avail - 1; }
  }

  /** The recursive fill of the output map, its two directions written out. */
  method LayoutInto(n: Node, r: Rect, gap: int, into: map<NodeID, Item>) returns (out: map<NodeID, Item>)
    ensures out == into + Layout(n, r, gap)
    decreases n
  {
    hide Avail, Share;
    if n.Leaf? { return into[n.id := Item(r, NO_RECT)]; }
    var item, first, second;
    if n.dir == Row {
      var avail, wa := Divide(r.w, n.ratio, gap);
      item := Item(r, Rect(r.x + wa, r.y, gap, r.h));
      first, second := Rect(r.x, r.y, wa, r.h), Rect(r.x + wa + gap, r.y, avail - wa, r.h);
    } else {
      var avail, ha := Divide(r.h, n.ratio, gap);
      item := Item(r, Rect(r.x, r.y + ha, r.w, gap));
      first, second := Rect(r.x, r.y, r.w, ha), Rect(r.x, r.y + ha + gap, r.w, avail - ha);
    }
    assert item == ItemOf(n, r, gap) && first == First(n, r, gap) && second == Second(n, r, gap);
    out := LayoutInto(n.a, first, gap, into[n.id := item]);
    out := LayoutInto(n.b, second, gap, out);
    Merge(into, n.id, item, Layout(n.a, first, gap), Layout(n.b, second, gap));
  }

  lemma {:induction false} Merge<K, V>(m: map<K, V>, k: K, v: V, a: map<K, V>, b: map<K, V>)
    ensures m[k := v] + a + b == m + (map[k := v] + a + b)
  {
  }

  method ComputeLayout(root: Node, r: Rect, gap: int) returns (out: map<NodeID, Item>)
    ensures out == Layout(root, r, gap)
  {
    out := LayoutInto(root, r, gap, map[]);
  }

  // ----- looking items up ---------------------------------------------------

  lemma {:induction false} LaidOutIffPresent(n: Node, r: Rect, gap: int, id: NodeID)
    ensures id in Layout(n, r, gap) <==> id in NodeIds(n)
  {
    if n.Split? {
      LaidOutIffPresent(n.a, First(n, r, gap), gap, id);
      LaidOutIffPresent(n.b, Second(n, r, gap), gap, id);
    }
  }

  /** With distinct ids, a node below a split is laid out as its own half says. */
  lemma {:induction false} LookBelow(n: Node, r: Rect, gap: int, id: NodeID)
    requires n.Split? && Distinct(NodeIds(n)) && id in NodeIds(n)
    ensures Distinct(NodeIds(n.a)) && Distinct(NodeIds(n.b)) && id in Layout(n, r, gap) && Find(n, id).Some?
    ensures id == n.id ==> Layout(n, r, gap)[id] == ItemOf(n, r, gap) && Find(n, id) == Some(n)
    ensures id in NodeIds(n.a) ==>
      && id != n.id && id !in NodeIds(n.b) && id in Layout(n.a, First(n, r, gap), gap)
      && Layout(n, r, gap)[id] == Layout(n.a, First(n, r, gap), gap)[id] && Find(n, id) == Find(n.a, id)
    ensures id in NodeIds(n.b) ==>
      && id != n.id && id !in NodeIds(n.a) && id in Layout(n.b, Second(n, r, gap), gap)
      && Layout(n, r, gap)[id] == Layout(n.b, Second(n, r, gap), gap)[id] && Find(n, id) == Find(n.b, id)
    ensures id == n.id || id in NodeIds(n.a) || id in NodeIds(n.b)
  {
    DistinctParts(n);
    FindIffPresent(n, id);
    FindIffPresent(n.a, id);
    FindIffPresent(n.b, id);
    LaidOutIffPresent(n, r, gap, id);
    LaidOutIffPresent(n.a, First(n, r, gap), gap, id);
    LaidOutIffPresent(n.b, Second(n, r, gap), gap, id);
  }

  // ----- room ---------------------------------------------------------------

  /** No split is shorter than gap + 2 along its own direction, so no clamp makes it overflow. */
  predicate Roomy(n: Node, r: Rect, gap: int) {
    n.Split? ==>
      && Extent(r, IsRow(n)) >= gap + 2
      && Roomy(n.a, First(n, r, gap), gap) && Roomy(n.b, Second(n, r, gap), gap)
  }

  predicate Solid(r: Rect) { r.w >= 1 && r.h >= 1 }

  function Max(a: int, b: int): int { if a > b then a else b }

  /** Pixels along one axis that are certainly enough, from the tree alone. */
  function Need(n: Node, row: bool, gap: int): int {
    if n.Leaf? then 1
    else
      var most := Max(Need(n.a, row, gap), Need(n.b, row, gap));
      if IsRow(n) == row then gap + 10 * most else most
  }

  lemma {:induction false} ShareIsInside(avail: int, ratio: real)
    requires avail >= 2
    ensures 1 <= Share(avail, ratio) <= avail - 1
  {
  }

  /** A ratio in bounds gives either child a tenth of the space, up to rounding. */
  lemma {:induction false} ShareIsFair(avail: int, ratio: real, part: int)
    requires part >= 1 && avail >= 10 * part && MIN_RATIO <= ratio <= MAX_RATIO
    ensures part <= Share(avail, ratio) <= avail - part
  {
    hide Trunc, Bounded;
    Scaled(avail as real, ratio);
    FairFloor(avail, avail as real * ratio, part);
  }

  lemma {:induction false} Scaled(v: real, ratio: real)
    requires v >= 0.0 && 0.1 <= ratio <= 0.9
    ensures 0.1 * v <= v * ratio <= 0.9 * v
  {
    NotNegative(v, ratio - 0.1);
    NotNegative(v, 0.9 - ratio);
    Distributes(v, ratio, 0.1);
    Distributes(v, 0.9, ratio);
  }

  lemma {:induction false} NotNegative(x: real, y: real)
    requires x >= 0.0 && y >= 0.0
    ensures x * y >= 0.0
  {
  }

  lemma {:induction false} Distributes(v: real, x: real, y: real)
    ensures v * (x - y) == v * x - v * y
  {
  }

  lemma {:induction false} FairFloor(avail: int, share: real, part: int)
    requires part >= 1 && avail >= 10 * part
    requires 0.1 * avail as real <= share <= 0.9 * avail as real
    ensures part <= Bounded(Trunc(share), avail) <= avail - part
  {
    assert part as real <= 0.1 * avail as real;
  }

  lemma {:induction false} NeedIsPositive(n: Node, row: bool, gap: int)
    requires gap >= 0
    ensures Need(n, row, gap) >= 1
  {
    if n.Split? {
      NeedIsPositive(n.a, row, gap);
      NeedIsPositive(n.b, row, gap);
    }
  }

  /** A rectangle with the needed pixels on both axes never overflows. */
  lemma {:induction false} EnoughIsRoomy(n: Node, r: Rect, gap: int)
    requires WellFormed(n) && gap >= 0
    requires r.w >= Need(n, true, gap) && r.h >= Need(n, false, gap)
    ensures Roomy(n, r, gap) && Solid(r)
  {
    NeedIsPositive(n, true, gap);
    NeedIsPositive(n, false, gap);
    if n.Split? {
      var row := IsRow(n);
      var most := Max(Need(n.a, row, gap), Need(n.b, row, gap));
      NeedIsPositive(n.a, row, gap);
      ShareIsFair(Avail(Extent(r, row), gap), n.ratio, most);
      EnoughIsRoomy(n.a, First(n, r, gap), gap);
      EnoughIsRoomy(n.b, Second(n, r, gap), gap);
    }
  }

  /** The halves of a roomy split are solid, inside it, and separated by exactly its divider. */
  lemma {:induction false} HalvesFit(n: Node, r: Rect, gap: int)
    requires n.Split? && gap >= 0 && Roomy(n, r, gap) && Solid(r)
    ensures var row := IsRow(n); var first, second := First(n, r, gap), Second(n, r, gap);
      && Solid(first) && Solid(second)
      && Start(first, row) == Start(r, row) && End(second, row) == End(r, row)
      && Start(second, row) == End(first, row) + gap
      && Start(first, !row) == Start(second, !row) == Start(r, !row)
      && Extent(first, !row) == Extent(second, !row) == Extent(r, !row)
  {
    ShareIsInside(Avail(Extent(r, IsRow(n)), gap), n.ratio);
  }

  predicate Inside(inner: Rect, outer: Rect) {
    outer.x <= inner.x && inner.x + inner.w <= outer.x + outer.w &&
    outer.y <= inner.y && inner.y + inner.h <= outer.y + outer.h
  }

  /** Every node of a roomy tree gets a solid rectangle inside the whole. */
  lemma {:induction false} NodesInside(n: Node, r: Rect, gap: int, id: NodeID)
    requires Distinct(NodeIds(n)) && id in NodeIds(n)
    requires gap >= 0 && Roomy(n, r, gap) && Solid(r)
    ensures id in Layout(n, r, gap)
    ensures Solid(Layout(n, r, gap)[id].rect) && Inside(Layout(n, r, gap)[id].rect, r)
  {
    LaidOutIffPresent(n, r, gap, id);
    if n.Split? {
      LookBelow(n, r, gap, id);
      HalvesFit(n, r, gap);
      if id in NodeIds(n.a) {
        NodesInside(n.a, First(n, r, gap), gap, id);
      } else if id in NodeIds(n.b) {
        NodesInside(n.b, Second(n, r, gap), gap, id);
      }
    }
  }

  // ----- exact tiling -------------------------------------------------------

  /** Whether a node paints this pixel: a leaf its rectangle, a split its divider. */
  predicate Paints(root: Node, items: map<NodeID, Item>, id: NodeID, px: int, py: int) {
    id in items && Find(root, id).Some? &&
    Contains(if Find(root, id).value.Leaf? then items[id].rect else items[id].divider, px, py)
  }

  /** The node a pixel belongs to. */
  function Owner(n: Node, r: Rect, gap: int, px: int, py: int): NodeID {
    if n.Leaf? then n.id
    else if Contains(First(n, r, gap), px, py) then Owner(n.a, First(n, r, gap), gap, px, py)
    else if Contains(Second(n, r, gap), px, py) then Owner(n.b, Second(n, r, gap), gap, px, py)
    else n.id
  }

  lemma {:induction false} OwnerIsBelow(n: Node, r: Rect, gap: int, px: int, py: int)
    ensures Owner(n, r, gap, px, py) in NodeIds(n)
  {
    if n.Split? {
      OwnerIsBelow(n.a, First(n, r, gap), gap, px, py);
      OwnerIsBelow(n.b, Second(n, r, gap), gap, px, py);
    }
  }

  /** A node paints a pixel exactly when the pixel is in the area and belongs to that node. */
  lemma {:induction false} PaintsIffOwner(n: Node, r: Rect, gap: int, id: NodeID, px: int, py: int)
    requires Distinct(NodeIds(n)) && gap >= 0 && Roomy(n, r, gap) && Solid(r)
    requires id in NodeIds(n)
    ensures Paints(n, Layout(n, r, gap), id, px, py) <==> Contains(r, px, py) && Owner(n, r, gap, px, py) == id
  {
    LaidOutIffPresent(n, r, gap, id);
    FindIffPresent(n, id);
    if n.Split? {
      var first, second := First(n, r, gap), Second(n, r, gap);
      LookBelow(n, r, gap, id);
      HalvesFit(n, r, gap);
      OwnerIsBelow(n.a, first, gap, px, py);
      OwnerIsBelow(n.b, second, gap, px, py);
      DistinctParts(n);
      if id in NodeIds(n.a) {
        PaintsIffOwner(n.a, first, gap, id, px, py);
      } else if id in NodeIds(n.b) {
        PaintsIffOwner(n.b, second, gap, id, px, py);
      }
    }
  }

  /**
   Exact tiling: in an area big enough by the tree's own measure, each pixel of the area is
   painted by exactly one leaf or divider, and no pixel outside it is painted at all.
   */
  lemma {:induction false} TilesExactly(root: Node, area: Rect, gap: int, px: int, py: int)
    requires ValidTree(root) && gap >= 0
    requires area.w >= Need(root, true, gap) && area.h >= Need(root, false, gap)
    ensures var items := Layout(root, area, gap);
      && (Contains(area, px, py) ==> exists id :: id in NodeIds(root) && Paints(root, items, id, px, py))
      && (forall i, j :: Paints(root, items, i, px, py) && Paints(root, items, j, px, py) ==> i == j)
      && (!Contains(area, px, py) ==> forall id :: !Paints(root, items, id, px, py))
  {
    EnoughIsRoomy(root, area, gap);
    RoomyTilesExactly(root, area, gap, px, py);
  }

  lemma {:induction false} RoomyTilesExactly(root: Node, area: Rect, gap: int, px: int, py: int)
    requires Distinct(NodeIds(root)) && gap >= 0 && Roomy(root, area, gap) && Solid(area)
    ensures var items := Layout(root, area, gap);
      && (Contains(area, px, py) ==> exists id :: id in NodeIds(root) && Paints(root, items, id, px, py))
      && (forall i, j :: Paints(root, items, i, px, py) && Paints(root, items, j, px, py) ==> i == j)
      && (!Contains(area, px, py) ==> forall id :: !Paints(root, items, id, px, py))
  {
    hide NodeIds, Owner, Roomy;
    var items := Layout(root, area, gap);
    var owner := Owner(root, area, gap, px, py);
    OwnerIsBelow(root, area, gap, px, py);
    forall id
      ensures Paints(root, items, id, px, py) <==> Contains(area, px, py) && id == owner
    {
      LaidOutIffPresent(root, area, gap, id);
      if id in NodeIds(root) { PaintsIffOwner(root, area, gap, id, px, py); }
    }
  }
}
