/** Directional focus: the leaf next to another one on screen. */
module Neighbor {
  import opened Wrappers
  import opened Ids
  import opened Tree
  import opened Geometry

  datatype Direction = Left | Right | Up | Down | Nowhere(text: string)

  const FAR: int := 0x4000_0000

  predicate Sideways(dir: Direction) { dir.Left? || dir.Right? }

  predicate Backward(dir: Direction) { dir.Left? || dir.Up? }

  /** [a, a + aw) and [b, b + bw) intersect. */
  predicate Overlaps(a: int, aw: int, b: int, bw: int) { a < b + bw && b < a + aw }

  /** Halving that truncates toward zero. */
  function Half(w: int): int { if w >= 0 then w / 2 else -((-w) / 2) }

  function CenterDelta(a: int, aw: int, b: int, bw: int): int {
    var d := (a + Half(aw)) - (b + Half(bw));
    if d < 0 then -d else d
  }

  /** r lies wholly beyond src in the direction and shares some cross-axis pixel with it. */
  predicate Ahead(src: Rect, r: Rect, dir: Direction) {
    var row := Sideways(dir);
    !dir.Nowhere? &&
    (if Backward(dir) then End(r, row) <= Start(src, row) else Start(r, row) >= End(src, row)) &&
    Overlaps(Start(r, !row), Extent(r, !row), Start(src, !row), Extent(src, !row))
  }

  function Distance(src: Rect, r: Rect, dir: Direction): int {
    var row := Sideways(dir);
    if Backward(dir) then Start(src, row) - End(r, row) else Start(r, row) - End(src, row)
  }

  function Cross(src: Rect, r: Rect, dir: Direction): int {
    var row := Sideways(dir);
    CenterDelta(Start(r, !row), Extent(r, !row), Start(src, !row), Extent(src, !row))
  }

  /** Lexicographic order on (distance, centre delta, y, x). */
  predicate NoFarther(src: Rect, a: Rect, b: Rect, dir: Direction) {
    var da, db := Distance(src, a, dir), Distance(src, b, dir);
    var ca, cb := Cross(src, a, dir), Cross(src, b, dir);
    da < db || (da == db && (ca < cb || (ca == cb && (a.y < b.y || (a.y == b.y && a.x <= b.x)))))
  }

  predicate Candidate(root: Node, items: map<NodeID, Item>, from: NodeID, dir: Direction, id: NodeID)
    requires from in items
  {
    id in items && id != from && HasLeaf(root, id) && Ahead(items[from].rect, items[id].rect, dir)
  }

  /** A candidate the scan can see: no farther than the distances it starts from. */
  predicate InReach(src: Rect, r: Rect, dir: Direction) {
    Distance(src, r, dir) < FAR || (Distance(src, r, dir) == FAR && Cross(src, r, dir) <= FAR)
  }

  predicate Visible(root: Node, items: map<NodeID, Item>, from: NodeID, dir: Direction, id: NodeID)
    requires from in items
  {
    Candidate(root, items, from, dir, id) && InReach(items[from].rect, items[id].rect, dir)
  }

  /** best is a nearest candidate, or empty when none is in reach. */
  ghost predicate IsNearest(root: Node, items: map<NodeID, Item>, from: NodeID, dir: Direction, best: NodeID) {
    if from !in items || (forall id :: !Visible(root, items, from, dir, id)) then best == ""
    else
      && Visible(root, items, from, dir, best)
      && forall id :: Candidate(root, items, from, dir, id) ==>
           NoFarther(items[from].rect, items[best].rect, items[id].rect, dir)
  }

  /** A valid tree laid out without overflow. */
  ghost predicate Uncrowded(root: Node, area: Rect, gap: int) {
    ValidTree(root) && gap >= 0 && Roomy(root, area, gap) && Solid(area)
  }

  /** And in an area whose distances stay within the scan's reach. */
  ghost predicate Navigable(root: Node, area: Rect, gap: int) {
    Uncrowded(root, area, gap) && area.w <= FAR && area.h <= FAR
  }

  // ----- the scan -----------------------------------------------------------

  /** What the scan carries from one item to the next. */
  datatype Found = Found(best: NodeID, rect: Rect, dist: int, cross: int)

  const NOTHING_YET := Found("", NO_RECT, FAR, FAR)

  predicate Better(f: Found, r: Rect, dist: int, cross: int) {
    || dist < f.dist
    || (dist == f.dist && cross < f.cross)
    || (dist == f.dist && cross == f.cross
        && (f.best == "" || r.y < f.rect.y || (r.y == f.rect.y && r.x < f.rect.x)))
  }

  /** One item looked at. */
  function Look(root: Node, items: map<NodeID, Item>, from: NodeID, dir: Direction, f: Found, id: NodeID): Found
    requires from in items
  {
    if !Candidate(root, items, from, dir, id) then f
    else
      var src, r := items[from].rect, items[id].rect;
      var dist, cross := Distance(src, r, dir), Cross(src, r, dir);
      if Better(f, r, dist, cross) then Found(id, r, dist, cross) else f
  }

  /** The items looked at in this order. */
  function Scan(root: Node, items: map<NodeID, Item>, from: NodeID, dir: Direction, order: seq<NodeID>): Found
    requires from in items
  {
    if order == [] then NOTHING_YET
    else Look(root, items, from, dir, Scan(root, items, from, dir, order[..|order| - 1]), order[|order| - 1])
  }

  /** order names each key exactly once. */
  ghost predicate Lists(order: seq<NodeID>, keys: set<NodeID>) {
    && (forall id :: id in order <==> id in keys)
    && (forall i, j | 0 <= i < j < |order| :: order[i] != order[j])
  }

  /** The source's test for one leaf: skipped, or its distance and centre delta. */
  method Measure(src: Rect, r: Rect, dir: Direction) returns (skip: bool, dist: int, cross: int)
    requires !dir.Nowhere?
    ensures skip <==> !Ahead(src, r, dir)
    ensures !skip ==> dist == Distance(src, r, dir) && cross == Cross(src, r, dir)
  {
    skip, dist, cross := true, 0, 0;
    match dir {
      case Left =>
        if r.x + r.w > src.x || !Overlaps(r.y, r.h, src.y, src.h) { return; }
        skip, dist, cross := false, src.x - (r.x + r.w), CenterDelta(r.y, r.h, src.y, src.h);
      case Right =>
        if r.x < src.x + src.w || !Overlaps(r.y, r.h, src.y, src.h) { return; }
        skip, dist, cross := false, r.x - (src.x + src.w), CenterDelta(r.y, r.h, src.y, src.h);
      case Up =>
        if r.y + r.h > src.y || !Overlaps(r.x, r.w, src.x, src.w) { return; }
        skip, dist, cross := false, src.y - (r.y + r.h), CenterDelta(r.x, r.w, src.x, src.w);
      case Down =>
        if r.y < src.y + src.h || !Overlaps(r.x, r.w, src.x, src.w) { return; }
        skip, dist, cross := false, r.y - (src.y + src.h), CenterDelta(r.x, r.w, src.x, src.w);
    }
  }

  /**
   The scan over the layout map, in whatever order the map yields its keys: the result is a nearest
   candidate, and it is the one this order leads to.
   */
  method NeighborLeaf(root: Node, area: Rect, gap: int, from: NodeID, dir: Direction)
      returns (best: NodeID, ghost order: seq<NodeID>)
    ensures from !in Layout(root, area, gap) || dir.Nowhere? ==> best == ""
    ensures from in Layout(root, area, gap) && !dir.Nowhere? ==>
      && Lists(order, Layout(root, area, gap).Keys)
      && best == Scan(root, Layout(root, area, gap), from, dir, order).best
    ensures !HasLeaf(root, "") ==> IsNearest(root, Layout(root, area, gap), from, dir, best)
  {
    hide Ahead, HasLeaf, Distance, Cross, IsNearest, Layout;
    var items := ComputeLayout(root, area, gap);
    order := [];
    if from !in items {
      NowhereIsEmpty(root, items, from, dir);
      return "", [];
    }
    var src := items[from].rect;
    var bestRect, bestDist, bestCross := NO_RECT, FAR, FAR;
    best := "";
    var rest := items.Keys;
    while rest != {}
      invariant rest <= items.Keys && Lists(order, items.Keys - rest)
      invariant dir.Nowhere? ==> best == ""
      invariant Found(best, bestRect, bestDist, bestCross) == Scan(root, items, from, dir, order)
      decreases rest
    {
      var id :| id in rest;
      assert (order + [id])[..|order|] == order;
      rest, order := rest - {id}, order + [id];
      if !HasLeaf(root, id) || id == from { continue; }
      if dir.Nowhere? {
        NowhereIsEmpty(root, items, from, dir);
        return "", order;
      }
      var r := items[id].rect;
      var skip, dist, cross := Measure(src, r, dir);
      if skip { continue; }
      var better := dist < bestDist
        || (dist == bestDist && cross < bestCross)
        || (dist == bestDist && cross == bestCross
            && (best == "" || r.y < bestRect.y || (r.y == bestRect.y && r.x < bestRect.x)));
      if better { best, bestRect, bestDist, bestCross := id, r, dist, cross; }
    }
    assert items.Keys - rest == items.Keys;
    if !HasLeaf(root, "") { ScanFindsNearest(root, items, from, dir, order); }
  }

  lemma {:induction false} NowhereIsEmpty(root: Node, items: map<NodeID, Item>, from: NodeID, dir: Direction)
    requires dir.Nowhere? || from !in items
    ensures IsNearest(root, items, from, dir, "")
  {
  }

  /** The best of what was looked at so far. */
  ghost predicate BestAmong(root: Node, items: map<NodeID, Item>, from: NodeID, dir: Direction, order: seq<NodeID>, f: Found)
    requires from in items
  {
    var src := items[from].rect;
    if f.best == "" then f == NOTHING_YET && forall id | id in order :: !Visible(root, items, from, dir, id)
    else
      && f.best in order && Visible(root, items, from, dir, f.best)
      && f == Found(f.best, items[f.best].rect, Distance(src, f.rect, dir), Cross(src, f.rect, dir))
      && forall id | id in order && Candidate(root, items, from, dir, id) :: NoFarther(src, f.rect, items[id].rect, dir)
  }

  lemma {:induction false} ScanIsBest(root: Node, items: map<NodeID, Item>, from: NodeID, dir: Direction, order: seq<NodeID>)
    requires from in items && !HasLeaf(root, "")
    ensures BestAmong(root, items, from, dir, order, Scan(root, items, from, dir, order))
  {
    hide Ahead, HasLeaf, Distance, Cross;
    if order != [] {
      var rest, id := order[..|order| - 1], order[|order| - 1];
      ScanIsBest(root, items, from, dir, rest);
      LookKeepsBest(root, items, from, dir, rest, Scan(root, items, from, dir, rest), id);
      assert rest + [id] == order;
    }
  }

  /** One more item: a better candidate replaces the best, anything else leaves it. */
  lemma {:induction false} LookKeepsBest(root: Node, items: map<NodeID, Item>, from: NodeID, dir: Direction,
                                         order: seq<NodeID>, f: Found, id: NodeID)
    requires from in items && !HasLeaf(root, "") && BestAmong(root, items, from, dir, order, f)
    ensures BestAmong(root, items, from, dir, order + [id], Look(root, items, from, dir, f, id))
  {
    hide Ahead, HasLeaf, Distance, Cross;
  }

  lemma {:induction false} ScanFindsNearest(root: Node, items: map<NodeID, Item>, from: NodeID, dir: Direction,
                                            order: seq<NodeID>)
    requires from in items && !HasLeaf(root, "") && Lists(order, items.Keys)
    ensures IsNearest(root, items, from, dir, Scan(root, items, from, dir, order).best)
  {
    hide Ahead, HasLeaf, Distance, Cross, Scan;
    ScanIsBest(root, items, from, dir, order);
  }

  // ----- when the answer depends on the map's order -------------------------

  /** Two candidates at the same distance, centre delta and corner. */
  predicate Ties(root: Node, items: map<NodeID, Item>, from: NodeID, dir: Direction, i: NodeID, j: NodeID)
    requires from in items
  {
    && i != j && Visible(root, items, from, dir, i) && Visible(root, items, from, dir, j)
    && var src, a, b := items[from].rect, items[i].rect, items[j].rect;
       && Distance(src, a, dir) == Distance(src, b, dir) && Cross(src, a, dir) == Cross(src, b, dir)
       && a.x == b.x && a.y == b.y
  }

  /** Such a tie with no candidate nearer. */
  ghost predicate TiedAtFront(root: Node, items: map<NodeID, Item>, from: NodeID, dir: Direction)
    requires from in items
  {
    exists i, j :: Ties(root, items, from, dir, i, j)
      && forall k :: Candidate(root, items, from, dir, k) ==> NoFarther(items[from].rect, items[i].rect, items[k].rect, dir)
  }

  /** Two orders of looking at the items that lead to different answers. */
  ghost predicate OrderDecides(root: Node, items: map<NodeID, Item>, from: NodeID, dir: Direction)
    requires from in items
  {
    exists p, q :: Lists(p, items.Keys) && Lists(q, items.Keys)
      && Scan(root, items, from, dir, p).best != Scan(root, items, from, dir, q).best
  }

  /** The first item looked at is the answer if no candidate is nearer. */
  lemma {:induction false} FirstIsKept(root: Node, items: map<NodeID, Item>, from: NodeID, dir: Direction, order: seq<NodeID>)
    requires from in items && order != [] && order[0] != "" && Visible(root, items, from, dir, order[0])
    requires forall k :: Candidate(root, items, from, dir, k) ==>
      NoFarther(items[from].rect, items[order[0]].rect, items[k].rect, dir)
    ensures var src, r := items[from].rect, items[order[0]].rect;
      Scan(root, items, from, dir, order) == Found(order[0], r, Distance(src, r, dir), Cross(src, r, dir))
  {
    hide Ahead, HasLeaf, Distance, Cross;
    if |order| > 1 {
      FirstIsKept(root, items, from, dir, order[..|order| - 1]);
    } else {
      assert Scan(root, items, from, dir, order[..0]) == NOTHING_YET;
    }
  }

  lemma {:induction false} Enumerated(keys: set<NodeID>) returns (order: seq<NodeID>)
    ensures Lists(order, keys)
  {
    if keys == {} {
      order := [];
    } else {
      var id :| id in keys;
      var rest := Enumerated(keys - {id});
      order := [id] + rest;
    }
  }

  /** An order that starts with a given key. */
  lemma {:induction false} Leading(keys: set<NodeID>, id: NodeID) returns (order: seq<NodeID>)
    requires id in keys
    ensures Lists(order, keys) && order != [] && order[0] == id
  {
    var rest := Enumerated(keys - {id});
    order := [id] + rest;
  }

  /** The order in which the layout map is scanned decides the answer exactly if two candidates tie and none is nearer. */
  lemma {:induction false} OrderDecidesIffTied(root: Node, items: map<NodeID, Item>, from: NodeID, dir: Direction)
    requires from in items && !HasLeaf(root, "")
    ensures OrderDecides(root, items, from, dir) <==> TiedAtFront(root, items, from, dir)
  {
    hide HasLeaf, Scan, Lists, TiedAtFront, IsNearest;
    if OrderDecides(root, items, from, dir) {
      var p, q :| Lists(p, items.Keys) && Lists(q, items.Keys)
        && Scan(root, items, from, dir, p).best != Scan(root, items, from, dir, q).best;
      ScanFindsNearest(root, items, from, dir, p);
      ScanFindsNearest(root, items, from, dir, q);
      NearestTie(root, items, from, dir, Scan(root, items, from, dir, p).best, Scan(root, items, from, dir, q).best);
    }
    if TiedAtFront(root, items, from, dir) { TieIsDecided(root, items, from, dir); }
  }

  lemma {:induction false} TieIsDecided(root: Node, items: map<NodeID, Item>, from: NodeID, dir: Direction)
    requires from in items && !HasLeaf(root, "") && TiedAtFront(root, items, from, dir)
    ensures OrderDecides(root, items, from, dir)
  {
    hide Ahead, HasLeaf, Distance, Cross, Scan, Lists;
    var i, j :| Ties(root, items, from, dir, i, j)
      && forall k :: Candidate(root, items, from, dir, k) ==> NoFarther(items[from].rect, items[i].rect, items[k].rect, dir);
    var p := Leading(items.Keys, i);
    var q := Leading(items.Keys, j);
    FirstIsKept(root, items, from, dir, p);
    FirstIsKept(root, items, from, dir, q);
  }

  /** Two different nearest candidates tie. */
  lemma {:induction false} NearestTie(root: Node, items: map<NodeID, Item>, from: NodeID, dir: Direction, i: NodeID, j: NodeID)
    requires from in items && i != j && IsNearest(root, items, from, dir, i) && IsNearest(root, items, from, dir, j)
    ensures Ties(root, items, from, dir, i, j) && TiedAtFront(root, items, from, dir)
  {
    hide Ahead, HasLeaf, Distance, Cross;
    assert NoFarther(items[from].rect, items[i].rect, items[j].rect, dir);
    assert NoFarther(items[from].rect, items[j].rect, items[i].rect, dir);
  }

  /** In a layout without overflow two leaves whose rectangles start at the same point are the same leaf. */
  lemma {:induction false} CornerIdentifiesLeaf(root: Node, area: Rect, gap: int, i: NodeID, j: NodeID)
    requires Uncrowded(root, area, gap) && HasLeaf(root, i) && HasLeaf(root, j)
    requires i in Layout(root, area, gap) && j in Layout(root, area, gap)
    requires var items := Layout(root, area, gap);
      items[i].rect.x == items[j].rect.x && items[i].rect.y == items[j].rect.y
    ensures i == j
  {
    var items := Layout(root, area, gap);
    LaidOutIffPresent(root, area, gap, i);
    LaidOutIffPresent(root, area, gap, j);
    NodesInside(root, area, gap, i);
    NodesInside(root, area, gap, j);
    var px, py := items[i].rect.x, items[i].rect.y;
    RoomyTilesExactly(root, area, gap, px, py);
    assert Paints(root, items, i, px, py) && Paints(root, items, j, px, py);
  }

  /** There no two candidates tie, so whatever the order of the scan there is one answer. */
  lemma {:induction false} UncrowdedHasOneAnswer(root: Node, area: Rect, gap: int, from: NodeID, dir: Direction)
    requires Uncrowded(root, area, gap) && from in Layout(root, area, gap)
    ensures !TiedAtFront(root, Layout(root, area, gap), from, dir)
    ensures !OrderDecides(root, Layout(root, area, gap), from, dir)
  {
    hide Uncrowded, Ahead, Distance, Cross, Layout, InReach, OrderDecides, HasLeaf;
    var items := Layout(root, area, gap);
    NoEmptyLeaf(root, area, gap);
    forall i, j
      ensures !Ties(root, items, from, dir, i, j)
    {
      if Candidate(root, items, from, dir, i) && Candidate(root, items, from, dir, j)
         && items[i].rect.x == items[j].rect.x && items[i].rect.y == items[j].rect.y {
        CornerIdentifiesLeaf(root, area, gap, i, j);
      }
    }
    OrderDecidesIffTied(root, items, from, dir);
  }

  lemma {:induction false} NoEmptyLeaf(root: Node, area: Rect, gap: int)
    requires Uncrowded(root, area, gap)
    ensures !HasLeaf(root, "")
  {
    FindIffPresent(root, "");
    if "" in NodeIds(root) { FoundIds(root, ""); }
  }

  /** A leaf split in two, and the left half split again, all side by side. */
  function Thirds(outer: NodeID, inner: NodeID, a: NodeID, b: NodeID, c: NodeID): Node {
    Split(outer, Row, 0.5, Split(inner, Row, 0.5, Leaf(a, ""), Leaf(b, "")), Leaf(c, ""))
  }

  ghost predicate AllDifferent(ids: seq<NodeID>) { forall i, j | 0 <= i < j < |ids| :: ids[i] != ids[j] }

  lemma {:induction false} ThirdsRects(n: Node, height: int)
    requires n.Split? && n.dir == Row && n.ratio == 0.5
    ensures First(n, Rect(0, 0, 10, height), 8) == First(n, Rect(0, 0, 1, height), 8) == Rect(0, 0, 1, height)
    ensures Second(n, Rect(0, 0, 10, height), 8) == Second(n, Rect(0, 0, 1, height), 8) == Rect(9, 0, 1, height)
  {
    assert Trunc(2 as real * 0.5) == 1;
  }

  lemma {:induction false} ThirdsLaidOut(outer: NodeID, inner: NodeID, a: NodeID, b: NodeID, c: NodeID, height: int)
    requires AllDifferent([outer, inner, a, b, c])
    ensures var items := Layout(Thirds(outer, inner, a, b, c), Rect(0, 0, 10, height), 8);
      && a in items && b in items && c in items
      && items[a].rect == Rect(0, 0, 1, height) && items[b].rect == items[c].rect == Rect(9, 0, 1, height)
  {
    hide First, Second, Divider;
    var ids := [outer, inner, a, b, c];
    assert ids[1] != ids[2] && ids[1] != ids[3] && ids[1] != ids[4] && ids[2] != ids[3] && ids[2] != ids[4] && ids[3] != ids[4];
    assert ids[0] != ids[2] && ids[0] != ids[3] && ids[0] != ids[4];
    var root := Thirds(outer, inner, a, b, c);
    ThirdsRects(root, height);
    ThirdsRects(root.a, height);
    var left := Rect(0, 0, 1, height);
    assert Layout(root.a, left, 8)
        == map[inner := ItemOf(root.a, left, 8)] + Layout(Leaf(a, ""), left, 8) + Layout(Leaf(b, ""), Rect(9, 0, 1, height), 8);
  }

  /**
   The finding: with the program's gap of eight pixels and an area ten wide, the inner split overflows; its
   right leaf and the outer one get the same rectangle, and which of them lies right of the first leaf depends
   on the order of the map.
   */
  lemma {:induction false} OverflowTies(outer: NodeID, inner: NodeID, a: NodeID, b: NodeID, c: NodeID, height: int)
    requires AllDifferent([outer, inner, a, b, c]) && "" !in [outer, inner, a, b, c] && height >= 1
    ensures var root := Thirds(outer, inner, a, b, c);
      var items := Layout(root, Rect(0, 0, 10, height), 8);
      && ValidTree(root) && a in items
      && IsNearest(root, items, a, Right, b) && IsNearest(root, items, a, Right, c)
      && OrderDecides(root, items, a, Right)
  {
    hide Layout, Scan, OrderDecides, ValidTree;
    var root := Thirds(outer, inner, a, b, c);
    var items := Layout(root, Rect(0, 0, 10, height), 8);
    ThirdsLaidOut(outer, inner, a, b, c, height);
    ThirdsValid(outer, inner, a, b, c);
    var ids := [outer, inner, a, b, c];
    assert ids[2] != ids[3] && ids[2] != ids[4] && ids[3] != ids[4];
    forall k | Candidate(root, items, a, Right, k)
      ensures k == b || k == c
    {
    }
    assert Ties(root, items, a, Right, b, c);
    OrderDecidesIffTied(root, items, a, Right);
  }

  lemma {:induction false} ThirdsValid(outer: NodeID, inner: NodeID, a: NodeID, b: NodeID, c: NodeID)
    requires AllDifferent([outer, inner, a, b, c]) && "" !in [outer, inner, a, b, c]
    ensures var root := Thirds(outer, inner, a, b, c);
      && ValidTree(root) && !HasLeaf(root, "")
      && forall k :: HasLeaf(root, k) <==> k == a || k == b || k == c
  {
    hide HasLeaf, WellFormed, NodeIds;
    var ids := [outer, inner, a, b, c];
    assert ids[0] != ids[1] && ids[0] != ids[2] && ids[0] != ids[3] && ids[0] != ids[4];
    assert ids[1] != ids[2] && ids[1] != ids[3] && ids[1] != ids[4];
    assert ids[2] != ids[3] && ids[2] != ids[4] && ids[3] != ids[4];
    assert outer in ids && inner in ids && a in ids && b in ids && c in ids;
    assert outer != "" && inner != "" && a != "" && b != "" && c != "";
    ThirdsIds(outer, inner, a, b, c);
    forall k ensures HasLeaf(Thirds(outer, inner, a, b, c), k) <==> k == a || k == b || k == c {
      ThirdsLeaf(outer, inner, a, b, c, k);
    }
  }

  lemma {:induction false} ThirdsIds(outer: NodeID, inner: NodeID, a: NodeID, b: NodeID, c: NodeID)
    requires outer != "" && inner != "" && a != "" && b != "" && c != ""
    ensures WellFormed(Thirds(outer, inner, a, b, c))
    ensures NodeIds(Thirds(outer, inner, a, b, c))
         == multiset{outer} + (multiset{inner} + multiset{a} + multiset{b}) + multiset{c}
  {
    var left := Split(inner, Row, 0.5, Leaf(a, ""), Leaf(b, ""));
    assert NodeIds(left) == multiset{inner} + multiset{a} + multiset{b} && WellFormed(left);
    assert NodeIds(Leaf(c, "")) == multiset{c} && WellFormed(Leaf(c, ""));
    assert Thirds(outer, inner, a, b, c) == Split(outer, Row, 0.5, left, Leaf(c, ""));
  }

  lemma {:induction false} ThirdsLeaf(outer: NodeID, inner: NodeID, a: NodeID, b: NodeID, c: NodeID, k: NodeID)
    requires outer != a && outer != b && outer != c && inner != a && inner != b && inner != c
    ensures HasLeaf(Thirds(outer, inner, a, b, c), k) <==> k == a || k == b || k == c
  {
    var left := Split(inner, Row, 0.5, Leaf(a, ""), Leaf(b, ""));
    var root := Split(outer, Row, 0.5, left, Leaf(c, ""));
    assert Find(Leaf(a, ""), k) == (if k == a then Some(Leaf(a, "")) else None);
    assert Find(Leaf(b, ""), k) == (if k == b then Some(Leaf(b, "")) else None);
    assert Find(Leaf(c, ""), k) == (if k == c then Some(Leaf(c, "")) else None);
    assert Find(left, k) == if k == inner then Some(left) else if k == a then Some(Leaf(a, ""))
                            else if k == b then Some(Leaf(b, "")) else None;
    assert Find(root, k) ==
      if k == outer then Some(root) else if Find(left, k).Some? then Find(left, k) else Find(Leaf(c, ""), k);
  }

  // ----- completeness and adjacency -----------------------------------------

  function RectOf(n: Node, r: Rect, gap: int, id: NodeID): Rect
    requires id in Layout(n, r, gap)
  {
    Layout(n, r, gap)[id].rect
  }

  predicate LeafOf(n: Node, id: NodeID) { id in NodeIds(n) && HasLeaf(n, id) }

  /** The edge of a rectangle one meets when leaving it along an axis. */
  function Edge(r: Rect, row: bool, back: bool): int { if back then Start(r, row) else End(r, row) }

  predicate Shares(a: Rect, row: bool, lo: int, hi: int) { Start(a, row) < hi && lo < End(a, row) }

  /** Any stretch longer than the gap, alongside one edge of a tree, meets a leaf lying on that edge. */
  lemma {:induction false} EdgeLeaf(n: Node, r: Rect, gap: int, row: bool, back: bool, lo: int, hi: int)
      returns (id: NodeID)
    requires Distinct(NodeIds(n)) && gap >= 0 && Roomy(n, r, gap) && Solid(r)
    requires hi - lo > gap && Shares(r, !row, lo, hi)
    ensures LeafOf(n, id) && id in Layout(n, r, gap)
    ensures Edge(RectOf(n, r, gap, id), row, back) == Edge(r, row, back)
    ensures Shares(RectOf(n, r, gap, id), !row, lo, hi)
  {
    if n.Leaf? {
      id := n.id;
    } else {
      hide NodeIds, Distinct, Layout;
      HalvesFit(n, r, gap);
      DistinctParts(n);
      var first, second := First(n, r, gap), Second(n, r, gap);
      if (if IsRow(n) == row then back else Shares(first, !row, lo, hi)) {
        id := EdgeLeaf(n.a, first, gap, row, back, lo, hi);
      } else {
        id := EdgeLeaf(n.b, second, gap, row, back, lo, hi);
      }
      NodeIdsBelow(n, id);
      LookBelow(n, r, gap, id);
    }
  }

  /** Two leaves side by side across an axis are at least a divider apart along it. */
  lemma {:induction false} LeavesApart(n: Node, r: Rect, gap: int, row: bool, s: NodeID, t: NodeID)
    requires Distinct(NodeIds(n)) && gap >= 0 && Roomy(n, r, gap) && Solid(r)
    requires LeafOf(n, s) && LeafOf(n, t) && s != t && s in Layout(n, r, gap) && t in Layout(n, r, gap)
    requires var u := RectOf(n, r, gap, t); Shares(RectOf(n, r, gap, s), !row, Start(u, !row), End(u, !row))
    ensures var a, b := RectOf(n, r, gap, s), RectOf(n, r, gap, t);
      End(a, row) + gap <= Start(b, row) || End(b, row) + gap <= Start(a, row)
  {
    if n.Split? {
      HalvesFit(n, r, gap);
      LookBelow(n, r, gap, s);
      LookBelow(n, r, gap, t);
      var first, second := First(n, r, gap), Second(n, r, gap);
      if s in NodeIds(n.a) && t in NodeIds(n.a) {
        LeavesApart(n.a, first, gap, row, s, t);
      } else if s in NodeIds(n.b) && t in NodeIds(n.b) {
        LeavesApart(n.b, second, gap, row, s, t);
      } else if s in NodeIds(n.a) {
        NodesInside(n.a, first, gap, s);
        NodesInside(n.b, second, gap, t);
      } else {
        NodesInside(n.b, second, gap, s);
        NodesInside(n.a, first, gap, t);
      }
    }
  }

  lemma {:induction false} NodeIdsBelow(n: Node, id: NodeID)
    requires n.Split? && (id in NodeIds(n.a) || id in NodeIds(n.b))
    ensures id in NodeIds(n)
  {
  }

  function Child(n: Node, inA: bool): Node
    requires n.Split?
  {
    if inA then n.a else n.b
  }

  function HalfRect(n: Node, r: Rect, gap: int, inA: bool): Rect
    requires n.Split?
  {
    if inA then First(n, r, gap) else Second(n, r, gap)
  }

  lemma {:induction false} HalfIsRoomy(n: Node, r: Rect, gap: int, inA: bool)
    requires n.Split? && Distinct(NodeIds(n)) && gap >= 0 && Roomy(n, r, gap) && Solid(r)
    ensures Distinct(NodeIds(Child(n, inA)))
    ensures Roomy(Child(n, inA), HalfRect(n, r, gap, inA), gap) && Solid(HalfRect(n, r, gap, inA))
  {
    HalvesFit(n, r, gap);
    DistinctParts(n);
  }

  /** A leaf of one half is a leaf of the whole, in the same place. */
  lemma {:induction false} LeafOfHalf(n: Node, r: Rect, gap: int, inA: bool, id: NodeID)
    requires n.Split? && Distinct(NodeIds(n)) && id in NodeIds(Child(n, inA))
    ensures LeafOf(n, id) <==> LeafOf(Child(n, inA), id)
    ensures id in Layout(n, r, gap) && id in Layout(Child(n, inA), HalfRect(n, r, gap, inA), gap)
    ensures RectOf(n, r, gap, id) == RectOf(Child(n, inA), HalfRect(n, r, gap, inA), gap, id)
  {
    NodeIdsBelow(n, id);
    LookBelow(n, r, gap, id);
  }

  /** Only across its divider does a half end where the whole does not. */
  lemma {:induction false} InnerEdge(n: Node, r: Rect, gap: int, row: bool, back: bool, inA: bool)
    requires n.Split? && gap >= 0 && Roomy(n, r, gap) && Solid(r)
    requires Edge(HalfRect(n, r, gap, inA), row, back) != Edge(r, row, back)
    ensures row == IsRow(n) && back == !inA
  {
    HalvesFit(n, r, gap);
  }

  /** Across a divider, from a leaf of one half that touches it: a leaf of the other half that touches it too. */
  lemma {:induction false} LeafAcross(n: Node, r: Rect, gap: int, from: NodeID, inA: bool) returns (id: NodeID)
    requires n.Split? && Distinct(NodeIds(n)) && gap >= 0 && Roomy(n, r, gap) && Solid(r)
    requires from in NodeIds(Child(n, inA)) && from in Layout(n, r, gap)
    requires var src := RectOf(n, r, gap, from); var row := IsRow(n);
      Edge(src, row, !inA) == Edge(HalfRect(n, r, gap, inA), row, !inA) && Extent(src, !row) > gap
    ensures LeafOf(n, id) && id in Layout(n, r, gap) && id != from
    ensures var row := IsRow(n); var a, b := RectOf(n, r, gap, from), RectOf(n, r, gap, id);
      && (if inA then End(a, row) + gap == Start(b, row) else End(b, row) + gap == Start(a, row))
      && Shares(b, !row, Start(a, !row), End(a, !row))
  {
    hide Layout, NodeIds, Distinct, Roomy, First, Second, Find, HasLeaf;
    HalvesFit(n, r, gap);
    HalfIsRoomy(n, r, gap, inA);
    HalfIsRoomy(n, r, gap, !inA);
    LeafOfHalf(n, r, gap, inA, from);
    NodesInside(Child(n, inA), HalfRect(n, r, gap, inA), gap, from);
    DistinctParts(n);
    var src, row := RectOf(n, r, gap, from), IsRow(n);
    id := EdgeLeaf(Child(n, !inA), HalfRect(n, r, gap, !inA), gap, row, inA, Start(src, !row), End(src, !row));
    LeafOfHalf(n, r, gap, !inA, id);
  }

  /** A leaf thicker than the gap, off the edge of the area, has a leaf exactly one divider away. */
  lemma {:induction false} AdjacentLeaf(n: Node, r: Rect, gap: int, row: bool, back: bool, from: NodeID)
      returns (id: NodeID)
    requires Distinct(NodeIds(n)) && gap >= 0 && Roomy(n, r, gap) && Solid(r)
    requires LeafOf(n, from) && from in Layout(n, r, gap)
    requires Extent(RectOf(n, r, gap, from), !row) > gap
    requires Edge(RectOf(n, r, gap, from), row, back) != Edge(r, row, back)
    ensures LeafOf(n, id) && id in Layout(n, r, gap) && id != from
    ensures var a, b := RectOf(n, r, gap, from), RectOf(n, r, gap, id);
      && (if back then End(b, row) + gap == Start(a, row) else End(a, row) + gap == Start(b, row))
      && Shares(b, !row, Start(a, !row), End(a, !row))
  {
    if n.Split? {
      hide Distinct, Layout, NodeIds, Find, First, Second, Roomy, Solid, LeafOf, Start, End, Shares, Edge, Extent, HalfRect;
      var inA := from in NodeIds(n.a);
      InEither(n, from);
      LeafOfHalf(n, r, gap, inA, from);
      HalfIsRoomy(n, r, gap, inA);
      var half := HalfRect(n, r, gap, inA);
      if Edge(RectOf(n, r, gap, from), row, back) != Edge(half, row, back) {
        id := AdjacentLeaf(Child(n, inA), half, gap, row, back, from);
        LeafIsIn(Child(n, inA), id);
        LeafOfHalf(n, r, gap, inA, id);
      } else {
        InnerEdge(n, r, gap, row, back, inA);
        id := LeafAcross(n, r, gap, from, inA);
      }
    }
  }

  lemma {:induction false} LeafIsIn(n: Node, id: NodeID)
    requires LeafOf(n, id)
    ensures id in NodeIds(n)
  {
  }

  /** A leaf of a split is in one of its halves. */
  lemma {:induction false} InEither(n: Node, id: NodeID)
    requires n.Split? && Distinct(NodeIds(n)) && LeafOf(n, id)
    ensures id in NodeIds(n.a) || id in NodeIds(n.b)
  {
  }

  /**
   Directional focus is complete and adjacent: from a leaf thicker than the gap the answer is
   empty exactly when the leaf lies on that edge of the area, and otherwise it is a leaf that
   shares some of the cross axis and is exactly one divider away.
   */
  lemma {:induction false} FocusIsCompleteAndAdjacent(root: Node, area: Rect, gap: int, from: NodeID, dir: Direction,
                                                      best: NodeID)
    requires Navigable(root, area, gap) && !dir.Nowhere?
    requires LeafOf(root, from) && from in Layout(root, area, gap)
    requires Extent(RectOf(root, area, gap, from), !Sideways(dir)) > gap
    requires IsNearest(root, Layout(root, area, gap), from, dir, best)
    ensures var items := Layout(root, area, gap);
      var row, back := Sideways(dir), Backward(dir);
      && (best == "" <==> Edge(items[from].rect, row, back) == Edge(area, row, back))
      && (best != "" ==>
            && Candidate(root, items, from, dir, best)
            && Distance(items[from].rect, items[best].rect, dir) == gap
            && LiesAt(items[from].rect, items[best].rect, dir, gap))
  {
    hide Layout, NodeIds, Distinct, Roomy, WellFormed;
    var items := Layout(root, area, gap);
    var row, back := Sideways(dir), Backward(dir);
    if Edge(items[from].rect, row, back) == Edge(area, row, back) {
      forall id
        ensures !Candidate(root, items, from, dir, id)
      {
        EdgeHasNoneAhead(root, area, gap, from, dir, id);
      }
    } else {
      var next := AdjacentLeaf(root, area, gap, row, back, from);
      assert Candidate(root, items, from, dir, next);
      AllInReach(root, area, gap, from, dir, next);
      NoEmptyLeaf(root, area, gap);
      CandidatesApart(root, area, gap, from, dir, best);
    }
  }

  // ----- nearest, on screen -------------------------------------------------

  /** r lies d pixels away from src in the direction, and the two share some line across. */
  predicate LiesAt(src: Rect, r: Rect, dir: Direction, d: int) {
    match dir
    case Left => r.x + r.w + d == src.x && r.y < src.y + src.h && src.y < r.y + r.h
    case Right => src.x + src.w + d == r.x && r.y < src.y + src.h && src.y < r.y + r.h
    case Up => r.y + r.h + d == src.y && r.x < src.x + src.w && src.x < r.x + r.w
    case Down => src.y + src.h + d == r.y && r.x < src.x + src.w && src.x < r.x + r.w
    case Nowhere(_) => false
  }

  /** Another leaf lies d pixels away in the direction. */
  predicate LeafLiesAt(root: Node, items: map<NodeID, Item>, from: NodeID, dir: Direction, id: NodeID, d: nat)
    requires from in items
  {
    id in items && HasLeaf(root, id) && id != from && LiesAt(items[from].rect, items[id].rect, dir, d)
  }

  /** Twice the distance between the centres, across the direction. */
  function OffCentre(src: Rect, r: Rect, dir: Direction): nat {
    var d := if dir.Left? || dir.Right? then (2 * r.y + r.h) - (2 * src.y + src.h) else (2 * r.x + r.w) - (2 * src.x + src.w);
    if d < 0 then -d else d
  }

  /** The pixels between the middle pixels, across the direction. */
  function MiddleGap(src: Rect, r: Rect, dir: Direction): nat {
    var d := if dir.Left? || dir.Right? then (r.y + r.h / 2) - (src.y + src.h / 2) else (r.x + r.w / 2) - (src.x + src.w / 2);
    if d < 0 then -d else d
  }

  /** Nearer the middle; or as near, and higher up, or as high and no farther right. */
  predicate Precedes(src: Rect, a: Rect, b: Rect, dir: Direction) {
    var ga, gb := MiddleGap(src, a, dir), MiddleGap(src, b, dir);
    ga < gb || (ga == gb && (a.y < b.y || (a.y == b.y && a.x <= b.x)))
  }

  lemma {:induction false} CrossIsOffCentre(src: Rect, r: Rect, dir: Direction)
    requires Solid(src) && Solid(r) && !dir.Nowhere?
    ensures -1 <= OffCentre(src, r, dir) - 2 * Cross(src, r, dir) <= 1 && Cross(src, r, dir) == MiddleGap(src, r, dir)
  {
    if Sideways(dir) { Middles(r.y, r.h, src.y, src.h); } else { Middles(r.x, r.w, src.x, src.w); }
  }

  /** Middle pixels and doubled centres of two stretches. */
  lemma {:induction false} Middles(a: int, aw: int, b: int, bw: int)
    requires aw >= 1 && bw >= 1
    ensures var middle, centre := (a + aw / 2) - (b + bw / 2), (2 * a + aw) - (2 * b + bw);
      && CenterDelta(a, aw, b, bw) == (if middle < 0 then -middle else middle)
      && -1 <= (if centre < 0 then -centre else centre) - 2 * CenterDelta(a, aw, b, bw) <= 1
  {
  }

  lemma {:induction false} AheadLiesAt(src: Rect, r: Rect, dir: Direction)
    requires !dir.Nowhere?
    ensures Ahead(src, r, dir) <==> Distance(src, r, dir) >= 0 && LiesAt(src, r, dir, Distance(src, r, dir))
    ensures forall d: int | LiesAt(src, r, dir, d) :: d == Distance(src, r, dir)
  {
    match dir {
      case Left =>
      case Right =>
      case Up =>
      case Down =>
    }
  }

  /**
   The answer by rectangles alone: it is empty exactly if no other leaf lies in that direction sharing a line
   with the source; otherwise it is such a leaf, none is nearer, and of those as near its middle is the nearest to
   the source's, the topmost and then the leftmost of them. In centres that is right to within the pixel that the
   two halvings lose.
   */
  lemma {:induction false} NearestOnScreen(root: Node, area: Rect, gap: int, from: NodeID, dir: Direction, best: NodeID)
    requires Navigable(root, area, gap) && !dir.Nowhere? && from in Layout(root, area, gap)
    requires IsNearest(root, Layout(root, area, gap), from, dir, best)
    ensures var items := Layout(root, area, gap);
      forall id, d: nat | LeafLiesAt(root, items, from, dir, id, d) :: best != ""
    ensures var items := Layout(root, area, gap);
      best != "" ==>
        && best in items
        && var near := Distance(items[from].rect, items[best].rect, dir);
        && near >= 0 && LeafLiesAt(root, items, from, dir, best, near)
        && forall id, d: nat | LeafLiesAt(root, items, from, dir, id, d) ::
             d > near
             || (d == near
                 && Precedes(items[from].rect, items[best].rect, items[id].rect, dir)
                 && OffCentre(items[from].rect, items[best].rect, dir) <= OffCentre(items[from].rect, items[id].rect, dir) + 2)
  {
    hide Layout, NodeIds, Distinct, Roomy, WellFormed, HasLeaf, LiesAt, OffCentre, MiddleGap, Cross, Ahead, Distance;
    var items := Layout(root, area, gap);
    NoEmptyLeaf(root, area, gap);
    forall id | id in items ensures Solid(items[id].rect) {
      LaidOutIffPresent(root, area, gap, id);
      NodesInside(root, area, gap, id);
    }
    if best != "" {
      assert Candidate(root, items, from, dir, best);
      CrossIsOffCentre(items[from].rect, items[best].rect, dir);
      AheadLiesAt(items[from].rect, items[best].rect, dir);
    }
    forall id, d: nat | LeafLiesAt(root, items, from, dir, id, d)
      ensures Candidate(root, items, from, dir, id) && best != "" && d == Distance(items[from].rect, items[id].rect, dir)
      ensures -1 <= OffCentre(items[from].rect, items[id].rect, dir) - 2 * Cross(items[from].rect, items[id].rect, dir) <= 1
      ensures Cross(items[from].rect, items[id].rect, dir) == MiddleGap(items[from].rect, items[id].rect, dir)
    {
      CrossIsOffCentre(items[from].rect, items[id].rect, dir);
      AheadLiesAt(items[from].rect, items[id].rect, dir);
      assert Candidate(root, items, from, dir, id);
      AllInReach(root, area, gap, from, dir, id);
    }
  }

  /** Inside an area no larger than the scan's reach every candidate is seen. */
  lemma {:induction false} AllInReach(root: Node, area: Rect, gap: int, from: NodeID, dir: Direction, id: NodeID)
    requires Navigable(root, area, gap)
    requires from in Layout(root, area, gap) && Candidate(root, Layout(root, area, gap), from, dir, id)
    ensures Visible(root, Layout(root, area, gap), from, dir, id)
  {
    LaidOutIffPresent(root, area, gap, from);
    LaidOutIffPresent(root, area, gap, id);
    NodesInside(root, area, gap, from);
    NodesInside(root, area, gap, id);
  }

  lemma {:induction false} EdgeHasNoneAhead(root: Node, area: Rect, gap: int, from: NodeID, dir: Direction, id: NodeID)
    requires Navigable(root, area, gap) && from in Layout(root, area, gap)
    requires Edge(RectOf(root, area, gap, from), Sideways(dir), Backward(dir)) == Edge(area, Sideways(dir), Backward(dir))
    ensures !Candidate(root, Layout(root, area, gap), from, dir, id)
  {
    LaidOutIffPresent(root, area, gap, from);
    LaidOutIffPresent(root, area, gap, id);
    if id in Layout(root, area, gap) {
      NodesInside(root, area, gap, from);
      NodesInside(root, area, gap, id);
    }
  }

  lemma {:induction false} CandidatesApart(root: Node, area: Rect, gap: int, from: NodeID, dir: Direction, id: NodeID)
    requires Navigable(root, area, gap) && LeafOf(root, from) && from in Layout(root, area, gap)
    requires Candidate(root, Layout(root, area, gap), from, dir, id)
    ensures Distance(RectOf(root, area, gap, from), RectOf(root, area, gap, id), dir) >= gap
  {
    LaidOutIffPresent(root, area, gap, id);
    NodesInside(root, area, gap, from);
    NodesInside(root, area, gap, id);
    LeavesApart(root, area, gap, Sideways(dir), id, from);
  }

  // ----- a leaf thinner than the gap ----------------------------------------

  /** Two columns: three leaves in the left one, the middle of them thin, and two in the right one. */
  function Columns(ids: seq<NodeID>): Node
    requires |ids| == 9
  {
    var lower := Split(ids[3], Col, 0.5, Leaf(ids[4], ""), Leaf(ids[5], ""));
    Split(ids[0], Row, 0.5, Split(ids[1], Col, 0.1, Leaf(ids[2], ""), lower),
          Split(ids[6], Col, 0.5, Leaf(ids[7], ""), Leaf(ids[8], "")))
  }

  const SCREEN := Rect(0, 0, 30, 24)

  lemma {:induction false} ColumnsRects(n: Node)
    requires n.Split? && n.dir == Row && n.ratio == 0.5
    ensures First(n, SCREEN, 8) == Rect(0, 0, 11, 24) && Second(n, SCREEN, 8) == Rect(19, 0, 11, 24)
  {
    assert Trunc(22 as real * 0.5) == 11;
  }

  lemma {:induction false} LeftRects(left: Node, lower: Node)
    requires left.Split? && left.dir == Col && left.ratio == 0.1
    requires lower.Split? && lower.dir == Col && lower.ratio == 0.5
    ensures First(left, Rect(0, 0, 11, 24), 8) == Rect(0, 0, 11, 1)
    ensures Second(left, Rect(0, 0, 11, 24), 8) == Rect(0, 9, 11, 15)
    ensures First(lower, Rect(0, 9, 11, 15), 8) == Rect(0, 9, 11, 3)
    ensures Second(lower, Rect(0, 9, 11, 15), 8) == Rect(0, 20, 11, 4)
  {
    assert Trunc(16 as real * 0.1) == 1;
    assert Trunc(7 as real * 0.5) == 3;
  }

  lemma {:induction false} RightRects(right: Node)
    requires right.Split? && right.dir == Col && right.ratio == 0.5
    ensures First(right, Rect(19, 0, 11, 24), 8) == Rect(19, 0, 11, 8)
    ensures Second(right, Rect(19, 0, 11, 24), 8) == Rect(19, 16, 11, 8)
  {
    assert Trunc(16 as real * 0.5) == 8;
  }

  /** The ids of a tree, parents first. */
  function Preorder(n: Node): seq<NodeID> {
    if n.Leaf? then [n.id] else [n.id] + Preorder(n.a) + Preorder(n.b)
  }

  lemma {:induction false} PreorderIds(n: Node)
    ensures NodeIds(n) == multiset(Preorder(n))
  {
    if n.Split? {
      PreorderIds(n.a);
      PreorderIds(n.b);
    }
  }

  lemma {:induction false} DifferentOnce(ids: seq<NodeID>)
    requires AllDifferent(ids)
    ensures Distinct(multiset(ids))
  {
    if ids != [] {
      var rest, last := ids[..|ids| - 1], ids[|ids| - 1];
      assert ids == rest + [last];
      DifferentOnce(rest);
      assert last !in rest;
    }
  }

  lemma {:induction false} ColumnsPreorder(ids: seq<NodeID>)
    requires |ids| == 9
    ensures Preorder(Columns(ids)) == ids
  {
    var root := Columns(ids);
    assert Preorder(root.a.b) == [ids[3], ids[4], ids[5]];
    assert Preorder(root.a) == [ids[1], ids[2], ids[3], ids[4], ids[5]];
    assert Preorder(root.b) == [ids[6], ids[7], ids[8]];
  }

  lemma {:induction false} ColumnsValid(ids: seq<NodeID>)
    requires |ids| == 9 && AllDifferent(ids) && "" !in ids
    ensures ValidTree(Columns(ids))
  {
    hide Preorder, NodeIds, Distinct, AllDifferent;
    var root := Columns(ids);
    ColumnsPreorder(ids);
    PreorderIds(root);
    DifferentOnce(ids);
    assert forall k | 0 <= k < 9 :: ids[k] != "";
    assert WellFormed(root.a.a) && WellFormed(root.a.b);
    assert WellFormed(root.a) && WellFormed(root.b);
  }

  lemma {:induction false} ColumnsRoomy(ids: seq<NodeID>)
    requires |ids| == 9
    ensures Roomy(Columns(ids), SCREEN, 8)
  {
    hide First, Second;
    var root := Columns(ids);
    ColumnsRects(root);
    LeftRects(root.a, root.a.b);
    RightRects(root.b);
    assert Roomy(root.a.b, Rect(0, 9, 11, 15), 8);
    assert Roomy(root.a, Rect(0, 0, 11, 24), 8) && Roomy(root.b, Rect(19, 0, 11, 24), 8);
  }

  lemma {:induction false} ThinRect(ids: seq<NodeID>)
    requires |ids| == 9 && ValidTree(Columns(ids))
    ensures LeafOf(Columns(ids), ids[4]) && ids[4] in Layout(Columns(ids), SCREEN, 8)
    ensures RectOf(Columns(ids), SCREEN, 8, ids[4]) == Rect(0, 9, 11, 3)
  {
    hide First, Second, Distinct, WellFormed;
    var root := Columns(ids);
    ColumnsRects(root);
    LeftRects(root.a, root.a.b);
    var thin := ids[4];
    assert thin in NodeIds(root.a.b.a) && thin in NodeIds(root.a.b) && thin in NodeIds(root.a) && thin in NodeIds(root);
    hide Layout, NodeIds;
    LookBelow(root, SCREEN, 8, thin);
    LookBelow(root.a, Rect(0, 0, 11, 24), 8, thin);
    LookBelow(root.a.b, Rect(0, 9, 11, 15), 8, thin);
    LoneLeaf(root.a.b.a, Rect(0, 9, 11, 3));
  }

  lemma {:induction false} LoneLeaf(n: Node, r: Rect)
    requires n.Leaf?
    ensures NodeIds(n) == multiset{n.id} && Layout(n, r, 8) == map[n.id := Item(r, NO_RECT)] && HasLeaf(n, n.id)
  {
  }

  /** Nothing to the right of the thin leaf shares a row of pixels with it. */
  lemma {:induction false} NothingBeside(ids: seq<NodeID>, id: NodeID)
    requires |ids| == 9 && ValidTree(Columns(ids)) && ids[4] in Layout(Columns(ids), SCREEN, 8)
    requires RectOf(Columns(ids), SCREEN, 8, ids[4]) == Rect(0, 9, 11, 3)
    ensures !Candidate(Columns(ids), Layout(Columns(ids), SCREEN, 8), ids[4], Right, id)
  {
    hide Layout, NodeIds, Distinct, First, Second, WellFormed, Roomy;
    var root := Columns(ids);
    ColumnsRects(root);
    ColumnsRoomy(ids);
    LaidOutIffPresent(root, SCREEN, 8, id);
    if id in NodeIds(root) {
      LookBelow(root, SCREEN, 8, id);
      if id in NodeIds(root.a) {
        HalfIsRoomy(root, SCREEN, 8, true);
        NodesInside(root.a, Rect(0, 0, 11, 24), 8, id);
      } else if id in NodeIds(root.b) {
        RightRects(root.b);
        LookBelow(root.b, Rect(19, 0, 11, 24), 8, id);
        LoneLeaf(root.b.a, Rect(19, 0, 11, 8));
        LoneLeaf(root.b.b, Rect(19, 16, 11, 8));
      }
    }
  }

  /**
   That the leaf is thicker than the gap is needed: in this valid tree, laid out with the program's gap of eight
   and no split overflowing, a leaf three pixels high lies beside the divider of the other column, so
   that the answer to its right is empty although it is not at the edge.
   */
  lemma {:induction false} ThinLeafIsStranded(ids: seq<NodeID>)
    requires |ids| == 9 && AllDifferent(ids) && "" !in ids
    ensures var root, from := Columns(ids), ids[4];
      && Navigable(root, SCREEN, 8) && LeafOf(root, from) && from in Layout(root, SCREEN, 8)
      && Edge(RectOf(root, SCREEN, 8, from), true, false) < Edge(SCREEN, true, false)
      && IsNearest(root, Layout(root, SCREEN, 8), from, Right, "")
  {
    hide Layout, Roomy, ValidTree, AllDifferent, HasLeaf, NodeIds;
    ColumnsValid(ids);
    ColumnsRoomy(ids);
    ThinRect(ids);
    forall id
      ensures !Candidate(Columns(ids), Layout(Columns(ids), SCREEN, 8), ids[4], Right, id)
    {
      NothingBeside(ids, id);
    }
  }
}
