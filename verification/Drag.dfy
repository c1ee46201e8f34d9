/** Dragging a divider: pointer to ratio, sticky snapping, and the layout that results. */
module Drag {
  import opened Wrappers
  import opened Ids
  import opened Tree
  import opened TreeLaws
  import opened Geometry

  const SNAPS: seq<real> := [0.25, 1.0 / 3.0, 0.5, 2.0 / 3.0, 0.75]

  const STICK: real := 0.022

  function Abs(v: real): real { if v < 0.0 then -v else v }

  /** The first of these fractions within the sticky band of f. */
  function FirstNear(snaps: seq<real>, f: real): Option<real> {
    if snaps == [] then None
    else if Abs(f - snaps[0]) < STICK then Some(snaps[0])
    else FirstNear(snaps[1..], f)
  }

  function Snapped(f: real): real {
    var near := FirstNear(SNAPS, f);
    if near.Some? then near.value else f
  }

  /** s is one of the five fractions dividers stick at, and f is less than 0.022 off it. */
  predicate Sticks(f: real, s: real) {
    && (s == 0.25 || s == 1.0 / 3.0 || s == 0.5 || s == 2.0 / 3.0 || s == 0.75)
    && -0.022 < f - s < 0.022
  }

  /** What a fraction becomes: the one it sticks at, or itself. */
  lemma {:induction false} SnapsWithinBand(f: real)
    ensures forall s: real | Sticks(f, s) :: Snapped(f) == s
    ensures (exists s: real :: Sticks(f, s)) <==> FirstNear(SNAPS, f).Some?
    ensures (forall s: real :: !Sticks(f, s)) ==> Snapped(f) == f
  {
    NearIsOneOf(SNAPS, f);
    assert SNAPS[0] == 0.25 && SNAPS[1] == 1.0 / 3.0 && SNAPS[2] == 0.5 && SNAPS[3] == 2.0 / 3.0 && SNAPS[4] == 0.75;
    if FirstNear(SNAPS, f).Some? {
      assert Sticks(f, FirstNear(SNAPS, f).value);
    }
    assert forall s: real | Sticks(f, s) :: s in SNAPS;
  }

  /** Snaps exactly if the fraction is within the band of one of the five, and to that one. */
  method Snap(f: real) returns (value: real, snapped: bool)
    ensures snapped <==> exists s: real :: Sticks(f, s)
    ensures if snapped then Sticks(f, value) else value == f
    ensures value == Snapped(f)
  {
    SnapsWithinBand(f);
    for i := 0 to |SNAPS|
      invariant FirstNear(SNAPS[i..], f) == FirstNear(SNAPS, f)
    {
      var s := SNAPS[i];
      var d := f - s;
      if d < 0.0 { d := -d; }
      if d < STICK { return s, true; }
      assert SNAPS[i..][1..] == SNAPS[i + 1..];
    }
    return f, false;
  }

  function RatioForPointer(r: Rect, dir: Dir, x: int, y: int): real {
    if dir == Row then (if r.w == 0 then 0.5 else Clamp((x - r.x) as real / r.w as real))
    else (if r.h == 0 then 0.5 else Clamp((y - r.y) as real / r.h as real))
  }

  lemma {:induction false} NearIsOneOf(snaps: seq<real>, f: real)
    ensures FirstNear(snaps, f).Some? ==> FirstNear(snaps, f).value in snaps && Abs(f - FirstNear(snaps, f).value) < STICK
    ensures FirstNear(snaps, f).None? ==> forall s | s in snaps :: Abs(f - s) >= STICK
  {
    if snaps != [] {
      NearIsOneOf(snaps[1..], f);
      assert snaps == [snaps[0]] + snaps[1..];
    }
  }

  /** Snapping settles at once, moves less than the band, and stays within the ratio bounds. */
  lemma {:induction false} SnapSettles(f: real)
    ensures Snapped(Snapped(f)) == Snapped(f)
    ensures Abs(f - Snapped(f)) < STICK
    ensures MIN_RATIO <= f <= MAX_RATIO ==> MIN_RATIO <= Snapped(f) <= MAX_RATIO
    ensures Snapped(f) == f || Snapped(f) in SNAPS
  {
    NearIsOneOf(SNAPS, f);
    NearIsOneOf(SNAPS, Snapped(f));
    assert forall s | s in SNAPS :: s == 0.25 || s == 1.0 / 3.0 || s == 0.5 || s == 2.0 / 3.0 || s == 0.75;
  }

  // ----- re-laying out after set-ratio --------------------------------------

  /** Changing a split's ratio leaves every node outside its subtree where it was. */
  lemma {:induction false} OutsideStays(n: Node, r: Rect, gap: int, p: NodeID, ratio: real, q: NodeID)
    requires Distinct(NodeIds(n)) && Find(n, p).Some? && Find(n, p).value.Split?
    requires q in NodeIds(n) && q !in NodeIds(Find(n, p).value)
    ensures var out := Update(n, p, PutRatio(ratio));
      q in Layout(n, r, gap) && q in Layout(out, r, gap) && Layout(out, r, gap)[q] == Layout(n, r, gap)[q]
  {
    hide Layout, First, Second, ItemOf, NodeIds, Find;
    var out := Update(n, p, PutRatio(ratio));
    FoundHasOwnId(n, p);
    SearchSide(n, p);
    SameHalves(n, r, gap, p, ratio);
    RatioKeepsIds(n, p, ratio);
    LookBelow(n, r, gap, q);
    LookBelow(out, r, gap, q);
    if Find(n.a, p).Some? {
      UpdateAbsent(n.b, p, PutRatio(ratio));
      RatioKeepsIds(n.a, p, ratio);
      if q in NodeIds(n.a) { OutsideStays(n.a, First(n, r, gap), gap, p, ratio, q); }
    } else {
      UpdateAbsent(n.a, p, PutRatio(ratio));
      RatioKeepsIds(n.b, p, ratio);
      if q in NodeIds(n.b) { OutsideStays(n.b, Second(n, r, gap), gap, p, ratio, q); }
    }
  }

  /** The split itself keeps its rectangle; only its divider is placed by the new ratio. */
  lemma {:induction false} OwnRectStays(n: Node, r: Rect, gap: int, p: NodeID, ratio: real)
    requires Distinct(NodeIds(n)) && Find(n, p).Some? && Find(n, p).value.Split?
    ensures var out := Update(n, p, PutRatio(ratio));
      && p in Layout(n, r, gap) && p in Layout(out, r, gap)
      && Layout(out, r, gap)[p] == ItemOf(Find(n, p).value.(ratio := Clamp(ratio)), Layout(n, r, gap)[p].rect, gap)
  {
    hide Layout, First, Second, NodeIds, Find, Share;
    var out := Update(n, p, PutRatio(ratio));
    FindIffPresent(n, p);
    RatioKeepsIds(n, p, ratio);
    if n.id == p {
      FoundAtRoot(n);
      LookBelow(n, r, gap, p);
      LookBelow(out, r, gap, p);
    } else {
      SearchSide(n, p);
      SameHalves(n, r, gap, p, ratio);
      LookBelow(n, r, gap, p);
      LookBelow(out, r, gap, p);
      if Find(n.a, p).Some? {
        RatioKeepsIds(n.a, p, ratio);
        OwnRectStays(n.a, First(n, r, gap), gap, p, ratio);
      } else {
        UpdateAbsent(n.a, p, PutRatio(ratio));
        RatioKeepsIds(n.b, p, ratio);
        OwnRectStays(n.b, Second(n, r, gap), gap, p, ratio);
      }
    }
  }

  lemma {:induction false} FoundAtRoot(n: Node)
    ensures Find(n, n.id) == Some(n)
  {
  }

  /** The root is not searched below when it is the split itself, and lies outside it otherwise. */
  lemma {:induction false} FoundHasOwnId(n: Node, p: NodeID)
    requires exists q :: q in NodeIds(n) && Find(n, p).Some? && q !in NodeIds(Find(n, p).value)
    ensures n.id != p
  {
  }

  lemma {:induction false} SameHalves(n: Node, r: Rect, gap: int, p: NodeID, ratio: real)
    requires n.Split? && n.id != p
    ensures var out := Update(n, p, PutRatio(ratio));
      && out.Split? && out.id == n.id && ItemOf(out, r, gap) == ItemOf(n, r, gap)
      && First(out, r, gap) == First(n, r, gap) && Second(out, r, gap) == Second(n, r, gap)
      && out.a == Update(n.a, p, PutRatio(ratio)) && out.b == Update(n.b, p, PutRatio(ratio))
  {
  }

  lemma {:induction false} RatioKeepsIds(n: Node, p: NodeID, ratio: real)
    requires Distinct(NodeIds(n)) && Find(n, p).Some? && Find(n, p).value.Split?
    ensures NodeIds(Update(n, p, PutRatio(ratio))) == NodeIds(n) && Update(n, p, PutRatio(ratio)).Split?
  {
    var others := UpdateIds(n, p, PutRatio(ratio));
  }

  // ----- the divider follows the pointer ------------------------------------

  /** Where the divider starts for a ratio, relative to the split. */
  lemma {:induction false} ShareNearRatio(avail: int, ratio: real)
    requires avail >= 10 && MIN_RATIO <= ratio <= MAX_RATIO
    ensures avail as real * ratio - 1.0 < Share(avail, ratio) as real <= avail as real * ratio
  {
    ShareIsFair(avail, ratio, 1);
    Scaled(avail as real, ratio);
    assert Trunc(avail as real * ratio) == (avail as real * ratio).Floor;
  }

  lemma {:induction false} PartOf(g: real, f: real)
    requires g >= 0.0 && 0.0 <= f <= 0.9
    ensures 0.0 <= g * f <= 0.9 * g
  {
    NotNegative(g, f);
    NotNegative(g, 0.9 - f);
    Distributes(g, 0.9, f);
  }

  lemma {:induction false} Quotient(o: real, e: real)
    requires e > 0.0
    ensures e * (o / e) == o
  {
  }

  /** Where a divider placed by ratio f lies, seen from the point a fraction f' along the split. */
  lemma {:induction false} OffsetFromDivider(extent: int, gap: int, offset: int, f: real)
    requires gap >= 0 && extent - gap >= 10 && MIN_RATIO <= f <= MAX_RATIO
    ensures var off := (offset - Share(extent - gap, f)) as real;
      var slip := offset as real - extent as real * f;
      slip <= off < slip + 0.9 * gap as real + 1.0
  {
    hide Share;
    ShareNearRatio(extent - gap, f);
    assert (extent - gap) as real == extent as real - gap as real;
    OffsetAlong(offset as real, extent as real, gap as real, f, Share(extent - gap, f) as real);
  }

  lemma {:induction false} OffsetAlong(o: real, e: real, g: real, f: real, share: real)
    requires (e - g) * f - 1.0 < share <= (e - g) * f && g >= 0.0 && 0.0 <= f <= 0.9
    ensures o - e * f <= o - share < o - e * f + 0.9 * g + 1.0
  {
    TimesDifference(e, g, f);
    PartOf(g, f);
    Slides(o, e * f, g * f, share, g);
  }

  lemma {:induction false} TimesDifference(x: real, y: real, z: real)
    ensures (x - y) * z == x * z - y * z
  {
  }

  lemma {:induction false} Slides(o: real, ef: real, gf: real, share: real, g: real)
    requires ef - gf - 1.0 < share <= ef - gf && 0.0 <= gf <= 0.9 * g
    ensures o - ef <= o - share < o - ef + 0.9 * g + 1.0
  {
  }

  /** An unclamped, unsnapped pointer ends up on the divider strip. */
  lemma {:induction false} PointerOnDivider(extent: int, gap: int, offset: int)
    requires gap >= 0 && extent - gap >= 10
    requires MIN_RATIO <= offset as real / extent as real <= MAX_RATIO
    ensures 0 <= offset - Share(extent - gap, offset as real / extent as real) <= gap
  {
    var f := offset as real / extent as real;
    Quotient(offset as real, extent as real);
    OffsetFromDivider(extent, gap, offset, f);
  }

  /** A snapped one is off by less than the sticky band over the split, plus the divider, plus a pixel. */
  lemma {:induction false} PointerNearDivider(extent: int, gap: int, offset: int, snap: real)
    requires gap >= 0 && extent - gap >= 10
    requires MIN_RATIO <= snap <= MAX_RATIO
    requires Abs(offset as real / extent as real - snap) < STICK
    ensures var off := (offset - Share(extent - gap, snap)) as real;
      -(STICK * extent as real) < off < STICK * extent as real + gap as real + 1.0
  {
    Quotient(offset as real, extent as real);
    NearFraction(extent, gap, offset, offset as real / extent as real, snap);
  }

  lemma {:induction false} NearFraction(extent: int, gap: int, offset: int, f: real, snap: real)
    requires gap >= 0 && extent - gap >= 10
    requires MIN_RATIO <= snap <= MAX_RATIO
    requires extent as real * f == offset as real && Abs(f - snap) < STICK
    ensures var off := (offset - Share(extent - gap, snap)) as real;
      -(STICK * extent as real) < off < STICK * extent as real + gap as real + 1.0
  {
    hide Share;
    OffsetFromDivider(extent, gap, offset, snap);
    Strays(offset as real, extent as real, gap as real, f, snap, (offset - Share(extent - gap, snap)) as real, STICK);
  }

  lemma {:induction false} Strays(o: real, e: real, g: real, f: real, snap: real, off: real, k: real)
    requires e > 0.0 && g >= 0.0 && e * f == o && -k < f - snap < k
    requires o - e * snap <= off < o - e * snap + 0.9 * g + 1.0
    ensures -(k * e) < off < k * e + g + 1.0
  {
    TimesDifference(f, snap, e);
    Slips(e, f - snap, k);
    WithinBand(k * e, o - e * snap, off, g);
  }

  lemma {:induction false} Slips(e: real, d: real, k: real)
    requires -k < d < k && e > 0.0
    ensures -(k * e) < d * e < k * e
  {
    Below(e, d, k);
    Below(e, -d, k);
    Negated(d, e);
  }

  lemma {:induction false} WithinBand(band: real, slip: real, off: real, g: real)
    requires -band < slip < band && g >= 0.0 && slip <= off < slip + 0.9 * g + 1.0
    ensures -band < off < band + g + 1.0
  {
  }

  lemma {:induction false} Below(e: real, d: real, band: real)
    requires d < band && e > 0.0
    ensures d * e < band * e
  {
    Positive(band - d, e);
    TimesDifference(band, d, e);
  }

  lemma {:induction false} Negated(x: real, y: real)
    ensures -x * y == -(x * y)
  {
  }

  lemma {:induction false} Positive(x: real, y: real)
    requires x > 0.0 && y > 0.0
    ensures x * y > 0.0
  {
  }

  /** One pointer motion during a divider drag: the tree after ratio, snap and set-ratio. */
  function Motion(root: Node, area: Rect, gap: int, p: NodeID, x: int, y: int): Node
    requires p in Layout(root, area, gap) && Find(root, p).Some?
  {
    var f := RatioForPointer(Layout(root, area, gap)[p].rect, SplitDir(root, p), x, y);
    var out := SetRatio(root, p, Snapped(f));
    if out.Ok? then out.value else root
  }

  function SplitDir(root: Node, p: NodeID): Dir
    requires Find(root, p).Some?
  {
    if Find(root, p).value.Split? then Find(root, p).value.dir else Unset
  }

  /** What the motion does to the tree: nothing but the ratio of the dragged split. */
  lemma {:induction false} MotionSetsRatio(root: Node, area: Rect, gap: int, p: NodeID, x: int, y: int)
    requires p in Layout(root, area, gap) && Find(root, p).Some? && Find(root, p).value.Split?
    ensures var f := RatioForPointer(Layout(root, area, gap)[p].rect, Find(root, p).value.dir, x, y);
      Motion(root, area, gap, p, x, y) == Update(root, p, PutRatio(Snapped(f)))
  {
  }

  /** The ratio for an offset along a split: how far along the split it is, but no less than 0.1 and no more than 0.9. */
  function Wanted(offset: int, extent: int): real {
    var raw := if extent == 0 then 0.5 else offset as real / extent as real;
    if raw < 0.1 then 0.1 else if raw > 0.9 then 0.9 else raw
  }

  /**
   The ratio a motion leaves: the one for where the mouse is, or the fraction that sticks to. So beyond a bound the
   divider stays at that bound, and within the band of a fraction it sticks there.
   */
  lemma {:induction false} DragSetsRatio(root: Node, area: Rect, gap: int, p: NodeID, x: int, y: int)
    requires Distinct(NodeIds(root)) && p in Layout(root, area, gap)
    requires Find(root, p).Some? && Find(root, p).value.Split?
    ensures var r, row := Layout(root, area, gap)[p].rect, Find(root, p).value.dir == Row;
      var f := Wanted((if row then x else y) - Start(r, row), Extent(r, row));
      var after := Find(Motion(root, area, gap, p, x, y), p);
      && after.Some? && after.value.Split?
      && (forall s: real | Sticks(f, s) :: after.value.ratio == s)
      && ((forall s: real :: !Sticks(f, s)) ==> after.value.ratio == f)
  {
    hide Layout, NodeIds, Distinct, Update, Find, Snapped, Sticks;
    var n := Find(root, p).value;
    var f := RatioForPointer(Layout(root, area, gap)[p].rect, n.dir, x, y);
    MotionSetsRatio(root, area, gap, p, x, y);
    RatioOnly(root, p, Snapped(f));
    SnapsWithinBand(f);
    SnapSettles(f);
    ClampIsNearest(f);
    ClampIsNearest(Snapped(f));
  }

  /** Dragging moves nothing outside the dragged split, and not the split's own rectangle. */
  lemma {:induction false} DragIsLocal(root: Node, area: Rect, gap: int, p: NodeID, x: int, y: int, q: NodeID)
    requires Distinct(NodeIds(root)) && p in Layout(root, area, gap)
    requires Find(root, p).Some? && Find(root, p).value.Split?
    requires q == p || (q in NodeIds(root) && q !in NodeIds(Find(root, p).value))
    ensures var after := Layout(Motion(root, area, gap, p, x, y), area, gap);
      && q in after && q in Layout(root, area, gap)
      && after[q].rect == Layout(root, area, gap)[q].rect
      && (q != p ==> after[q] == Layout(root, area, gap)[q])
  {
    MotionSetsRatio(root, area, gap, p, x, y);
    var f := Snapped(RatioForPointer(Layout(root, area, gap)[p].rect, Find(root, p).value.dir, x, y));
    if q == p { OwnRectStays(root, area, gap, p, f); } else { OutsideStays(root, area, gap, p, f, q); }
  }

  /** The pointer along the dragged split's own axis. */
  function Along(row: bool, x: int, y: int): int { if row then x else y }

  /**
   The divider tracks the pointer: inside the ratio bounds and off the sticky bands the pointer
   ends on the divider; a snapped one ends within the band, the divider and a pixel of it.
   */
  lemma {:induction false} DragTracksPointer(root: Node, area: Rect, gap: int, p: NodeID, x: int, y: int)
    requires Distinct(NodeIds(root)) && gap >= 0
    requires Find(root, p).Some? && Find(root, p).value.Split? && p in Layout(root, area, gap)
    requires var r := Layout(root, area, gap)[p].rect;
      var row := IsRow(Find(root, p).value);
      && Extent(r, row) - gap >= 10
      && MIN_RATIO <= (Along(row, x, y) - Start(r, row)) as real / Extent(r, row) as real <= MAX_RATIO
    ensures var r := Layout(root, area, gap)[p].rect;
      var row := IsRow(Find(root, p).value);
      var raw := (Along(row, x, y) - Start(r, row)) as real / Extent(r, row) as real;
      var after := Layout(Motion(root, area, gap, p, x, y), area, gap);
      && p in after
      && var off := Along(row, x, y) - Start(after[p].divider, row);
      && (Snapped(raw) == raw ==> 0 <= off <= gap)
      && -(STICK * Extent(r, row) as real) < off as real < STICK * Extent(r, row) as real + gap as real + 1.0
  {
    hide Layout, Share, Divider, Snapped;
    var n := Find(root, p).value;
    var r := Layout(root, area, gap)[p].rect;
    var row := IsRow(n);
    var offset := Along(row, x, y) - Start(r, row);
    var raw := offset as real / Extent(r, row) as real;
    assert RatioForPointer(r, n.dir, x, y) == raw;
    SnapSettles(raw);
    MotionSetsRatio(root, area, gap, p, x, y);
    OwnRectStays(root, area, gap, p, Snapped(raw));
    DividerStarts(n.(ratio := Snapped(raw)), r, gap);
    PointerTracked(Extent(r, row), gap, offset);
  }

  lemma {:induction false} DividerStarts(n: Node, r: Rect, gap: int)
    requires n.Split? && Extent(r, IsRow(n)) - gap >= 10
    ensures Start(Divider(n, r, gap), IsRow(n)) == Start(r, IsRow(n)) + Share(Extent(r, IsRow(n)) - gap, n.ratio)
  {
    hide Share;
  }

  /** The distance from the divider, on numbers alone. */
  lemma {:induction false} PointerTracked(extent: int, gap: int, offset: int)
    requires gap >= 0 && extent - gap >= 10
    requires MIN_RATIO <= offset as real / extent as real <= MAX_RATIO
    ensures var raw := offset as real / extent as real;
      var off := offset - Share(extent - gap, Snapped(raw));
      && (Snapped(raw) == raw ==> 0 <= off <= gap)
      && -(STICK * extent as real) < off as real < STICK * extent as real + gap as real + 1.0
  {
    hide Share, Snapped;
    var raw := offset as real / extent as real;
    SnapSettles(raw);
    if Snapped(raw) == raw { PointerOnDivider(extent, gap, offset); }
    PointerNearDivider(extent, gap, offset, Snapped(raw));
  }
}
