/**
 The binary split tree of one workspace and its mutations.  Trees are values:
 every mutation returns a new tree.  A mutation that mints ids takes the id
 counter and returns its new value beside the tree.
 */
module Tree {
  import opened Wrappers
  import opened Ids

  /** The source's Dir is any string; only "row" and "col" are legal. */
  datatype Dir = Row | Col | Unset | Other(text: string)

  datatype Zone = ZoneLeft | ZoneRight | ZoneTop | ZoneBottom | ZoneCenter | ZoneOther(text: string)

  datatype Node =
    | Leaf(id: NodeID, app: string)
    | Split(id: NodeID, dir: Dir, ratio: real, a: Node, b: Node)

  /** A leaf as the applications see it. */
  datatype Tile = Tile(id: NodeID, app: string)

  datatype Error =
    | NoLeaf(id: NodeID)
    | NoSplit(id: NodeID)
    | OnlyLeaf(id: NodeID)
    | CannotDetach(id: NodeID)
    | SameLeaf(id: NodeID)
    | MissingLeaf(a: NodeID, b: NodeID)
    | IdPresent(id: NodeID)
    | NoTarget(id: NodeID)
    | NoWorkspace(name: string)
    | NodeNotFound(id: NodeID)
    | AlreadyThere(id: NodeID)
    | LastWorkspace
    | UnknownOp(name: string)

  /** A tree together with the id counter after building it. */
  datatype Minted = Minted(tree: Node, gen: nat)

  const MIN_RATIO: real := 0.1
  const MAX_RATIO: real := 0.9

  function Clamp(r: real): real {
    if r < MIN_RATIO then MIN_RATIO else if r > MAX_RATIO then MAX_RATIO else r
  }

  predicate Legal(dir: Dir) { dir == Row || dir == Col }

  function NewSplit(id: NodeID, dir: Dir, a: Node, b: Node, ratio: real): Node {
    Split(id, dir, Clamp(ratio), a, b)
  }

  // ----- reading ------------------------------------------------------------

  /** The first node, parent before children and A before B, with this id. */
  function Find(n: Node, id: NodeID): Option<Node> {
    if n.id == id then Some(n)
    else if n.Leaf? then None
    else if Find(n.a, id).Some? then Find(n.a, id)
    else Find(n.b, id)
  }

  predicate HasLeaf(n: Node, id: NodeID) {
    Find(n, id).Some? && Find(n, id).value.Leaf?
  }

  function Leaves(n: Node): seq<Tile> {
    if n.Leaf? then [Tile(n.id, n.app)] else Leaves(n.a) + Leaves(n.b)
  }

  /** Every node id, with multiplicity. */
  function NodeIds(n: Node): multiset<NodeID> {
    if n.Leaf? then multiset{n.id} else multiset{n.id} + NodeIds(n.a) + NodeIds(n.b)
  }

  ghost predicate Distinct(ids: multiset<NodeID>) {
    forall x :: ids[x] <= 1
  }

  /** Directions and ratios are legal and no id is empty. */
  predicate WellFormed(n: Node) {
    n.id != "" &&
    (n.Split? ==> Legal(n.dir) && MIN_RATIO <= n.ratio <= MAX_RATIO && WellFormed(n.a) && WellFormed(n.b))
  }

  /** What the source's Node.Validate accepts. */
  ghost predicate ValidTree(n: Node) {
    WellFormed(n) && Distinct(NodeIds(n))
  }

  // ----- the two recursive rebuilders ---------------------------------------

  /** Replaces every topmost node with this id by f of it. */
  function Update(n: Node, id: NodeID, f: Node -> Node): Node {
    if n.id == id then f(n)
    else if n.Leaf? then n
    else n.(a := Update(n.a, id, f), b := Update(n.b, id, f))
  }

  /** Detaches the child with this id; its sibling takes the space. */
  function RemoveLeaf(n: Node, id: NodeID): Node {
    if n.Leaf? then n
    else if n.a.id == id then n.b
    else if n.b.id == id then n.a
    else n.(a := RemoveLeaf(n.a, id), b := RemoveLeaf(n.b, id))
  }

  function PutApp(app: string): Node -> Node {
    (n: Node) => if n.Leaf? then n.(app := app) else n
  }

  function PutRatio(ratio: real): Node -> Node {
    (n: Node) => if n.Split? then n.(ratio := Clamp(ratio)) else n
  }

  function PutTree(t: Node): Node -> Node {
    (n: Node) => t
  }

  /** n docked with other under a new even split; other comes first when before holds. */
  function Dock(id: NodeID, dir: Dir, n: Node, other: Node, before: bool): Node {
    if before then NewSplit(id, dir, other, n, 0.5) else NewSplit(id, dir, n, other, 0.5)
  }

  function PutDock(id: NodeID, dir: Dir, other: Node, before: bool): Node -> Node {
    (n: Node) => Dock(id, dir, n, other, before)
  }

  /** Update with a callback that mints the id of the split it creates. */
  function DockAt(n: Node, target: NodeID, dir: Dir, other: Node, before: bool, gen: nat): Minted {
    if n.id == target then Minted(Dock(NodeName(gen + 1), dir, n, other, before), gen + 1)
    else if n.Leaf? then Minted(n, gen)
    else
      var a := DockAt(n.a, target, dir, other, before, gen);
      var b := DockAt(n.b, target, dir, other, before, a.gen);
      Minted(n.(a := a.tree, b := b.tree), b.gen)
  }

  // ----- mutations ----------------------------------------------------------

  /** The new leaf's id is minted before its parent split's. */
  function SplitLeaf(root: Node, id: NodeID, dir: Dir, app: string, gen: nat): Result<Minted, Error> {
    if !HasLeaf(root, id) then Err(NoLeaf(id))
    else Ok(DockAt(root, id, dir, Leaf(NodeName(gen + 1), app), false, gen + 1))
  }

  function CloseLeaf(root: Node, id: NodeID): Result<Node, Error> {
    if !HasLeaf(root, id) then Err(NoLeaf(id))
    else if root.Leaf? then Err(OnlyLeaf(id))
    else
      var out := RemoveLeaf(root, id);
      if HasLeaf(out, id) then Err(CannotDetach(id)) else Ok(out)
  }

  function SetRatio(root: Node, id: NodeID, ratio: real): Result<Node, Error> {
    var n := Find(root, id);
    if n.None? || n.value.Leaf? then Err(NoSplit(id)) else Ok(Update(root, id, PutRatio(ratio)))
  }

  function SetLeafApp(root: Node, id: NodeID, app: string): Result<Node, Error> {
    if !HasLeaf(root, id) then Err(NoLeaf(id)) else Ok(Update(root, id, PutApp(app)))
  }

  function SwapLeaves(root: Node, a: NodeID, b: NodeID): Result<Node, Error> {
    if !HasLeaf(root, a) || !HasLeaf(root, b) then Err(MissingLeaf(a, b))
    else
      var appA, appB := Find(root, a).value.app, Find(root, b).value.app;
      Ok(Update(Update(root, a, PutApp(appB)), b, PutApp(appA)))
  }

  function ZoneDir(zone: Zone): Dir {
    if zone == ZoneLeft || zone == ZoneRight then Row else Col
  }

  predicate ZoneBefore(zone: Zone) { zone == ZoneLeft || zone == ZoneTop }

  function MoveSplit(root: Node, from: NodeID, target: NodeID, zone: Zone, gen: nat): Result<Minted, Error> {
    if from == target then Err(SameLeaf(from))
    else if !HasLeaf(root, from) then Err(NoLeaf(from))
    else if !HasLeaf(root, target) then Err(NoLeaf(target))
    else
      var detached := RemoveLeaf(root, from);
      if HasLeaf(detached, from) then Err(CannotDetach(from))
      else Ok(DockAt(detached, target, ZoneDir(zone), Find(root, from).value, ZoneBefore(zone), gen))
  }

  /** The shrunk tree and the detached leaf. */
  function DetachLeaf(root: Node, id: NodeID): (r: Result<(Node, Node), Error>)
    ensures r.Ok? ==> r.value.1.Leaf?
  {
    if !HasLeaf(root, id) then Err(NoLeaf(id))
    else if root.Leaf? then Err(OnlyLeaf(id))
    else
      var out := RemoveLeaf(root, id);
      if HasLeaf(out, id) then Err(CannotDetach(id)) else Ok((out, Find(root, id).value))
  }

  /** Docks a detached leaf beside target, or beside the whole root when target is empty. */
  function GraftLeaf(root: Node, leaf: Node, target: NodeID, dir: Dir, gen: nat): Result<Minted, Error>
    requires leaf.Leaf?
  {
    if Find(root, leaf.id).Some? then Err(IdPresent(leaf.id))
    else if target == "" then Ok(Minted(NewSplit(NodeName(gen + 1), dir, root, leaf, 0.5), gen + 1))
    else if !HasLeaf(root, target) then Err(NoTarget(target))
    else Ok(DockAt(root, target, dir, leaf, false, gen))
  }

  function CloneFresh(n: Node, gen: nat): Minted {
    if n.Leaf? then Minted(Leaf(NodeName(gen + 1), n.app), gen + 1)
    else
      var a := CloneFresh(n.a, gen + 1);
      var b := CloneFresh(n.b, a.gen);
      Minted(n.(id := NodeName(gen + 1), a := a.tree, b := b.tree), b.gen)
  }

  // ----- facts about reading ------------------------------------------------

  lemma {:induction false} FindIffPresent(n: Node, id: NodeID)
    ensures Find(n, id).Some? <==> id in NodeIds(n)
    ensures Find(n, id).Some? ==> Find(n, id).value.id == id
  {
    if n.Split? {
      FindIffPresent(n.a, id);
      FindIffPresent(n.b, id);
    }
  }

  /** The ids of a node found in a tree are among the tree's, and a split's own id is not below it. */
  lemma {:induction false} FoundIds(n: Node, id: NodeID)
    requires Find(n, id).Some?
    ensures NodeIds(Find(n, id).value) <= NodeIds(n)
    ensures WellFormed(n) ==> WellFormed(Find(n, id).value)
  {
    if n.id != id {
      if Find(n.a, id).Some? { FoundIds(n.a, id); } else { FoundIds(n.b, id); }
    }
  }

  lemma {:induction false} LeafIdsPresent(n: Node)
    ensures forall t :: t in Leaves(n) ==> t.id in NodeIds(n)
    ensures Leaves(n) != []
  {
    if n.Split? {
      LeafIdsPresent(n.a);
      LeafIdsPresent(n.b);
    }
  }

  /** In a tree without duplicate ids, the leaves found are exactly the leaves listed. */
  lemma {:induction false} HasLeafIffListed(n: Node, t: Tile)
    requires Distinct(NodeIds(n))
    ensures t in Leaves(n) <==> HasLeaf(n, t.id) && Find(n, t.id).value.app == t.app
  {
    FindIffPresent(n, t.id);
    if n.Split? {
      DistinctParts(n);
      HasLeafIffListed(n.a, t);
      HasLeafIffListed(n.b, t);
      LeafIdsPresent(n.a);
      LeafIdsPresent(n.b);
      FindIffPresent(n.a, t.id);
      FindIffPresent(n.b, t.id);
    }
  }

  lemma {:induction false} DistinctParts(n: Node)
    requires n.Split? && Distinct(NodeIds(n))
    ensures Distinct(NodeIds(n.a)) && Distinct(NodeIds(n.b))
    ensures n.id !in NodeIds(n.a) && n.id !in NodeIds(n.b)
    ensures forall x :: x in NodeIds(n.a) ==> x !in NodeIds(n.b)
  {
    var whole := NodeIds(n);
    forall x
      ensures NodeIds(n.a)[x] <= 1 && NodeIds(n.b)[x] <= 1
      ensures x in NodeIds(n.a) ==> x !in NodeIds(n.b) && x != n.id
      ensures x in NodeIds(n.b) ==> x != n.id
    {
      assert whole[x] <= 1;
      assert whole[x] == multiset{n.id}[x] + NodeIds(n.a)[x] + NodeIds(n.b)[x];
    }
  }

  // ----- facts about Update and RemoveLeaf ----------------------------------

  lemma {:induction false} UpdateAbsent(n: Node, id: NodeID, f: Node -> Node)
    requires id !in NodeIds(n)
    ensures Update(n, id, f) == n
  {
    if n.Split? {
      UpdateAbsent(n.a, id, f);
      UpdateAbsent(n.b, id, f);
    }
  }

  /** Replacing x by f(x) exchanges exactly the ids of x. */
  lemma {:induction false} UpdateIds(n: Node, id: NodeID, f: Node -> Node) returns (others: multiset<NodeID>)
    requires Distinct(NodeIds(n)) && Find(n, id).Some?
    ensures NodeIds(n) == others + NodeIds(Find(n, id).value)
    ensures NodeIds(Update(n, id, f)) == others + NodeIds(f(Find(n, id).value))
    ensures WellFormed(n) && id != "" ==> (WellFormed(Update(n, id, f)) <==> WellFormed(f(Find(n, id).value)))
  {
    if n.id == id {
      others := multiset{};
    } else {
      SearchSide(n, id);
      var inA := Find(n.a, id).Some?;
      UpdateAbsent(if inA then n.b else n.a, id, f);
      var below := UpdateIds(if inA then n.a else n.b, id, f);
      var rest := NodeIds(if inA then n.b else n.a);
      others := multiset{n.id} + below + rest;
      Regroup(multiset{n.id}, below, NodeIds(Find(n, id).value), rest);
      Regroup(multiset{n.id}, below, NodeIds(f(Find(n, id).value)), rest);
      assert multiset{n.id} + rest + below == others;
    }
  }

  /** Replacing x by f(x) exchanges exactly the leaves of x, where they stood. */
  lemma {:induction false} UpdateLeaves(n: Node, id: NodeID, f: Node -> Node)
      returns (left: seq<Tile>, right: seq<Tile>)
    requires Distinct(NodeIds(n)) && Find(n, id).Some?
    ensures Leaves(n) == left + Leaves(Find(n, id).value) + right
    ensures Leaves(Update(n, id, f)) == left + Leaves(f(Find(n, id).value)) + right
  {
    hide NodeIds, Distinct;
    if n.id == id {
      left, right := [], [];
    } else {
      SearchSide(n, id);
      var x := Find(n, id).value;
      if Find(n.a, id).Some? {
        UpdateAbsent(n.b, id, f);
        left, right := UpdateLeaves(n.a, id, f);
        AppendRight(left, Leaves(x), right, Leaves(n.b));
        AppendRight(left, Leaves(f(x)), right, Leaves(n.b));
        right := right + Leaves(n.b);
      } else {
        UpdateAbsent(n.a, id, f);
        left, right := UpdateLeaves(n.b, id, f);
        AppendLeft(Leaves(n.a), left, Leaves(x), right);
        AppendLeft(Leaves(n.a), left, Leaves(f(x)), right);
        left := Leaves(n.a) + left;
      }
    }
  }

  lemma {:induction false} AppendRight<T>(a: seq<T>, b: seq<T>, c: seq<T>, d: seq<T>)
    ensures (a + b + c) + d == a + b + (c + d)
  {
  }

  lemma {:induction false} AppendLeft<T>(z: seq<T>, a: seq<T>, b: seq<T>, c: seq<T>)
    ensures z + (a + b + c) == (z + a) + b + c
  {
  }

  /** Where Find goes on when the root is not the node it wants. */
  lemma {:induction false} SearchSide(n: Node, id: NodeID)
    requires Distinct(NodeIds(n)) && Find(n, id).Some? && n.id != id
    ensures n.Split? && Distinct(NodeIds(n.a)) && Distinct(NodeIds(n.b))
    ensures id in NodeIds(n.a) <==> Find(n.a, id).Some?
    ensures id in NodeIds(n.b) <==> Find(n.a, id).None?
    ensures Find(n, id) == if Find(n.a, id).Some? then Find(n.a, id) else Find(n.b, id)
  {
    DistinctParts(n);
    FindIffPresent(n.a, id);
    FindIffPresent(n.b, id);
  }

  lemma {:induction false} DockAbsent(n: Node, target: NodeID, dir: Dir, other: Node, before: bool, gen: nat)
    requires target !in NodeIds(n)
    ensures DockAt(n, target, dir, other, before, gen) == Minted(n, gen)
  {
    if n.Split? {
      DockAbsent(n.a, target, dir, other, before, gen);
      DockAbsent(n.b, target, dir, other, before, gen);
    }
  }

  /** With distinct ids the callback runs once, so docking mints exactly one id. */
  lemma {:induction false} DockMintsOnce(n: Node, target: NodeID, dir: Dir, other: Node, before: bool, gen: nat)
    requires Distinct(NodeIds(n)) && target in NodeIds(n)
    ensures DockAt(n, target, dir, other, before, gen)
         == Minted(Update(n, target, PutDock(NodeName(gen + 1), dir, other, before)), gen + 1)
  {
    if n.id != target {
      DistinctParts(n);
      var f := PutDock(NodeName(gen + 1), dir, other, before);
      if target in NodeIds(n.a) {
        DockMintsOnce(n.a, target, dir, other, before, gen);
        DockAbsent(n.b, target, dir, other, before, gen + 1);
        UpdateAbsent(n.b, target, f);
      } else {
        DockAbsent(n.a, target, dir, other, before, gen);
        DockMintsOnce(n.b, target, dir, other, before, gen);
        UpdateAbsent(n.a, target, f);
      }
    }
  }

  lemma {:induction false} RemoveAbsent(n: Node, id: NodeID)
    requires id !in NodeIds(n)
    ensures RemoveLeaf(n, id) == n
  {
    if n.Split? {
      RemoveAbsent(n.a, id);
      RemoveAbsent(n.b, id);
    }
  }

  /** A node of one half is found there by a search of the whole. */
  lemma {:induction false} FoundInHalf(n: Node, inA: bool, p: NodeID)
    requires n.Split? && Distinct(NodeIds(n)) && Find(if inA then n.a else n.b, p).Some?
    ensures Find(n, p) == Find(if inA then n.a else n.b, p)
  {
    hide NodeIds, Distinct;
    DistinctParts(n);
    FindIffPresent(n.a, p);
    FindIffPresent(n.b, p);
  }

  /** Removing a leaf takes out that leaf's id and one split's. */
  lemma {:induction false} RemoveIds(n: Node, id: NodeID) returns (parent: NodeID)
    requires Distinct(NodeIds(n)) && n.Split? && HasLeaf(n, id)
    ensures NodeIds(n) == NodeIds(RemoveLeaf(n, id)) + multiset{id} + multiset{parent}
    ensures Find(n, parent).Some? && Find(n, parent).value.Split?
    ensures WellFormed(n) ==> WellFormed(RemoveLeaf(n, id))
  {
    hide NodeIds, Distinct;
    SearchSide(n, id);
    var inA := Find(n.a, id).Some?;
    var child, rest := if inA then n.a else n.b, if inA then n.b else n.a;
    var here, others := multiset{n.id}, NodeIds(rest);
    IdsOfParts(n);
    if child.id == id {
      parent := n.id;
      assert child.Leaf? && RemoveLeaf(n, id) == rest;
      IdsOfParts(child);
      Rotate(here, multiset{id}, others);
    } else {
      RemoveAbsent(rest, id);
      FindIffPresent(rest, id);
      parent := RemoveIds(child, id);
      FoundInHalf(n, inA, parent);
      IdsOfParts(RemoveLeaf(n, id));
      Regroup(here, NodeIds(RemoveLeaf(child, id)), multiset{id} + multiset{parent}, others);
    }
  }

  lemma {:induction false} IdsOfParts(n: Node)
    ensures NodeIds(n) == if n.Leaf? then multiset{n.id} else multiset{n.id} + NodeIds(n.a) + NodeIds(n.b)
  {
  }

  lemma {:induction false} Rotate(p: multiset<NodeID>, x: multiset<NodeID>, b: multiset<NodeID>)
    ensures p + x + b == b + x + p && p + b + x == b + x + p
  {
  }

  lemma {:induction false} Regroup(h: multiset<NodeID>, a: multiset<NodeID>, gone: multiset<NodeID>, b: multiset<NodeID>)
    ensures h + (a + gone) + b == (h + a + b) + gone
    ensures h + b + (a + gone) == (h + b + a) + gone
  {
  }

  /** Removing a leaf keeps every other leaf, in order. */
  lemma {:induction false} RemoveLeaves(n: Node, id: NodeID) returns (left: seq<Tile>, right: seq<Tile>)
    requires Distinct(NodeIds(n)) && n.Split? && HasLeaf(n, id)
    ensures Leaves(n) == left + [Tile(id, Find(n, id).value.app)] + right
    ensures Leaves(RemoveLeaf(n, id)) == left + right
  {
    hide NodeIds, Distinct, WellFormed;
    SearchSide(n, id);
    var gone := [Tile(id, Find(n, id).value.app)];
    if Find(n.a, id).Some? {
      if n.a.id == id {
        left, right := [], Leaves(n.b);
      } else {
        RemoveAbsent(n.b, id);
        FindIffPresent(n.b, id);
        left, right := RemoveLeaves(n.a, id);
        AppendRight(left, gone, right, Leaves(n.b));
        right := right + Leaves(n.b);
      }
    } else {
      if n.b.id == id {
        left, right := Leaves(n.a), [];
      } else {
        RemoveAbsent(n.a, id);
        left, right := RemoveLeaves(n.b, id);
        AppendLeft(Leaves(n.a), left, gone, right);
        left := Leaves(n.a) + left;
      }
    }
  }
}
