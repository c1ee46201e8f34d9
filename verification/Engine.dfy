/**
 The layout engine as the source runs it: an id generator and a desktop object
 updated in place, every method tied to the value-level meaning of its op.
 */
module Engine {
  import opened Wrappers
  import opened Ids
  import opened Tree
  import opened Desktop
  import Persistence

  class IDGen {
    var n: nat

    constructor ()
      ensures n == 0
    {
      n := 0;
    }

    method Next() returns (id: NodeID)
      modifies this
      ensures n == old(n) + 1 && id == NodeName(n)
    {
      n := n + 1;
      id := NodeName(n);
    }

    method Seed(k: int)
      modifies this
      ensures n == if k > old(n) then k else old(n)
    {
      if k > n { n := k; }
    }
  }

  // ----- tree mutations that mint -------------------------------------------

  method DockIn(n: Node, target: NodeID, dir: Dir, other: Node, before: bool, g: IDGen) returns (out: Node)
    modifies g
    ensures Minted(out, g.n) == DockAt(n, target, dir, other, before, old(g.n))
    decreases n
  {
    if n.id == target {
      var id := g.Next();
      out := if before then NewSplit(id, dir, other, n, 0.5) else NewSplit(id, dir, n, other, 0.5);
    } else if n.Split? {
      var a := DockIn(n.a, target, dir, other, before, g);
      var b := DockIn(n.b, target, dir, other, before, g);
      out := n.(a := a, b := b);
    } else {
      out := n;
    }
  }

  /** The new tree and the id of the new leaf. */
  method SplitLeafIn(root: Node, id: NodeID, dir: Dir, app: string, g: IDGen)
      returns (r: Result<(Node, NodeID), Error>)
    modifies g
    ensures var spec := SplitLeaf(root, id, dir, app, old(g.n));
      if spec.Err? then r == Err(spec.error) && g.n == old(g.n)
      else r == Ok((spec.value.tree, NodeName(old(g.n) + 1))) && g.n == spec.value.gen
  {
    if !HasLeaf(root, id) { return Err(NoLeaf(id)); }
    var newLeaf := g.Next();
    var out := DockIn(root, id, dir, Leaf(newLeaf, app), false, g);
    r := Ok((out, newLeaf));
  }

  method MoveSplitIn(root: Node, from: NodeID, target: NodeID, zone: Zone, g: IDGen) returns (r: Result<Node, Error>)
    modifies g
    ensures var spec := MoveSplit(root, from, target, zone, old(g.n));
      if spec.Err? then r == Err(spec.error) && g.n == old(g.n)
      else r == Ok(spec.value.tree) && g.n == spec.value.gen
  {
    if from == target { return Err(SameLeaf(from)); }
    var src := Find(root, from);
    if src.None? || src.value.Split? { return Err(NoLeaf(from)); }
    if !HasLeaf(root, target) { return Err(NoLeaf(target)); }
    var detached := RemoveLeaf(root, from);
    if HasLeaf(detached, from) { return Err(CannotDetach(from)); }
    var dir := if zone == ZoneLeft || zone == ZoneRight then Row else Col;
    var before := zone == ZoneLeft || zone == ZoneTop;
    var out := DockIn(detached, target, dir, src.value, before, g);
    r := Ok(out);
  }

  method GraftLeafIn(root: Node, leaf: Node, target: NodeID, dir: Dir, g: IDGen) returns (r: Result<Node, Error>)
    requires leaf.Leaf?
    modifies g
    ensures var spec := GraftLeaf(root, leaf, target, dir, old(g.n));
      if spec.Err? then r == Err(spec.error) && g.n == old(g.n)
      else r == Ok(spec.value.tree) && g.n == spec.value.gen
  {
    if Find(root, leaf.id).Some? { return Err(IdPresent(leaf.id)); }
    if target == "" {
      var id := g.Next();
      return Ok(NewSplit(id, dir, root, leaf, 0.5));
    }
    if !HasLeaf(root, target) { return Err(NoTarget(target)); }
    var out := DockIn(root, target, dir, leaf, false, g);
    r := Ok(out);
  }

  method CloneFreshIn(n: Node, g: IDGen) returns (out: Node)
    modifies g
    ensures Minted(out, g.n) == CloneFresh(n, old(g.n))
    decreases n
  {
    var id := g.Next();
    if n.Leaf? {
      out := Leaf(id, n.app);
    } else {
      var a := CloneFreshIn(n.a, g);
      var b := CloneFreshIn(n.b, g);
      out := Split(id, n.dir, n.ratio, a, b);
    }
  }

  // ----- validation ---------------------------------------------------------

  /** The recursive check of Node.Validate, with the set of ids already seen. */
  method CheckNode(x: Node, seen: set<NodeID>) returns (ok: bool, seen': set<NodeID>)
    ensures ok <==> WellFormed(x) && Distinct(NodeIds(x)) && forall id | id in NodeIds(x) :: id !in seen
    ensures ok ==> seen' == seen + set id | id in NodeIds(x)
    decreases x
  {
    hide NodeIds, Distinct;
    IdsOfNode(x);
    if x.id == "" || x.id in seen { return false, seen; }
    seen' := seen + {x.id};
    if x.Leaf? { return true, seen'; }
    if !(x.dir == Row || x.dir == Col) || x.ratio < MIN_RATIO || x.ratio > MAX_RATIO { return false, seen'; }
    ghost var here := seen';
    ok, seen' := CheckNode(x.a, seen');
    if !ok {
      ClashBelow(x, here);
      return;
    }
    ok, seen' := CheckNode(x.b, seen');
    SplitDistinct(x);
  }

  lemma {:induction false} IdsOfNode(x: Node)
    ensures forall id :: id in NodeIds(x) <==> id == x.id || (x.Split? && (id in NodeIds(x.a) || id in NodeIds(x.b)))
    ensures x.Leaf? ==> Distinct(NodeIds(x))
  {
  }

  lemma {:induction false} SplitDistinct(x: Node)
    requires x.Split?
    ensures Distinct(NodeIds(x)) <==>
      && Distinct(NodeIds(x.a)) && Distinct(NodeIds(x.b))
      && x.id !in NodeIds(x.a) && x.id !in NodeIds(x.b)
      && forall id | id in NodeIds(x.a) :: id !in NodeIds(x.b)
  {
    if Distinct(NodeIds(x)) {
      DistinctParts(x);
    } else {
      var id :| NodeIds(x)[id] > 1;
      assert NodeIds(x)[id] == multiset{x.id}[id] + NodeIds(x.a)[id] + NodeIds(x.b)[id];
    }
  }

  lemma {:induction false} ClashBelow(x: Node, here: set<NodeID>)
    requires x.Split? && x.id in here
    requires !(WellFormed(x.a) && Distinct(NodeIds(x.a)) && forall id | id in NodeIds(x.a) :: id !in here)
    ensures !WellFormed(x) || !Distinct(NodeIds(x)) || exists id :: id in NodeIds(x) && id in here && id != x.id
  {
    hide NodeIds, Distinct;
    IdsOfNode(x);
    SplitDistinct(x);
  }

  // ----- the desktop object -------------------------------------------------

  class LiveDesktop {
    var workspaces: seq<Workspace>
    var current: string
    const gen: IDGen
    var wsSeq: nat

    ghost function State(): Desktop.State
      reads this, gen
    {
      Desktop.State(workspaces, current, gen.n, wsSeq)
    }

    constructor (firstApp: string)
      ensures State() == Initial(firstApp) && fresh(gen)
    {
      gen := new IDGen();
      wsSeq := 1;
      new;
      var leaf := gen.Next();
      workspaces := [Workspace(WorkspaceName(1), "ws-1", Leaf(leaf, firstApp))];
      current := WorkspaceName(1);
    }

    /** Reads a saved desktop and seeds both counters past every id in it. */
    constructor Deserialize(doc: Persistence.Document)
      ensures State() == Persistence.Deserialize(doc) && fresh(gen)
    {
      workspaces, current := doc.workspaces, doc.current;
      gen := new IDGen();
      wsSeq := 0;
      new;
      for i := 0 to |workspaces|
        invariant workspaces == doc.workspaces && current == doc.current && fresh(gen)
        invariant Persistence.SeedAll(workspaces, 0, 0) == Persistence.SeedAll(workspaces[i..], gen.n, wsSeq)
      {
        var n := ScanNumber(WORKSPACE_PREFIX, workspaces[i].id);
        if n.Some? && n.value > wsSeq { wsSeq := n.value; }
        SeedFrom(workspaces[i].root, gen);
        assert workspaces[i..][1..] == workspaces[i + 1..];
      }
    }

    static method SeedFrom(n: Node, g: IDGen)
      modifies g
      ensures g.n == Persistence.SeedTree(old(g.n), n)
      decreases n
    {
      var k := ScanNumber(NODE_PREFIX, n.id);
      if k.Some? { g.Seed(k.value); }
      if n.Split? {
        SeedFrom(n.a, g);
        SeedFrom(n.b, g);
      }
    }

    /** Position of the workspace with this id; the number of workspaces when there is none. */
    method WorkspaceByID(id: string) returns (i: nat)
      ensures i == IndexOf(workspaces, id) && i <= |workspaces|
    {
      i := 0;
      while i < |workspaces| && workspaces[i].id != id
        invariant i <= |workspaces| && IndexOf(workspaces, id) == i + IndexOf(workspaces[i..], id)
      {
        assert workspaces[i..][1..] == workspaces[i + 1..];
        i := i + 1;
      }
    }

    method FindLeafWorkspace(id: NodeID) returns (i: nat)
      ensures i == LeafHome(workspaces, id) && i <= |workspaces|
    {
      i := 0;
      while i < |workspaces| && !HasLeaf(workspaces[i].root, id)
        invariant i <= |workspaces| && LeafHome(workspaces, id) == i + LeafHome(workspaces[i..], id)
      {
        assert workspaces[i..][1..] == workspaces[i + 1..];
        i := i + 1;
      }
    }

    /** Which workspace a node-addressed op means. */
    method WorkspaceFor(pinned: string, node: NodeID) returns (r: Result<nat, Error>)
      ensures r == Resolve(State(), pinned, node)
    {
      if pinned != "" {
        var i := WorkspaceByID(pinned);
        return if i < |workspaces| then Ok(i) else Err(NoWorkspace(pinned));
      }
      var i := FindLeafWorkspace(node);
      if i < |workspaces| { return Ok(i); }
      var j := 0;
      while j < |workspaces| && Find(workspaces[j].root, node).None?
        invariant j <= |workspaces| && NodeHome(workspaces, node) == j + NodeHome(workspaces[j..], node)
      {
        assert workspaces[j..][1..] == workspaces[j + 1..];
        j := j + 1;
      }
      r := if j < |workspaces| then Ok(j) else Err(NodeNotFound(node));
    }

    method SetRoot(i: nat, root: Node)
      requires i < |workspaces|
      modifies this`workspaces
      ensures State() == WithRoot(old(State()), i, root, gen.n)
    {
      workspaces := workspaces[i := workspaces[i].(root := root)];
    }

    method AddWorkspace(app: string) returns (id: string)
      modifies this, gen
      ensures Outcome(State(), Ok(Report("", id))) == Desktop.AddWorkspace(old(State()), app)
    {
      wsSeq := wsSeq + 1;
      id := WorkspaceName(wsSeq);
      var leaf := gen.Next();
      workspaces := workspaces + [Workspace(id, "ws-" + Decimal(|workspaces| + 1), Leaf(leaf, app))];
      current := id;
    }

    method RemoveWorkspace(id: string) returns (r: Result<Report, Error>)
      modifies this
      ensures Outcome(State(), r) == Desktop.RemoveWorkspace(old(State()), id)
    {
      if |workspaces| < 2 { return Err(LastWorkspace); }
      var i := WorkspaceByID(id);
      if i == |workspaces| { return Err(NoWorkspace(id)); }
      workspaces := workspaces[..i] + workspaces[i + 1..];
      if current == id { current := workspaces[0].id; }
      r := Ok(NOTHING);
    }

    method RenameWorkspace(id: string, name: string) returns (r: Result<Report, Error>)
      modifies this
      ensures Outcome(State(), r) == Desktop.RenameWorkspace(old(State()), id, name)
    {
      var i := WorkspaceByID(id);
      if i == |workspaces| { return Err(NoWorkspace(id)); }
      workspaces := workspaces[i := workspaces[i].(name := name)];
      r := Ok(NOTHING);
    }

    method CloneWorkspace(id: string) returns (r: Result<Report, Error>)
      modifies this, gen
      ensures Outcome(State(), r) == Desktop.CloneWorkspace(old(State()), id)
    {
      var i := WorkspaceByID(id);
      if i == |workspaces| { return Err(NoWorkspace(id)); }
      wsSeq := wsSeq + 1;
      var copy := CloneFreshIn(workspaces[i].root, gen);
      var ws := Workspace(WorkspaceName(wsSeq), workspaces[i].name + "'", copy);
      workspaces := workspaces + [ws];
      current := ws.id;
      r := Ok(Report("", ws.id));
    }

    method SwitchWorkspace(id: string) returns (r: Result<Report, Error>)
      modifies this
      ensures Outcome(State(), r) == Desktop.SwitchWorkspace(old(State()), id)
    {
      var i := WorkspaceByID(id);
      if i == |workspaces| { return Err(NoWorkspace(id)); }
      current := id;
      r := Ok(NOTHING);
    }

    /** The source workspace is rewritten first; a failing graft leaves it rewritten. */
    method MoveLeaf(node: NodeID, workspace: string, target: NodeID, dir: Dir) returns (r: Result<Report, Error>)
      modifies this, gen
      ensures Outcome(State(), r) == Desktop.MoveLeaf(old(State()), node, workspace, target, dir)
    {
      hide GraftLeaf, DetachLeaf, HasLeaf, Find;
      var src := FindLeafWorkspace(node);
      if src == |workspaces| { return Err(NoLeaf(node)); }
      var dst := WorkspaceByID(workspace);
      if dst == |workspaces| { return Err(NoWorkspace(workspace)); }
      if workspaces[src].id == workspaces[dst].id { return Err(AlreadyThere(node)); }
      if target != "" && !HasLeaf(workspaces[dst].root, target) { return Err(NoTarget(target)); }
      var moved := workspaces[src].root;
      var report := NOTHING;
      if moved.Leaf? {
        var fill := gen.Next();
        SetRoot(src, Leaf(fill, ""));
        report := Report(fill, "");
      } else {
        var detached := DetachLeaf(moved, node);
        if detached.Err? { return Err(detached.error); }
        SetRoot(src, detached.value.0);
        moved := detached.value.1;
      }
      var grafted := GraftLeafIn(workspaces[dst].root, moved, target, DirOrRow(dir), gen);
      if grafted.Err? { return Err(grafted.error); }
      SetRoot(dst, grafted.value);
      r := Ok(report);
    }

    method ApplyToTree(op: Op) returns (r: Result<Report, Error>)
      requires OnOneTree(op)
      modifies this, gen
      ensures Outcome(State(), r) == Step(old(State()), op)
    {
      var where := WorkspaceFor(op.workspace, op.node);
      if where.Err? { return Err(where.error); }
      var i := where.value;
      var root := workspaces[i].root;
      if op.OpSplitLeaf? {
        var out := SplitLeafIn(root, op.node, op.dir, op.app, gen);
        if out.Err? { return Err(out.error); }
        SetRoot(i, out.value.0);
        return Ok(Report(out.value.1, ""));
      }
      var out: Result<Node, Error>;
      match op {
        case OpCloseLeaf(node, _) => out := CloseLeaf(root, node);
        case OpSetRatio(node, _, ratio) => out := SetRatio(root, node, ratio);
        case OpSetLeafApp(node, _, app) => out := SetLeafApp(root, node, app);
        case OpSwapLeaves(node, _, target) => out := SwapLeaves(root, node, target);
        case OpMoveSplit(node, _, target, zone) => out := MoveSplitIn(root, node, target, zone, gen);
      }
      if out.Err? { return Err(out.error); }
      SetRoot(i, out.value);
      r := Ok(NOTHING);
    }

    /** One op, in place: the new state and the answer are those of Step. */
    method Apply(op: Op) returns (r: Result<Report, Error>)
      modifies this, gen
      ensures Outcome(State(), r) == Step(old(State()), op)
    {
      match op {
        case OpMoveLeaf(node, workspace, target, dir) => r := MoveLeaf(node, workspace, target, dir);
        case OpAddWorkspace(app) =>
          var id := AddWorkspace(app);
          r := Ok(Report("", id));
        case OpRemoveWorkspace(workspace) => r := RemoveWorkspace(workspace);
        case OpRenameWorkspace(workspace, name) => r := RenameWorkspace(workspace, name);
        case OpCloneWorkspace(workspace) => r := CloneWorkspace(workspace);
        case OpSwitchWorkspace(workspace) => r := SwitchWorkspace(workspace);
        case OpUnknown(name) => r := Err(UnknownOp(name));
        case _ => r := ApplyToTree(op);
      }
    }

    /** Desktop.Validate: every tree is checked, and leaf ids are compared across workspaces. */
    method Validate() returns (ok: bool)
      ensures ok <==> ValidDesktop(State())
    {
      hide ValidTree, TilesApart, LeafIds;
      if |workspaces| == 0 { return false; }
      var c := WorkspaceByID(current);
      if c == |workspaces| { return false; }
      var seen: set<NodeID> := {};
      for i := 0 to |workspaces|
        invariant forall j | 0 <= j < i :: ValidTree(workspaces[j].root)
        invariant CoveredBy(workspaces[..i], seen)
        invariant forall j, k | 0 <= j < k < i :: TilesApart(workspaces[j].root, workspaces[k].root)
      {
        var treeOk := ValidateTree(workspaces[i].root);
        if !treeOk { return false; }
        var leaves := LeafIds(workspaces[i].root);
        CompareWithSeen(workspaces, i, seen);
        if !(leaves !! seen) { return false; }
        seen := seen + leaves;
      }
      ok := true;
    }
  }

  /** seen holds exactly the leaf ids of these workspaces. */
  ghost predicate CoveredBy(ws: seq<Workspace>, seen: set<NodeID>) {
    && (forall j | 0 <= j < |ws| :: LeafIds(ws[j].root) <= seen)
    && (forall id | id in seen :: exists j | 0 <= j < |ws| :: id in LeafIds(ws[j].root))
  }

  /** Comparing a tree's leaf ids with those seen tells whether it is apart from every earlier tree. */
  lemma {:induction false} CompareWithSeen(ws: seq<Workspace>, i: nat, seen: set<NodeID>)
    requires i < |ws| && CoveredBy(ws[..i], seen)
    ensures CoveredBy(ws[..i + 1], seen + LeafIds(ws[i].root))
    ensures LeafIds(ws[i].root) !! seen <==> forall j | 0 <= j < i :: TilesApart(ws[j].root, ws[i].root)
  {
    hide TilesApart, LeafIds;
    var earlier := ws[..i];
    var mine := LeafIds(ws[i].root);
    CoverOneMore(earlier, ws[i], seen);
    assert ws[..i + 1] == earlier + [ws[i]];
    forall j | 0 <= j < i
      ensures TilesApart(ws[j].root, ws[i].root) <==> LeafIds(earlier[j].root) !! mine
    {
      ApartAsTiles(ws[j].root, ws[i].root);
    }
    if !(mine !! seen) {
      var id :| id in mine && id in seen;
      var j :| 0 <= j < i && id in LeafIds(earlier[j].root);
      assert !TilesApart(ws[j].root, ws[i].root);
    }
  }

  lemma {:induction false} CoverOneMore(earlier: seq<Workspace>, w: Workspace, seen: set<NodeID>)
    requires CoveredBy(earlier, seen)
    ensures CoveredBy(earlier + [w], seen + LeafIds(w.root))
  {
    hide LeafIds;
    var after := earlier + [w];
    forall id | id in seen + LeafIds(w.root)
      ensures exists j | 0 <= j < |after| :: id in LeafIds(after[j].root)
    {
      if id in LeafIds(w.root) {
        assert id in LeafIds(after[|earlier|].root);
      } else {
        var j :| 0 <= j < |earlier| && id in LeafIds(earlier[j].root);
        assert id in LeafIds(after[j].root);
      }
    }
  }

  method ValidateTree(n: Node) returns (ok: bool)
    ensures ok <==> ValidTree(n)
  {
    var seen;
    ok, seen := CheckNode(n, {});
  }

  function LeafIds(n: Node): set<NodeID> { set t | t in Leaves(n) :: t.id }

  lemma {:induction false} ApartAsTiles(m: Node, n: Node)
    ensures LeafIds(m) !! LeafIds(n) <==> TilesApart(m, n)
  {
    if !TilesApart(m, n) {
      var t, u :| t in Leaves(m) && u in Leaves(n) && t.id == u.id;
      assert t.id in LeafIds(m) && t.id in LeafIds(n);
    }
    if !(LeafIds(m) !! LeafIds(n)) {
      var id :| id in LeafIds(m) && id in LeafIds(n);
    }
  }
}
