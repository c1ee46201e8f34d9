/**
 The desktop as a value: its workspaces, the current one, and the two id
 counters; and Step, the meaning of one serializable layout op.
 */
module Desktop {
  import opened Wrappers
  import opened Ids
  import opened Tree

  datatype Workspace = Workspace(id: string, name: string, root: Node)

  datatype State = State(workspaces: seq<Workspace>, current: string, gen: nat, wsSeq: nat)

  /** One op; each constructor carries the operands the op reads.  An empty workspace means "wherever the node is". */
  datatype Op =
    | OpSplitLeaf(node: NodeID, workspace: string, dir: Dir, app: string)
    | OpCloseLeaf(node: NodeID, workspace: string)
    | OpSetRatio(node: NodeID, workspace: string, ratio: real)
    | OpSetLeafApp(node: NodeID, workspace: string, app: string)
    | OpSwapLeaves(node: NodeID, workspace: string, target: NodeID)
    | OpMoveSplit(node: NodeID, workspace: string, target: NodeID, zone: Zone)
    | OpMoveLeaf(node: NodeID, workspace: string, target: NodeID, dir: Dir)
    | OpAddWorkspace(app: string)
    | OpRemoveWorkspace(workspace: string)
    | OpRenameWorkspace(workspace: string, name: string)
    | OpCloneWorkspace(workspace: string)
    | OpSwitchWorkspace(workspace: string)
    | OpUnknown(op: string)

  /** The ids an op minted, empty when it minted none. */
  datatype Report = Report(newLeaf: NodeID, newWorkspace: string)

  const NOTHING := Report("", "")

  datatype Outcome = Outcome(state: State, result: Result<Report, Error>)

  // ----- lookups ------------------------------------------------------------

  /** Index of the first workspace with this id, or the number of workspaces. */
  function IndexOf(ws: seq<Workspace>, id: string): (i: nat)
    ensures i <= |ws|
    ensures i < |ws| ==> ws[i].id == id
    ensures forall j | 0 <= j < i :: ws[j].id != id
  {
    if ws == [] then 0 else if ws[0].id == id then 0 else 1 + IndexOf(ws[1..], id)
  }

  /** Index of the first workspace holding this leaf, or the number of workspaces. */
  function LeafHome(ws: seq<Workspace>, id: NodeID): (i: nat)
    ensures i <= |ws|
    ensures i < |ws| ==> HasLeaf(ws[i].root, id)
    ensures forall j | 0 <= j < i :: !HasLeaf(ws[j].root, id)
  {
    if ws == [] then 0 else if HasLeaf(ws[0].root, id) then 0 else 1 + LeafHome(ws[1..], id)
  }

  function NodeHome(ws: seq<Workspace>, id: NodeID): (i: nat)
    ensures i <= |ws|
    ensures i < |ws| ==> Find(ws[i].root, id).Some?
    ensures forall j | 0 <= j < i :: Find(ws[j].root, id).None?
  {
    if ws == [] then 0 else if Find(ws[0].root, id).Some? then 0 else 1 + NodeHome(ws[1..], id)
  }

  /** The workspace a node-addressed op works on. */
  function Resolve(s: State, pinned: string, node: NodeID): (r: Result<nat, Error>)
    ensures r.Ok? ==> r.value < |s.workspaces|
  {
    if pinned != "" then
      var i := IndexOf(s.workspaces, pinned);
      if i < |s.workspaces| then Ok(i) else Err(NoWorkspace(pinned))
    else
      var i := LeafHome(s.workspaces, node);
      if i < |s.workspaces| then Ok(i)
      else
        var j := NodeHome(s.workspaces, node);
        if j < |s.workspaces| then Ok(j) else Err(NodeNotFound(node))
  }

  function WithRoot(s: State, i: nat, root: Node, gen: nat): State
    requires i < |s.workspaces|
  {
    s.(workspaces := s.workspaces[i := s.workspaces[i].(root := root)], gen := gen)
  }

  // ----- the ops ------------------------------------------------------------

  function Rejected(s: State, e: Error): Outcome { Outcome(s, Err(e)) }

  /** An op that rewrites one tree and mints nothing. */
  function Rewritten(s: State, i: nat, r: Result<Node, Error>): Outcome
    requires i < |s.workspaces|
  {
    if r.Err? then Rejected(s, r.error) else Outcome(WithRoot(s, i, r.value, s.gen), Ok(NOTHING))
  }

  function Regrown(s: State, i: nat, r: Result<Minted, Error>, report: Report): Outcome
    requires i < |s.workspaces|
  {
    if r.Err? then Rejected(s, r.error) else Outcome(WithRoot(s, i, r.value.tree, r.value.gen), Ok(report))
  }

  function DirOrRow(dir: Dir): Dir { if dir == Unset then Row else dir }

  /** The source workspace is rewritten before the graft, and stays so if the graft fails. */
  function MoveLeaf(s: State, node: NodeID, workspace: string, target: NodeID, dir: Dir): Outcome {
    var src := LeafHome(s.workspaces, node);
    var dst := IndexOf(s.workspaces, workspace);
    if src == |s.workspaces| then Rejected(s, NoLeaf(node))
    else if dst == |s.workspaces| then Rejected(s, NoWorkspace(workspace))
    else if s.workspaces[src].id == s.workspaces[dst].id then Rejected(s, AlreadyThere(node))
    else if target != "" && !HasLeaf(s.workspaces[dst].root, target) then Rejected(s, NoTarget(target))
    else
      var root := s.workspaces[src].root;
      if root.Leaf? then
        var fill := NodeName(s.gen + 1);
        Grafted(WithRoot(s, src, Leaf(fill, ""), s.gen + 1), dst, root, target, DirOrRow(dir), Report(fill, ""))
      else
        var detached := DetachLeaf(root, node);
        if detached.Err? then Rejected(s, detached.error)
        else Grafted(WithRoot(s, src, detached.value.0, s.gen), dst, detached.value.1, target, DirOrRow(dir), NOTHING)
  }

  function Grafted(s: State, dst: nat, moved: Node, target: NodeID, dir: Dir, report: Report): Outcome
    requires dst < |s.workspaces| && moved.Leaf?
  {
    Regrown(s, dst, GraftLeaf(s.workspaces[dst].root, moved, target, dir, s.gen), report)
  }

  function AddWorkspace(s: State, app: string): Outcome {
    var id := WorkspaceName(s.wsSeq + 1);
    var name := "ws-" + Decimal(|s.workspaces| + 1);
    Outcome(
      State(s.workspaces + [Workspace(id, name, Leaf(NodeName(s.gen + 1), app))], id, s.gen + 1, s.wsSeq + 1),
      Ok(Report("", id)))
  }

  function RemoveWorkspace(s: State, id: string): Outcome {
    if |s.workspaces| < 2 then Rejected(s, LastWorkspace)
    else
      var i := IndexOf(s.workspaces, id);
      if i == |s.workspaces| then Rejected(s, NoWorkspace(id))
      else
        var rest := s.workspaces[..i] + s.workspaces[i + 1..];
        Outcome(s.(workspaces := rest, current := if s.current == id then rest[0].id else s.current), Ok(NOTHING))
  }

  function RenameWorkspace(s: State, id: string, name: string): Outcome {
    var i := IndexOf(s.workspaces, id);
    if i == |s.workspaces| then Rejected(s, NoWorkspace(id))
    else Outcome(s.(workspaces := s.workspaces[i := s.workspaces[i].(name := name)]), Ok(NOTHING))
  }

  function CloneWorkspace(s: State, id: string): Outcome {
    var i := IndexOf(s.workspaces, id);
    if i == |s.workspaces| then Rejected(s, NoWorkspace(id))
    else
      var src := s.workspaces[i];
      var wsId := WorkspaceName(s.wsSeq + 1);
      var copy := CloneFresh(src.root, s.gen);
      Outcome(
        State(s.workspaces + [Workspace(wsId, src.name + "'", copy.tree)], wsId, copy.gen, s.wsSeq + 1),
        Ok(Report("", wsId)))
  }

  function SwitchWorkspace(s: State, id: string): Outcome {
    if IndexOf(s.workspaces, id) == |s.workspaces| then Rejected(s, NoWorkspace(id))
    else Outcome(s.(current := id), Ok(NOTHING))
  }

  /** The effect of one op on the tree of the workspace it resolved to. */
  function OnTree(s: State, op: Op, i: nat): Outcome
    requires i < |s.workspaces| && OnOneTree(op)
  {
    var root := s.workspaces[i].root;
    match op
    case OpSplitLeaf(node, _, dir, app) =>
      Regrown(s, i, SplitLeaf(root, node, dir, app, s.gen), Report(NodeName(s.gen + 1), ""))
    case OpCloseLeaf(node, _) => Rewritten(s, i, CloseLeaf(root, node))
    case OpSetRatio(node, _, ratio) => Rewritten(s, i, SetRatio(root, node, ratio))
    case OpSetLeafApp(node, _, app) => Rewritten(s, i, SetLeafApp(root, node, app))
    case OpSwapLeaves(node, _, target) => Rewritten(s, i, SwapLeaves(root, node, target))
    case OpMoveSplit(node, _, target, zone) => Regrown(s, i, MoveSplit(root, node, target, zone, s.gen), NOTHING)
  }

  predicate OnOneTree(op: Op) {
    op.OpSplitLeaf? || op.OpCloseLeaf? || op.OpSetRatio? || op.OpSetLeafApp? || op.OpSwapLeaves? || op.OpMoveSplit?
  }

  function Step(s: State, op: Op): Outcome {
    if OnOneTree(op) then
      var where := Resolve(s, op.workspace, op.node);
      if where.Err? then Rejected(s, where.error) else OnTree(s, op, where.value)
    else
      match op
      case OpMoveLeaf(node, workspace, target, dir) => MoveLeaf(s, node, workspace, target, dir)
      case OpAddWorkspace(app) => AddWorkspace(s, app)
      case OpRemoveWorkspace(workspace) => RemoveWorkspace(s, workspace)
      case OpRenameWorkspace(workspace, name) => RenameWorkspace(s, workspace, name)
      case OpCloneWorkspace(workspace) => CloneWorkspace(s, workspace)
      case OpSwitchWorkspace(workspace) => SwitchWorkspace(s, workspace)
      case OpUnknown(name) => Rejected(s, UnknownOp(name))
  }

  function Initial(app: string): State {
    State([Workspace(WorkspaceName(1), "ws-1", Leaf(NodeName(1), app))], WorkspaceName(1), 1, 1)
  }

  /** Runs the ops in order; a rejected op is followed by the next one all the same. */
  function Run(s: State, ops: seq<Op>): State
    decreases |ops|
  {
    if ops == [] then s else Run(Step(s, ops[0]).state, ops[1..])
  }

  /** The ops of a run that were accepted. */
  function Accepted(s: State, ops: seq<Op>): seq<Op>
    decreases |ops|
  {
    if ops == [] then []
    else
      var out := Step(s, ops[0]);
      (if out.result.Ok? then [ops[0]] else []) + Accepted(out.state, ops[1..])
  }

  /** What the source's Desktop.Validate accepts. */
  ghost predicate ValidDesktop(s: State) {
    && s.workspaces != []
    && (exists i | 0 <= i < |s.workspaces| :: s.workspaces[i].id == s.current)
    && (forall i | 0 <= i < |s.workspaces| :: ValidTree(s.workspaces[i].root))
    && (forall i, j | 0 <= i < j < |s.workspaces| :: TilesApart(s.workspaces[i].root, s.workspaces[j].root))
  }

  ghost predicate TilesApart(m: Node, n: Node) {
    forall t, u | t in Leaves(m) && u in Leaves(n) :: t.id != u.id
  }
}
