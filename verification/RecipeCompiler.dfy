/** Compiling a plan onto a workspace, and why the tree that results is the plan. */
module RecipeCompiler {
  import opened Wrappers
  import opened Ids
  import opened Tree
  import opened TreeLaws
  import opened Desktop
  import opened DesktopLaws
  import opened Engine
  import opened Recipe

  /** The first split, walking down, with this child; empty when there is none. */
  function ParentIn(n: Node, child: NodeID): NodeID {
    if n.Leaf? then ""
    else if n.a.id == child || n.b.id == child then n.id
    else
      var below := ParentIn(n.a, child);
      if below != "" then below else ParentIn(n.b, child)
  }

  function FindParentSplit(ws: seq<Workspace>, child: NodeID): NodeID {
    if ws == [] then ""
    else
      var here := ParentIn(ws[0].root, child);
      if here != "" then here else FindParentSplit(ws[1..], child)
  }

  /** The desktop after compiling, and the error that stopped it, if one did. */
  datatype Compiled = Compiled(state: State, error: Option<Error>)

  function Compile(s: State, target: NodeID, plan: Shape): Compiled
    decreases plan
  {
    match plan
    case LeafShape(app) =>
      if app == "" then Compiled(s, None) else Ran(Step(s, OpSetLeafApp(target, "", app)))
    case SplitShape(dir, ratio, a, b) =>
      var split := Step(s, OpSplitLeaf(target, "", dir, ""));
      if split.result.Err? then Ran(split)
      else
        var sized := SizeParent(split.state, split.result.value.newLeaf, ratio);
        if sized.error.Some? then sized
        else
          var one := Compile(sized.state, target, a);
          if one.error.Some? then one else Compile(one.state, split.result.value.newLeaf, b)
  }

  function Ran(out: Outcome): Compiled {
    Compiled(out.state, if out.result.Ok? then None else Some(out.result.error))
  }

  /** The ratio goes to the parent of the new leaf, found by searching the whole desktop. */
  function SizeParent(s: State, newLeaf: NodeID, ratio: real): Compiled {
    var parent := FindParentSplit(s.workspaces, newLeaf);
    if ratio == 0.5 || parent == "" then Compiled(s, None)
    else Ran(Step(s, OpSetRatio(parent, "", ratio)))
  }

  /** The desktop after applying a plan to a workspace, and whether it was built. */
  datatype Application = Application(state: State, built: Result<bool, Error>)

  function ApplyLayout(s: State, workspace: string, plan: Shape): Application {
    var i := IndexOf(s.workspaces, workspace);
    if i == |s.workspaces| then Application(s, Err(NoWorkspace(workspace)))
    else
      var root := s.workspaces[i].root;
      if root.Split? || root.app != "" then Application(s, Ok(false))
      else
        var out := Compile(s, root.id, plan);
        Application(out.state, if out.error.Some? then Err(out.error.value) else Ok(true))
  }

  // ----- as run against the live desktop ------------------------------------

  method FindParent(ws: seq<Workspace>, child: NodeID) returns (found: NodeID)
    ensures found == FindParentSplit(ws, child)
  {
    found := "";
    for i := 0 to |ws|
      invariant found == ""
      invariant FindParentSplit(ws, child) == FindParentSplit(ws[i..], child)
    {
      found := ParentIn(ws[i].root, child);
      if found != "" { return; }
      assert ws[i..][1..] == ws[i + 1..];
    }
  }

  method CompileLayout(d: LiveDesktop, target: NodeID, plan: Shape) returns (error: Option<Error>)
    modifies d, d.gen
    ensures Compiled(d.State(), error) == Compile(old(d.State()), target, plan)
    decreases plan
  {
    if plan.LeafShape? {
      if plan.app == "" { return None; }
      var r := d.Apply(OpSetLeafApp(target, "", plan.app));
      return if r.Ok? then None else Some(r.error);
    }
    var split := d.Apply(OpSplitLeaf(target, "", plan.dir, ""));
    if split.Err? { return Some(split.error); }
    var newLeaf := split.value.newLeaf;
    if plan.ratio != 0.5 {
      var parent := FindParent(d.workspaces, newLeaf);
      if parent != "" {
        var sized := d.Apply(OpSetRatio(parent, "", plan.ratio));
        if sized.Err? { return Some(sized.error); }
      }
    }
    error := CompileLayout(d, target, plan.a);
    if error.Some? { return; }
    error := CompileLayout(d, newLeaf, plan.b);
  }

  method ApplyLayoutTo(d: LiveDesktop, workspace: string, plan: Shape) returns (built: Result<bool, Error>)
    modifies d, d.gen
    ensures Application(d.State(), built) == ApplyLayout(old(d.State()), workspace, plan)
  {
    var i := d.WorkspaceByID(workspace);
    if i == |d.workspaces| { return Err(NoWorkspace(workspace)); }
    var root := d.workspaces[i].root;
    if root.Split? || root.app != "" { return Ok(false); }
    var error := CompileLayout(d, root.id, plan);
    built := if error.Some? then Err(error.value) else Ok(true);
  }

  // ----- what a plan builds -------------------------------------------------

  /** The tree a plan stands for: target is its first leaf, every other id is minted in walking order. */
  function Build(plan: Shape, target: NodeID, gen: nat): Minted {
    if plan.LeafShape? then Minted(Leaf(target, plan.app), gen)
    else
      var a := Build(plan.a, target, gen + 2);
      var b := Build(plan.b, NodeName(gen + 1), a.gen);
      Minted(Split(NodeName(gen + 2), plan.dir, plan.ratio, a.tree, b.tree), b.gen)
  }

  /** Ids erased, it is the plan; and its ids are target and freshly minted ones. */
  lemma {:induction false} BuildIsPlan(plan: Shape, target: NodeID, gen: nat)
    ensures Erase(Build(plan, target, gen).tree) == plan
    ensures Build(plan, target, gen).gen >= gen
    ensures forall x | x in NodeIds(Build(plan, target, gen).tree) ::
              x == target || MintedIn(x, gen, Build(plan, target, gen).gen)
  {
    if plan.SplitShape? {
      var a := Build(plan.a, target, gen + 2);
      var b := Build(plan.b, NodeName(gen + 1), a.gen);
      BuildIsPlan(plan.a, target, gen + 2);
      BuildIsPlan(plan.b, NodeName(gen + 1), a.gen);
      forall x | x in NodeIds(Build(plan, target, gen).tree)
        ensures x == target || MintedIn(x, gen, b.gen)
      {
        if x in NodeIds(a.tree) && x != target { Widen(x, gen + 2, a.gen, gen, b.gen); }
        if x in NodeIds(b.tree) && x != NodeName(gen + 1) { Widen(x, a.gen, b.gen, gen, b.gen); }
      }
    }
  }

  lemma {:induction false} Widen(x: NodeID, lo: nat, hi: nat, lower: nat, higher: nat)
    requires MintedIn(x, lo, hi) && lower <= lo && hi <= higher
    ensures MintedIn(x, lower, higher)
  {
  }

  // ----- looking into a replaced subtree ------------------------------------

  /** An update below a subtree that was just put in place could as well be made before putting it there. */
  lemma {:induction false} UpdateNested(n: Node, t: NodeID, p: Node, q: NodeID, f: Node -> Node)
    requires Distinct(NodeIds(n)) && t in NodeIds(n)
    requires q == t || q !in NodeIds(n)
    ensures Update(Update(n, t, PutTree(p)), q, f) == Update(n, t, PutTree(Update(p, q, f)))
  {
    if n.id != t {
      DistinctParts(n);
      var quiet := if t in NodeIds(n.a) then n.b else n.a;
      UpdateAbsent(quiet, t, PutTree(p));
      UpdateAbsent(quiet, t, PutTree(Update(p, q, f)));
      UpdateAbsent(quiet, q, f);
      UpdateNested(if t in NodeIds(n.a) then n.a else n.b, t, p, q, f);
    }
  }

  lemma {:induction false} FindNested(n: Node, t: NodeID, p: Node, q: NodeID)
    requires Distinct(NodeIds(n)) && t in NodeIds(n)
    requires q == t || q !in NodeIds(n)
    ensures Find(Update(n, t, PutTree(p)), q) == Find(p, q)
  {
    if n.id != t {
      DistinctParts(n);
      var quiet := if t in NodeIds(n.a) then n.b else n.a;
      UpdateAbsent(quiet, t, PutTree(p));
      FindIffPresent(quiet, q);
      FindNested(if t in NodeIds(n.a) then n.a else n.b, t, p, q);
    }
  }

  /** Two updates agree when their functions agree on the node they replace. */
  lemma {:induction false} SameUpdate(n: Node, id: NodeID, f: Node -> Node, g: Node -> Node)
    requires Distinct(NodeIds(n)) && Find(n, id).Some? && f(Find(n, id).value) == g(Find(n, id).value)
    ensures Update(n, id, f) == Update(n, id, g)
  {
    if n.id != id {
      SearchSide(n, id);
      var inA := Find(n.a, id).Some?;
      UpdateAbsent(if inA then n.b else n.a, id, f);
      UpdateAbsent(if inA then n.b else n.a, id, g);
      SameUpdate(if inA then n.a else n.b, id, f, g);
    }
  }

  // ----- finding the split just minted --------------------------------------

  lemma {:induction false} NoParent(n: Node, child: NodeID)
    requires child !in NodeIds(n)
    ensures ParentIn(n, child) == ""
  {
    if n.Split? {
      NoParent(n.a, child);
      NoParent(n.b, child);
    }
  }

  lemma {:induction false} ParentFound(n: Node, p: NodeID, child: NodeID)
    requires Distinct(NodeIds(n)) && p != "" && Find(n, p).Some?
    requires var x := Find(n, p).value; x.Split? && x.b.id == child
    ensures ParentIn(n, child) == p && child in NodeIds(n)
  {
    hide NodeIds, Distinct;
    ChildIsNotRoot(n, p, child);
    if n.id != p {
      SplitAbove(n, p);
      SearchSide(n, p);
      DistinctParts(n);
      if Find(n.a, p).Some? {
        ChildIsNotRoot(n.a, p, child);
        RootIsIn(n.b);
        ParentFound(n.a, p, child);
      } else {
        ChildIsNotRoot(n.b, p, child);
        RootIsIn(n.a);
        NoParent(n.a, child);
        ParentFound(n.b, p, child);
      }
    }
  }

  lemma {:induction false} RootIsIn(n: Node)
    ensures n.id in NodeIds(n)
  {
  }

  lemma {:induction false} SplitAbove(n: Node, p: NodeID)
    requires Find(n, p).Some? && Find(n, p).value.Split?
    ensures n.Split?
  {
  }

  lemma {:induction false} ChildIsNotRoot(n: Node, p: NodeID, child: NodeID)
    requires Distinct(NodeIds(n)) && Find(n, p).Some?
    requires var x := Find(n, p).value; x.Split? && x.b.id == child
    ensures n.id != child && child in NodeIds(n)
  {
    var x := Find(n, p).value;
    SplitAbove(n, p);
    DistinctParts(n);
    FoundIds(n, p);
    assert child in NodeIds(x);
    if n.id != p {
      SearchSide(n, p);
      if Find(n.a, p).Some? { FoundIds(n.a, p); } else { FoundIds(n.b, p); }
    }
  }

  /** On a good desktop the whole search finds a tree's own parent split, for no other tree has the child. */
  lemma {:induction false} ParentOnDesktop(ws: seq<Workspace>, i: nat, child: NodeID, p: NodeID)
    requires i < |ws| && p != "" && ParentIn(ws[i].root, child) == p
    requires forall j | 0 <= j < |ws| && j != i :: child !in NodeIds(ws[j].root)
    ensures FindParentSplit(ws, child) == p
  {
    if i > 0 {
      NoParent(ws[0].root, child);
      ParentOnDesktop(ws[1..], i - 1, child, p);
    }
  }

  /** A node that is nowhere on the desktop has no parent. */
  lemma {:induction false} NoParentOnDesktop(ws: seq<Workspace>, child: NodeID)
    requires forall j | 0 <= j < |ws| :: child !in NodeIds(ws[j].root)
    ensures FindParentSplit(ws, child) == ""
  {
    hide NodeIds;
    if ws != [] {
      NoParent(ws[0].root, child);
      NoParentOnDesktop(ws[1..], child);
    }
  }

  // ----- where ops go -------------------------------------------------------

  lemma {:induction false} LeafResolves(s: State, i: nat, id: NodeID)
    requires Inv(s) && i < |s.workspaces| && HasLeaf(s.workspaces[i].root, id)
    ensures Resolve(s, "", id) == Ok(i)
  {
    hide IdInv, Formed, MintedIn, NodeIds, Find;
    TreeOk(s, i);
    FindIffPresent(s.workspaces[i].root, id);
    forall j | 0 <= j < |s.workspaces| && j != i
      ensures !HasLeaf(s.workspaces[j].root, id)
    {
      FindIffPresent(s.workspaces[j].root, id);
    }
  }

  lemma {:induction false} SplitResolves(s: State, i: nat, id: NodeID)
    requires Inv(s) && i < |s.workspaces|
    requires Find(s.workspaces[i].root, id).Some? && Find(s.workspaces[i].root, id).value.Split?
    ensures Resolve(s, "", id) == Ok(i)
  {
    hide IdInv, Formed, MintedIn, NodeIds, Find;
    TreeOk(s, i);
    FindIffPresent(s.workspaces[i].root, id);
    forall j | 0 <= j < |s.workspaces| && j != i
      ensures Find(s.workspaces[j].root, id).None?
    {
      FindIffPresent(s.workspaces[j].root, id);
    }
  }

  // ----- correctness --------------------------------------------------------

  /** A workspace's tree with the leaf target replaced by a subtree. */
  function With(s: State, i: nat, target: NodeID, p: Node, gen: nat): State
    requires i < |s.workspaces|
  {
    WithRoot(s, i, Update(s.workspaces[i].root, target, PutTree(p)), gen)
  }

  ghost predicate EmptyLeafAt(s: State, i: nat, target: NodeID) {
    Inv(s) && i < |s.workspaces| && Find(s.workspaces[i].root, target) == Some(Leaf(target, ""))
  }

  /** Leaf plans: set-leaf-app, or nothing when the app is empty. */
  lemma {:induction false} CompileLeaf(s: State, i: nat, target: NodeID, app: string)
    requires EmptyLeafAt(s, i, target)
    ensures Compile(s, target, LeafShape(app)) == Compiled(With(s, i, target, Leaf(target, app), s.gen), None)
    ensures Inv(With(s, i, target, Leaf(target, app), s.gen))
  {
    var root := s.workspaces[i].root;
    TreeOk(s, i);
    LeafResolves(s, i, target);
    SameUpdate(root, target, PutApp(app), PutTree(Leaf(target, app)));
    if app == "" {
      SameUpdate(root, target, PutTree(Leaf(target, "")), PutApp(""));
      UpdateIdentity(root, target);
      assert s.workspaces[i := s.workspaces[i]] == s.workspaces;
    } else {
      StepInv(s, OpSetLeafApp(target, "", app));
    }
  }

  lemma {:induction false} UpdateIdentity(n: Node, id: NodeID)
    requires Distinct(NodeIds(n)) && Find(n, id) == Some(Leaf(id, ""))
    ensures Update(n, id, PutApp("")) == n
  {
    PutAppTwice(n, id, "", "");
  }

  /** The split a split plan starts with, and its two empty leaves. */
  function Opening(target: NodeID, dir: Dir, ratio: real, gen: nat): Node {
    Split(NodeName(gen + 2), dir, ratio, Leaf(target, ""), Leaf(NodeName(gen + 1), ""))
  }

  lemma {:induction false} SplitStep(s: State, i: nat, target: NodeID, dir: Dir)
    requires EmptyLeafAt(s, i, target) && Legal(dir)
    ensures var out := Step(s, OpSplitLeaf(target, "", dir, ""));
      && out == Outcome(With(s, i, target, Opening(target, dir, 0.5, s.gen), s.gen + 2), Ok(Report(NodeName(s.gen + 1), "")))
      && Inv(out.state)
  {
    var root := s.workspaces[i].root;
    TreeOk(s, i);
    LeafResolves(s, i, target);
    SplitLeafIds(root, target, dir, "", s.gen);
    SameUpdate(root, target, PutDock(NodeName(s.gen + 2), dir, Leaf(NodeName(s.gen + 1), ""), false),
               PutTree(Opening(target, dir, 0.5, s.gen)));
    StepInv(s, OpSplitLeaf(target, "", dir, ""));
  }

  /** The names minted next are new to the tree and differ from each other and from the target. */
  lemma {:induction false} OpeningNames(s: State, i: nat, target: NodeID)
    requires EmptyLeafAt(s, i, target)
    ensures var root := s.workspaces[i].root;
      && Distinct(NodeIds(root)) && target in NodeIds(root)
      && NodeName(s.gen + 1) !in NodeIds(root) && NodeName(s.gen + 2) !in NodeIds(root)
      && NodeName(s.gen + 1) != NodeName(s.gen + 2)
  {
    TreeOk(s, i);
    FindIffPresent(s.workspaces[i].root, target);
    FreshIsAbsent(NodeIds(s.workspaces[i].root), s.gen, s.gen + 1);
    FreshIsAbsent(NodeIds(s.workspaces[i].root), s.gen, s.gen + 2);
    NextNames(s.gen);
  }

  /** The search over the whole desktop finds exactly the split that was just minted. */
  lemma {:induction false} SearchFindsNewSplit(s: State, i: nat, target: NodeID, dir: Dir)
    requires EmptyLeafAt(s, i, target)
    requires Inv(With(s, i, target, Opening(target, dir, 0.5, s.gen), s.gen + 2))
    ensures var t := With(s, i, target, Opening(target, dir, 0.5, s.gen), s.gen + 2);
      && FindParentSplit(t.workspaces, NodeName(s.gen + 1)) == NodeName(s.gen + 2)
      && Find(t.workspaces[i].root, NodeName(s.gen + 2)) == Some(Opening(target, dir, 0.5, s.gen))
  {
    hide IdInv, Formed, MintedIn;
    var root := s.workspaces[i].root;
    var even := Opening(target, dir, 0.5, s.gen);
    var p := NodeName(s.gen + 2);
    var t := With(s, i, target, even, s.gen + 2);
    OpeningNames(s, i, target);
    TreeOk(t, i);
    FindNested(root, target, even, p);
    ParentFound(t.workspaces[i].root, p, NodeName(s.gen + 1));
    ParentOnDesktop(t.workspaces, i, NodeName(s.gen + 1), p);
  }

  /** So the ratio is set on that split. */
  lemma {:induction false} RatioStep(s: State, i: nat, target: NodeID, dir: Dir, ratio: real)
    requires EmptyLeafAt(s, i, target) && Legal(dir) && MIN_RATIO <= ratio <= MAX_RATIO
    requires Inv(With(s, i, target, Opening(target, dir, 0.5, s.gen), s.gen + 2))
    ensures var t := With(s, i, target, Opening(target, dir, 0.5, s.gen), s.gen + 2);
      var out := With(s, i, target, Opening(target, dir, ratio, s.gen), s.gen + 2);
      SizeParent(t, NodeName(s.gen + 1), ratio) == Compiled(out, None) && Inv(out)
  {
    hide IdInv, Formed, MintedIn, NodeIds, FindParentSplit;
    var root := s.workspaces[i].root;
    var even := Opening(target, dir, 0.5, s.gen);
    var p := NodeName(s.gen + 2);
    var t := With(s, i, target, even, s.gen + 2);
    SearchFindsNewSplit(s, i, target, dir);
    if ratio != 0.5 {
      OpeningNames(s, i, target);
      SplitResolves(t, i, p);
      UpdateNested(root, target, even, p, PutRatio(ratio));
      StepInv(t, OpSetRatio(p, "", ratio));
    }
  }

  /**
   Compiling a legal plan at an empty leaf never fails, and replaces that leaf by the tree the
   plan stands for, minting exactly its ids and touching nothing else on the desktop.
   */
  lemma {:induction false} CompileBuilds(s: State, i: nat, target: NodeID, plan: Shape)
    requires EmptyLeafAt(s, i, target) && PlanOk(plan)
    ensures var b := Build(plan, target, s.gen);
      Compile(s, target, plan) == Compiled(With(s, i, target, b.tree, b.gen), None) && Inv(With(s, i, target, b.tree, b.gen))
    decreases plan
  {
    if plan.LeafShape? {
      CompileLeaf(s, i, target, plan.app);
    } else {
      SplitStep(s, i, target, plan.dir);
      RatioStep(s, i, target, plan.dir, plan.ratio);
      var open := With(s, i, target, Opening(target, plan.dir, plan.ratio, s.gen), s.gen + 2);
      FirstHalf(s, i, target, plan);
      CompileBuilds(open, i, target, plan.a);
      var a := Build(plan.a, target, s.gen + 2);
      var half := HalfBuilt(plan, a.tree, s.gen);
      SecondHalf(s, i, target, plan);
      CompileBuilds(With(s, i, target, half, a.gen), i, NodeName(s.gen + 1), plan.b);
    }
  }

  /** The opening with its first leaf already replaced by what plan.a builds. */
  function HalfBuilt(plan: Shape, a: Node, gen: nat): Node
    requires plan.SplitShape?
  {
    Split(NodeName(gen + 2), plan.dir, plan.ratio, a, Leaf(NodeName(gen + 1), ""))
  }

  lemma {:induction false} FirstHalf(s: State, i: nat, target: NodeID, plan: Shape)
    requires EmptyLeafAt(s, i, target) && plan.SplitShape?
    requires Inv(With(s, i, target, Opening(target, plan.dir, plan.ratio, s.gen), s.gen + 2))
    ensures var open := With(s, i, target, Opening(target, plan.dir, plan.ratio, s.gen), s.gen + 2);
      var a := Build(plan.a, target, s.gen + 2);
      && EmptyLeafAt(open, i, target)
      && With(open, i, target, a.tree, a.gen) == With(s, i, target, HalfBuilt(plan, a.tree, s.gen), a.gen)
  {
    var root := s.workspaces[i].root;
    var opening := Opening(target, plan.dir, plan.ratio, s.gen);
    var a := Build(plan.a, target, s.gen + 2).tree;
    OpeningNames(s, i, target);
    FindNested(root, target, opening, target);
    UpdateNested(root, target, opening, target, PutTree(a));
    assert Update(opening, target, PutTree(a)) == HalfBuilt(plan, a, s.gen);
  }

  lemma {:induction false} SecondHalf(s: State, i: nat, target: NodeID, plan: Shape)
    requires EmptyLeafAt(s, i, target) && plan.SplitShape?
    requires var a := Build(plan.a, target, s.gen + 2); Inv(With(s, i, target, HalfBuilt(plan, a.tree, s.gen), a.gen))
    ensures var a := Build(plan.a, target, s.gen + 2);
      var half := With(s, i, target, HalfBuilt(plan, a.tree, s.gen), a.gen);
      var b := Build(plan.b, NodeName(s.gen + 1), a.gen);
      && EmptyLeafAt(half, i, NodeName(s.gen + 1))
      && With(half, i, NodeName(s.gen + 1), b.tree, b.gen) == With(s, i, target, Build(plan, target, s.gen).tree, b.gen)
  {
    hide IdInv, Formed, Distinct, MintedIn;
    var root := s.workspaces[i].root;
    var next := NodeName(s.gen + 1);
    var a := Build(plan.a, target, s.gen + 2);
    var half := HalfBuilt(plan, a.tree, s.gen);
    var b := Build(plan.b, next, a.gen);
    OpeningNames(s, i, target);
    BuildIsPlan(plan.a, target, s.gen + 2);
    NextNames(s.gen);
    if next in NodeIds(a.tree) { RangesDiffer(next, s.gen, s.gen + 2, a.gen); }
    FindIffPresent(a.tree, next);
    UpdateAbsent(a.tree, next, PutTree(b.tree));
    FindNested(root, target, half, next);
    UpdateNested(root, target, half, next, PutTree(b.tree));
  }

  /**
   Applying a legal plan to a workspace that is one empty leaf: it is built, the tree that
   results is the plan with ids erased, no other workspace changes, and the desktop stays good.
   */
  lemma {:induction false} ApplyLayoutBuildsPlan(s: State, workspace: string, plan: Shape)
    requires Inv(s) && PlanOk(plan) && IndexOf(s.workspaces, workspace) < |s.workspaces|
    requires var root := s.workspaces[IndexOf(s.workspaces, workspace)].root; root.Leaf? && root.app == ""
    ensures var i := IndexOf(s.workspaces, workspace);
      var out := ApplyLayout(s, workspace, plan);
      && out.built == Ok(true) && |out.state.workspaces| == |s.workspaces|
      && out.state == WithRoot(s, i, out.state.workspaces[i].root, out.state.gen)
      && Erase(out.state.workspaces[i].root) == plan
      && Inv(out.state)
  {
    var i := IndexOf(s.workspaces, workspace);
    var root := s.workspaces[i].root;
    CompileBuilds(s, i, root.id, plan);
    BuildIsPlan(plan, root.id, s.gen);
    assert Update(root, root.id, PutTree(Build(plan, root.id, s.gen).tree)) == Build(plan, root.id, s.gen).tree;
  }

  /** Applying again changes nothing, and says so unless the plan is a lone empty leaf. */
  lemma {:induction false} ApplyLayoutTwice(s: State, workspace: string, plan: Shape, again: Shape)
    requires Inv(s) && PlanOk(plan) && IndexOf(s.workspaces, workspace) < |s.workspaces|
    requires var root := s.workspaces[IndexOf(s.workspaces, workspace)].root; root.Leaf? && root.app == ""
    ensures var once := ApplyLayout(s, workspace, plan).state;
      && (ApplyLayout(once, workspace, again).built == Ok(false) <==> plan != LeafShape(""))
      && (plan != LeafShape("") || again == plan ==> ApplyLayout(once, workspace, again).state == once)
  {
    ApplyLayoutBuildsPlan(s, workspace, plan);
    var i := IndexOf(s.workspaces, workspace);
    var once := ApplyLayout(s, workspace, plan).state;
    SameNamesSameIndex(s.workspaces, once.workspaces, workspace);
    var root := once.workspaces[i].root;
    assert Erase(root) == plan;
  }

  /**
   Applying a legal plan is all or nothing: it is built, exactly as planned, if and only if the workspace exists
   and is one empty leaf; otherwise nothing on the desktop changes, and it is an error only to name no workspace.
   */
  lemma {:induction false} AllOrNothing(s: State, workspace: string, plan: Shape)
    requires Inv(s) && PlanOk(plan)
    ensures var i := IndexOf(s.workspaces, workspace);
      var out := ApplyLayout(s, workspace, plan);
      && Inv(out.state) && |out.state.workspaces| == |s.workspaces| && IndexOf(out.state.workspaces, workspace) == i
      && (out.built == Ok(true) <==> i < |s.workspaces| && Erase(s.workspaces[i].root) == LeafShape(""))
      && (out.built.Err? <==> i == |s.workspaces|)
      && (i < |s.workspaces| ==> out.state == WithRoot(s, i, out.state.workspaces[i].root, out.state.gen))
      && if out.built == Ok(true) then Erase(out.state.workspaces[i].root) == plan else out.state == s
  {
    hide IdInv, Formed, Compile;
    var i := IndexOf(s.workspaces, workspace);
    if i < |s.workspaces| && s.workspaces[i].root.Leaf? && s.workspaces[i].root.app == "" {
      ApplyLayoutBuildsPlan(s, workspace, plan);
      SameNamesSameIndex(s.workspaces, ApplyLayout(s, workspace, plan).state.workspaces, workspace);
    } else if i < |s.workspaces| {
      SameRoot(s, i);
    }
  }

  lemma {:induction false} SameRoot(s: State, i: nat)
    requires i < |s.workspaces|
    ensures WithRoot(s, i, s.workspaces[i].root, s.gen) == s
  {
  }

  lemma {:induction false} RootTwice(s: State, i: nat, once: Node, gen: nat, twice: Node, later: nat)
    requires i < |s.workspaces|
    ensures WithRoot(WithRoot(s, i, once, gen), i, twice, later) == WithRoot(s, i, twice, later)
  {
  }

  /** The plans applied one after another, as rules fire again and again. */
  function ApplyAll(s: State, workspace: string, plans: seq<Shape>): State
    decreases |plans|
  {
    if plans == [] then s else ApplyAll(ApplyLayout(s, workspace, plans[0]).state, workspace, plans[1..])
  }

  /** The first of them that is more than an empty leaf, if any is. */
  function FirstReal(plans: seq<Shape>): Shape {
    if plans == [] then LeafShape("") else if plans[0] != LeafShape("") then plans[0] else FirstReal(plans[1..])
  }

  /**
   However many plans are applied, the first real one is built on an empty workspace and all others do nothing;
   no other workspace changes.
   */
  lemma {:induction false} FirstPlanWins(s: State, workspace: string, plans: seq<Shape>)
    requires Inv(s) && IndexOf(s.workspaces, workspace) < |s.workspaces| && forall plan | plan in plans :: PlanOk(plan)
    ensures var i := IndexOf(s.workspaces, workspace);
      var t := ApplyAll(s, workspace, plans);
      && Inv(t) && |t.workspaces| == |s.workspaces| && t == WithRoot(s, i, t.workspaces[i].root, t.gen)
      && if Erase(s.workspaces[i].root) == LeafShape("") then Erase(t.workspaces[i].root) == FirstReal(plans) else t == s
    decreases |plans|
  {
    hide IdInv, Formed, ApplyLayout, PlanOk, WithRoot;
    var i := IndexOf(s.workspaces, workspace);
    SameRoot(s, i);
    if plans != [] {
      AllOrNothing(s, workspace, plans[0]);
      var mid := ApplyLayout(s, workspace, plans[0]).state;
      FirstPlanWins(mid, workspace, plans[1..]);
      var t := ApplyAll(mid, workspace, plans[1..]);
      RootTwice(s, i, mid.workspaces[i].root, mid.gen, t.workspaces[i].root, t.gen);
    }
  }

  /** From script value to tiles: a spec accepted when the rule is defined is built exactly as written. */
  lemma {:induction false} AcceptedSpecBuilds(s: State, workspace: string, spec: JsValue)
    requires Inv(s) && Normalize(spec).Ok? && IndexOf(s.workspaces, workspace) < |s.workspaces|
    requires var root := s.workspaces[IndexOf(s.workspaces, workspace)].root; root.Leaf? && root.app == ""
    ensures var out := ApplyLayout(s, workspace, Normalize(spec).value);
      && out.built == Ok(true) && Inv(out.state)
      && IndexOf(s.workspaces, workspace) < |out.state.workspaces|
      && Erase(out.state.workspaces[IndexOf(s.workspaces, workspace)].root) == Normalize(spec).value
  {
    hide IdInv, Formed, Normalize, ApplyLayout;
    NormalizedPlanIsOk(spec);
    ApplyLayoutBuildsPlan(s, workspace, Normalize(spec).value);
  }
}
