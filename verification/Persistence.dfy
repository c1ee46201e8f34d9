/**
 Saving and reloading a desktop.  The document holds the workspaces and the current id; the
 two counters are not saved and are read back out of the ids in use.
 */
module Persistence {
  import opened Wrappers
  import opened Ids
  import opened Tree
  import opened TreeLaws
  import opened Desktop
  import opened DesktopLaws

  datatype Document = Document(workspaces: seq<Workspace>, current: string)

  function Serialize(s: State): Document { Document(s.workspaces, s.current) }

  function Seed(gen: nat, id: string, prefix: string): nat {
    var n := ScanNumber(prefix, id);
    if n.Some? && n.value > gen then n.value else gen
  }

  function SeedTree(gen: nat, n: Node): nat
    decreases n
  {
    var own := Seed(gen, n.id, NODE_PREFIX);
    if n.Leaf? then own else SeedTree(SeedTree(own, n.a), n.b)
  }

  /** Counters after reading the workspaces in order. */
  function SeedAll(ws: seq<Workspace>, gen: nat, wsSeq: nat): (nat, nat)
    decreases |ws|
  {
    if ws == [] then (gen, wsSeq)
    else SeedAll(ws[1..], SeedTree(gen, ws[0].root), Seed(wsSeq, ws[0].id, WORKSPACE_PREFIX))
  }

  function Deserialize(doc: Document): State {
    var seeds := SeedAll(doc.workspaces, 0, 0);
    State(doc.workspaces, doc.current, seeds.0, seeds.1)
  }

  /** The counter after a tree covers the tree, is no lower than before, and no higher than it needs to be. */
  lemma {:induction false} SeedTreeCovers(gen: nat, n: Node)
    ensures SeedTree(gen, n) >= gen
    ensures forall x | x in NodeIds(n) :: Seed(SeedTree(gen, n), x, NODE_PREFIX) == SeedTree(gen, n)
    ensures SeedTree(gen, n) == gen
      || exists x | x in NodeIds(n) :: ScanNumber(NODE_PREFIX, x) == Some(SeedTree(gen, n))
    decreases n
  {
    if n.Split? {
      var own := Seed(gen, n.id, NODE_PREFIX);
      SeedTreeCovers(own, n.a);
      SeedTreeCovers(SeedTree(own, n.a), n.b);
    }
  }

  /** Reading a whole document covers every node id and every workspace id in it, tightly. */
  lemma {:induction false} SeedAllCovers(ws: seq<Workspace>, gen: nat, wsSeq: nat)
    ensures var out := SeedAll(ws, gen, wsSeq);
      && out.0 >= gen && out.1 >= wsSeq
      && (forall i, x | 0 <= i < |ws| && x in NodeIds(ws[i].root) :: Seed(out.0, x, NODE_PREFIX) == out.0)
      && (forall i | 0 <= i < |ws| :: Seed(out.1, ws[i].id, WORKSPACE_PREFIX) == out.1)
    ensures var out := SeedAll(ws, gen, wsSeq);
      && (out.0 == gen || exists i, x ::
            0 <= i < |ws| && x in NodeIds(ws[i].root) && ScanNumber(NODE_PREFIX, x) == Some(out.0))
      && (out.1 == wsSeq || exists i :: 0 <= i < |ws| && ScanNumber(WORKSPACE_PREFIX, ws[i].id) == Some(out.1))
    decreases |ws|
  {
    hide ScanNumber, NodeIds, SeedTree;
    if ws != [] {
      var g, w := SeedTree(gen, ws[0].root), Seed(wsSeq, ws[0].id, WORKSPACE_PREFIX);
      var out := SeedAll(ws, gen, wsSeq);
      SeedTreeCovers(gen, ws[0].root);
      SeedAllCovers(ws[1..], g, w);
      forall i, x | 0 <= i < |ws| && x in NodeIds(ws[i].root)
        ensures Seed(out.0, x, NODE_PREFIX) == out.0
      {
        if i > 0 { assert ws[i] == ws[1..][i - 1]; }
      }
      forall i | 0 <= i < |ws|
        ensures Seed(out.1, ws[i].id, WORKSPACE_PREFIX) == out.1
      {
        if i > 0 { assert ws[i] == ws[1..][i - 1]; }
      }
      assert ws[0].id == ws[0].id;
    }
  }

  lemma {:induction false} SeedReaches(gen: nat, prefix: string, k: nat)
    requires Seed(gen, prefix + Decimal(k), prefix) == gen
    ensures k <= gen
  {
    ScanPrinted(prefix, k);
  }

  /**
   Reloading a desktop whose ids are in order gives the same workspaces and the same current one, with
   counters no higher than before that still cover every id in use: ids are in order again.
   */
  lemma {:induction false} ReloadRestores(s: State)
    requires IdInv(s)
    ensures var d := Deserialize(Serialize(s));
      && d.workspaces == s.workspaces && d.current == s.current
      && d.gen <= s.gen && d.wsSeq <= s.wsSeq
      && IdInv(d) && (Formed(s) ==> Formed(d))
  {
    var d := Deserialize(Serialize(s));
    SeedAllCovers(s.workspaces, 0, 0);
    ReloadNodeIds(s, d.gen);
    ReloadNames(s, d.wsSeq);
  }

  lemma {:induction false} PrintedIsAtMost(hi: nat, x: NodeID, gen: nat)
    requires MintedIn(x, 0, hi) && ScanNumber(NODE_PREFIX, x) == Some(gen)
    ensures gen <= hi
  {
    hide ScanNumber;
    var k: nat :| 0 < k <= hi && x == NodeName(k);
    ScanPrinted(NODE_PREFIX, k);
  }

  lemma {:induction false} ReloadNodeIds(s: State, gen: nat)
    requires IdInv(s)
    requires forall i, x | 0 <= i < |s.workspaces| && x in NodeIds(s.workspaces[i].root) :: Seed(gen, x, NODE_PREFIX) == gen
    requires gen == 0 || exists i, x ::
      0 <= i < |s.workspaces| && x in NodeIds(s.workspaces[i].root) && ScanNumber(NODE_PREFIX, x) == Some(gen)
    ensures IdsOk(s.workspaces, gen) && gen <= s.gen
  {
    hide ScanNumber, Seed, NodeIds, WellFormed, NamesOk;
    forall x
      ensures Occurrences(s.workspaces, x) <= 1 && (Occurrences(s.workspaces, x) == 1 ==> MintedIn(x, 0, gen))
    {
      if Occurrences(s.workspaces, x) == 1 {
        var k: nat :| 0 < k <= s.gen && x == NodeName(k);
        var i := SomeHome(s.workspaces, x);
        SeedReaches(gen, NODE_PREFIX, k);
      }
    }
    if gen != 0 {
      var i, x :| 0 <= i < |s.workspaces| && x in NodeIds(s.workspaces[i].root) && ScanNumber(NODE_PREFIX, x) == Some(gen);
      TreeOk(s, i);
      PrintedIsAtMost(s.gen, x, gen);
    }
  }

  lemma {:induction false} ReloadNames(s: State, wsSeq: nat)
    requires IdInv(s)
    requires forall i | 0 <= i < |s.workspaces| :: Seed(wsSeq, s.workspaces[i].id, WORKSPACE_PREFIX) == wsSeq
    requires wsSeq == 0 || exists i ::
      0 <= i < |s.workspaces| && ScanNumber(WORKSPACE_PREFIX, s.workspaces[i].id) == Some(wsSeq)
    ensures NamesOk(s.workspaces, wsSeq) && wsSeq <= s.wsSeq
  {
    hide ScanNumber, Seed;
    forall i | 0 <= i < |s.workspaces|
      ensures NamedUpTo(s.workspaces[i].id, wsSeq)
    {
      var k: nat :| 0 < k <= s.wsSeq && s.workspaces[i].id == WorkspaceName(k);
      SeedReaches(wsSeq, WORKSPACE_PREFIX, k);
    }
    if wsSeq != 0 {
      var i :| 0 <= i < |s.workspaces| && ScanNumber(WORKSPACE_PREFIX, s.workspaces[i].id) == Some(wsSeq);
      var k: nat :| 0 < k <= s.wsSeq && s.workspaces[i].id == WorkspaceName(k);
      ScanPrinted(WORKSPACE_PREFIX, k);
    }
  }

  lemma {:induction false} SomeHome(ws: seq<Workspace>, x: NodeID) returns (i: nat)
    requires Occurrences(ws, x) > 0
    ensures i < |ws| && x in NodeIds(ws[i].root)
  {
    if x in NodeIds(ws[0].root) {
      i := 0;
    } else {
      var j := SomeHome(ws[1..], x);
      i := j + 1;
    }
  }

  /** So whatever is done to the reloaded desktop, ids stay in order, and legal directions keep it good. */
  lemma {:induction false} ReloadedRunsStayGood(s: State, ops: seq<Op>)
    requires IdInv(s)
    ensures IdInv(Run(Deserialize(Serialize(s)), ops))
    ensures Inv(s) && (forall op | op in ops :: LegalDir(op)) ==> Inv(Run(Deserialize(Serialize(s)), ops))
  {
    hide IdInv, Formed, Run, LegalDir;
    ReloadRestores(s);
    RunIds(Deserialize(Serialize(s)), ops);
    if Inv(s) && forall op | op in ops :: LegalDir(op) { RunInv(Deserialize(Serialize(s)), ops); }
  }

  // ----- any document at all ------------------------------------------------

  /** Neither counter is below the number of an id in use; ids may be doubled or of any other form. */
  ghost predicate Covered(s: State) {
    && (forall k: nat :: Occurrences(s.workspaces, NodeName(k)) > 0 ==> k <= s.gen)
    && (forall i, k: nat | 0 <= i < |s.workspaces| && s.workspaces[i].id == WorkspaceName(k) :: k <= s.wsSeq)
  }

  /** Whatever the document, the counters read from it cover every id in it. */
  lemma {:induction false} LoadedIsCovered(doc: Document)
    ensures Deserialize(doc).workspaces == doc.workspaces && Deserialize(doc).current == doc.current
    ensures Covered(Deserialize(doc))
  {
    hide Decimal, ScanNumber, Seed, SeedAll;
    var s := Deserialize(doc);
    SeedAllCovers(doc.workspaces, 0, 0);
    forall k: nat | Occurrences(s.workspaces, NodeName(k)) > 0
      ensures k <= s.gen
    {
      var i := SomeHome(s.workspaces, NodeName(k));
      SeedReaches(s.gen, NODE_PREFIX, k);
    }
    forall i, k: nat | 0 <= i < |s.workspaces| && s.workspaces[i].id == WorkspaceName(k)
      ensures k <= s.wsSeq
    {
      SeedReaches(s.wsSeq, WORKSPACE_PREFIX, k);
    }
  }

  /** Every node id of t was in use in s or was minted in between, and so was every workspace id. */
  ghost predicate Mints(s: State, t: State) {
    && s.gen <= t.gen && s.wsSeq <= t.wsSeq <= s.wsSeq + 1
    && (forall x :: Occurrences(t.workspaces, x) > 0 ==> Occurrences(s.workspaces, x) > 0 || MintedIn(x, s.gen, t.gen))
    && (forall w | w in t.workspaces ::
          IndexOf(s.workspaces, w.id) < |s.workspaces| || (s.wsSeq < t.wsSeq && w.id == WorkspaceName(t.wsSeq)))
  }

  /** Every id of the tree comes from these or was minted in between. */
  ghost predicate Stems(was: multiset<NodeID>, out: Node, gen: nat, later: nat) {
    gen <= later && forall x | x in NodeIds(out) :: x in was || MintedIn(x, gen, later)
  }

  lemma {:induction false} UpdateStems(n: Node, id: NodeID, f: Node -> Node)
    requires forall m :: NodeIds(f(m)) == NodeIds(m)
    ensures NodeIds(Update(n, id, f)) == NodeIds(n)
  {
    if n.Split? {
      UpdateStems(n.a, id, f);
      UpdateStems(n.b, id, f);
    }
  }

  lemma {:induction false} RemoveStems(n: Node, id: NodeID)
    ensures forall x | x in NodeIds(RemoveLeaf(n, id)) :: x in NodeIds(n)
  {
    hide NodeIds;
    IdsOfParts(n);
    if n.Split? {
      RemoveStems(n.a, id);
      RemoveStems(n.b, id);
      IdsOfParts(RemoveLeaf(n, id));
    }
  }

  /** Docking, once or at every node of that id, brings the other tree's ids and fresh ones. */
  lemma {:induction false} DockStems(n: Node, target: NodeID, dir: Dir, other: Node, before: bool, gen: nat)
    ensures var out := DockAt(n, target, dir, other, before, gen);
      Stems(NodeIds(n) + NodeIds(other), out.tree, gen, out.gen)
  {
    hide NodeName;
    if n.id == target {
      assert MintedIn(NodeName(gen + 1), gen, gen + 1);
    } else if n.Split? {
      var a := DockAt(n.a, target, dir, other, before, gen);
      var b := DockAt(n.b, target, dir, other, before, a.gen);
      DockStems(n.a, target, dir, other, before, gen);
      DockStems(n.b, target, dir, other, before, a.gen);
      var out := DockAt(n, target, dir, other, before, gen);
      forall x | x in NodeIds(out.tree)
        ensures x in NodeIds(n) + NodeIds(other) || MintedIn(x, gen, out.gen)
      {
        assert x == n.id || x in NodeIds(a.tree) || x in NodeIds(b.tree);
      }
    }
  }

  lemma {:induction false} OpStems(root: Node, op: Op, gen: nat)
    requires Quiet(op) && QuietTree(root, op).Ok?
    ensures Stems(NodeIds(root), QuietTree(root, op).value, gen, gen)
  {
    hide Find, Update, NodeIds, NodeName;
    match op {
      case OpCloseLeaf(node, _) => RemoveStems(root, node);
      case OpSetRatio(node, _, ratio) => PutsKeepIds("", ratio); UpdateStems(root, node, PutRatio(ratio));
      case OpSetLeafApp(node, _, app) => PutsKeepIds(app, 0.0); UpdateStems(root, node, PutApp(app));
      case OpSwapLeaves(node, _, target) =>
        var appA, appB := Find(root, node).value.app, Find(root, target).value.app;
        PutsKeepIds(appA, 0.0);
        PutsKeepIds(appB, 0.0);
        UpdateStems(root, node, PutApp(appB));
        UpdateStems(Update(root, node, PutApp(appB)), target, PutApp(appA));
    }
  }

  lemma {:induction false} PutsKeepIds(app: string, ratio: real)
    ensures forall m :: NodeIds(PutApp(app)(m)) == NodeIds(m)
    ensures forall m :: NodeIds(PutRatio(ratio)(m)) == NodeIds(m)
  {
  }

  // ----- and any op on it ---------------------------------------------------

  /** Between s and t, putting such a tree in place of one of t's mints nothing else. */
  lemma {:induction false} WithRootMints(s: State, t: State, i: nat, root: Node, gen: nat)
    requires Mints(s, t) && i < |t.workspaces| && t.gen <= gen
    requires forall x | x in NodeIds(root) :: Occurrences(s.workspaces, x) > 0 || MintedIn(x, s.gen, gen)
    ensures Mints(s, WithRoot(t, i, root, gen))
  {
    hide NodeIds, NodeName;
    var w := t.workspaces[i].(root := root);
    var out := WithRoot(t, i, root, gen);
    forall x | Occurrences(out.workspaces, x) > 0
      ensures Occurrences(s.workspaces, x) > 0 || MintedIn(x, s.gen, gen)
    {
      OccurrencesWith(t.workspaces, i, w, x);
      if x !in NodeIds(root) { assert Occurrences(t.workspaces, x) > 0; }
      if MintedIn(x, s.gen, t.gen) { MintedWider(x, s.gen, t.gen, gen); }
    }
    forall v | v in out.workspaces
      ensures IndexOf(s.workspaces, v.id) < |s.workspaces| || (s.wsSeq < out.wsSeq && v.id == WorkspaceName(out.wsSeq))
    {
      if v == w { assert t.workspaces[i] in t.workspaces; }
    }
  }

  lemma {:induction false} MintedWider(x: NodeID, lo: nat, mid: nat, hi: nat)
    requires MintedIn(x, lo, mid) && mid <= hi
    ensures MintedIn(x, lo, hi)
  {
  }

  lemma {:induction false} SameMints(s: State)
    ensures Mints(s, s)
  {
    forall w | w in s.workspaces ensures IndexOf(s.workspaces, w.id) < |s.workspaces| {}
  }

  lemma {:induction false} IdsInUse(s: State, i: nat)
    requires i < |s.workspaces|
    ensures forall x | x in NodeIds(s.workspaces[i].root) :: Occurrences(s.workspaces, x) > 0
  {
    forall x | x in NodeIds(s.workspaces[i].root)
      ensures Occurrences(s.workspaces, x) > 0
    {
      OccurrencesAtLeast(s.workspaces, i, i, x);
    }
  }

  lemma {:induction false} OnTreeMints(s: State, i: nat, op: Op)
    requires i < |s.workspaces| && OnOneTree(op)
    ensures Mints(s, OnTree(s, op, i).state)
  {
    hide Mints, NodeIds, NodeName, DockAt, Find, Update, RemoveLeaf, MintedIn;
    var root := s.workspaces[i].root;
    var out := OnTree(s, op, i);
    SameMints(s);
    IdsInUse(s, i);
    if out.result.Ok? {
      var t := out.state;
      if op.OpSplitLeaf? {
        SplitStems(root, op.node, op.dir, op.app, s.gen);
      } else if op.OpMoveSplit? {
        MoveStems(root, op.node, op.target, op.zone, s.gen);
      } else {
        OpStems(root, op, s.gen);
      }
      WithRootMints(s, s, i, t.workspaces[i].root, t.gen);
    }
  }

  lemma {:induction false} SplitStems(root: Node, id: NodeID, dir: Dir, app: string, gen: nat)
    requires SplitLeaf(root, id, dir, app, gen).Ok?
    ensures var out := SplitLeaf(root, id, dir, app, gen).value; Stems(NodeIds(root), out.tree, gen, out.gen)
  {
    hide NodeName, DockAt;
    var other := Leaf(NodeName(gen + 1), app);
    DockStems(root, id, dir, other, false, gen + 1);
    var out := DockAt(root, id, dir, other, false, gen + 1);
    forall x | x in NodeIds(out.tree)
      ensures x in NodeIds(root) || MintedIn(x, gen, out.gen)
    {
      assert MintedIn(NodeName(gen + 1), gen, out.gen);
    }
  }

  lemma {:induction false} MoveStems(root: Node, from: NodeID, target: NodeID, zone: Zone, gen: nat)
    requires MoveSplit(root, from, target, zone, gen).Ok?
    ensures var out := MoveSplit(root, from, target, zone, gen).value; Stems(NodeIds(root), out.tree, gen, out.gen)
  {
    hide NodeName, DockAt, NodeIds, RemoveLeaf, Find;
    RemoveStems(root, from);
    LeafFound(root, from);
    DockStems(RemoveLeaf(root, from), target, ZoneDir(zone), Find(root, from).value, ZoneBefore(zone), gen);
  }

  lemma {:induction false} LeafFound(n: Node, id: NodeID)
    requires HasLeaf(n, id)
    ensures NodeIds(Find(n, id).value) <= NodeIds(n)
  {
    FoundIds(n, id);
  }

  lemma {:induction false} GraftStems(root: Node, leaf: Node, target: NodeID, dir: Dir, gen: nat)
    requires leaf.Leaf? && GraftLeaf(root, leaf, target, dir, gen).Ok?
    ensures var out := GraftLeaf(root, leaf, target, dir, gen).value;
      Stems(NodeIds(root) + NodeIds(leaf), out.tree, gen, out.gen)
  {
    hide NodeName, DockAt;
    if target == "" {
      assert MintedIn(NodeName(gen + 1), gen, gen + 1);
    } else {
      DockStems(root, target, dir, leaf, false, gen);
    }
  }

  /** Grafting onto t a leaf that was in use in s. */
  lemma {:induction false} GraftMints(s: State, t: State, dst: nat, moved: Node, target: NodeID, dir: Dir, report: Report)
    requires Mints(s, t) && dst < |t.workspaces| && moved.Leaf? && Occurrences(s.workspaces, moved.id) > 0
    ensures Mints(s, Grafted(t, dst, moved, target, dir, report).state)
  {
    hide NodeName, GraftLeaf, Occurrences, MintedIn;
    var root := t.workspaces[dst].root;
    var g := GraftLeaf(root, moved, target, dir, t.gen);
    if g.Ok? {
      GraftStems(root, moved, target, dir, t.gen);
      IdsInUse(t, dst);
      forall x | x in NodeIds(g.value.tree)
        ensures Occurrences(s.workspaces, x) > 0 || MintedIn(x, s.gen, g.value.gen)
      {
        if MintedIn(x, t.gen, g.value.gen) {
          MintedSince(x, s.gen, t.gen, g.value.gen);
        } else if x != moved.id && MintedIn(x, s.gen, t.gen) {
          MintedWider(x, s.gen, t.gen, g.value.gen);
        }
      }
      WithRootMints(s, t, dst, g.value.tree, g.value.gen);
    }
  }

  lemma {:induction false} MintedSince(x: NodeID, lo: nat, mid: nat, hi: nat)
    requires MintedIn(x, mid, hi) && lo <= mid
    ensures MintedIn(x, lo, hi)
  {
  }

  lemma {:induction false} MoveLeafMints(s: State, node: NodeID, workspace: string, target: NodeID, dir: Dir)
    ensures Mints(s, MoveLeaf(s, node, workspace, target, dir).state)
  {
    hide Mints, NodeName, Grafted, NodeIds, Occurrences, RemoveLeaf, Find;
    var src := LeafHome(s.workspaces, node);
    var dst := IndexOf(s.workspaces, workspace);
    SameMints(s);
    if src < |s.workspaces| && dst < |s.workspaces| {
      var root := s.workspaces[src].root;
      IdsInUse(s, src);
      LeafFound(root, node);
      RemoveStems(root, node);
      MovedIsInUse(root, node);
      if root.Leaf? {
        LeafIsFresh(s.gen, "");
        var fill := Leaf(NodeName(s.gen + 1), "");
        WithRootMints(s, s, src, fill, s.gen + 1);
        GraftMints(s, WithRoot(s, src, fill, s.gen + 1), dst, root, target, DirOrRow(dir), Report(NodeName(s.gen + 1), ""));
      } else {
        var small := RemoveLeaf(root, node);
        WithRootMints(s, s, src, small, s.gen);
        GraftMints(s, WithRoot(s, src, small, s.gen), dst, Find(root, node).value, target, DirOrRow(dir), NOTHING);
      }
    }
  }

  lemma {:induction false} MovedIsInUse(root: Node, node: NodeID)
    requires HasLeaf(root, node)
    ensures Find(root, node).value.id == node && node in NodeIds(root) && (root.Leaf? ==> root.id == node)
  {
    FindIffPresent(root, node);
  }

  lemma {:induction false} LeafIsFresh(gen: nat, app: string)
    ensures NodeIds(Leaf(NodeName(gen + 1), app)) == multiset{NodeName(gen + 1)}
    ensures MintedIn(NodeName(gen + 1), gen, gen + 1)
  {
    NextNames(gen);
  }

  /** Appending a workspace under the next name, its tree fresh. */
  lemma {:induction false} AppendMints(s: State, w: Workspace, gen: nat)
    requires s.gen <= gen && w.id == WorkspaceName(s.wsSeq + 1)
    requires forall x | x in NodeIds(w.root) :: MintedIn(x, s.gen, gen)
    ensures Mints(s, State(s.workspaces + [w], w.id, gen, s.wsSeq + 1))
  {
    hide NodeIds, NodeName;
    forall x | Occurrences(s.workspaces + [w], x) > 0
      ensures Occurrences(s.workspaces, x) > 0 || MintedIn(x, s.gen, gen)
    {
      OccurrencesConcat(s.workspaces, [w], x);
      assert Occurrences([w], x) == NodeIds(w.root)[x] + Occurrences([w][1..], x);
    }
    SameMints(s);
  }

  lemma {:induction false} RemoveMints(s: State, id: string)
    ensures Mints(s, RemoveWorkspace(s, id).state)
  {
    hide NodeIds, NodeName;
    SameMints(s);
    var i := IndexOf(s.workspaces, id);
    if i < |s.workspaces| {
      var rest := s.workspaces[..i] + s.workspaces[i + 1..];
      forall x | Occurrences(rest, x) > 0
        ensures Occurrences(s.workspaces, x) > 0
      {
        OccurrencesWithout(s.workspaces, i, x);
      }
    }
  }

  lemma {:induction false} RenameMints(s: State, id: string, name: string)
    ensures Mints(s, RenameWorkspace(s, id, name).state)
  {
    hide NodeIds, NodeName;
    SameMints(s);
    var i := IndexOf(s.workspaces, id);
    if i < |s.workspaces| {
      var w := s.workspaces[i].(name := name);
      forall x | Occurrences(s.workspaces[i := w], x) > 0
        ensures Occurrences(s.workspaces, x) > 0
      {
        OccurrencesWith(s.workspaces, i, w, x);
      }
      forall v | v in s.workspaces[i := w]
        ensures IndexOf(s.workspaces, v.id) < |s.workspaces|
      {
        assert v == w || v in s.workspaces;
      }
    }
  }

  /** On any desktop at all, what an op uses was in use or comes off the counters. */
  lemma {:induction false} StepMints(s: State, op: Op)
    ensures Mints(s, Step(s, op).state)
  {
    hide Mints, NodeIds, NodeName, MintedIn, OnTree, MoveLeaf, Decimal, Resolve;
    SameMints(s);
    match op {
      case OpMoveLeaf(node, workspace, target, dir) => MoveLeafMints(s, node, workspace, target, dir);
      case OpAddWorkspace(app) =>
        var w := Workspace(WorkspaceName(s.wsSeq + 1), "ws-" + Decimal(|s.workspaces| + 1), Leaf(NodeName(s.gen + 1), app));
        LeafIsFresh(s.gen, app);
        AppendMints(s, w, s.gen + 1);
      case OpRemoveWorkspace(id) => RemoveMints(s, id);
      case OpRenameWorkspace(id, name) => RenameMints(s, id, name);
      case OpCloneWorkspace(id) => CloneMints(s, id);
      case OpSwitchWorkspace(id) => SwitchMints(s, id);
      case OpUnknown(_) =>
      case _ =>
        var where := Resolve(s, op.workspace, op.node);
        if where.Ok? { OnTreeMints(s, where.value, op); }
    }
  }

  lemma {:induction false} SwitchMints(s: State, id: string)
    ensures Mints(s, SwitchWorkspace(s, id).state)
  {
    SameMints(s);
  }

  lemma {:induction false} CloneMints(s: State, id: string)
    ensures Mints(s, CloneWorkspace(s, id).state)
  {
    hide Mints, Decimal;
    SameMints(s);
    var i := IndexOf(s.workspaces, id);
    if i < |s.workspaces| {
      CloneIsFreshCopy(s.workspaces[i].root, s.gen);
      var copy := CloneFresh(s.workspaces[i].root, s.gen);
      AppendMints(s, Workspace(WorkspaceName(s.wsSeq + 1), s.workspaces[i].name + "'", copy.tree), copy.gen);
    }
  }

  lemma {:induction false} MintsKeepsCovered(s: State, t: State)
    requires Covered(s) && Mints(s, t)
    ensures Covered(t)
  {
    hide Decimal, Occurrences;
    forall k: nat | Occurrences(t.workspaces, NodeName(k)) > 0
      ensures k <= t.gen
    {
      if MintedIn(NodeName(k), s.gen, t.gen) {
        var j: nat :| s.gen < j <= t.gen && NodeName(k) == NodeName(j);
        PrintedIdsDiffer(NODE_PREFIX, j, k);
      }
    }
    forall i, k: nat | 0 <= i < |t.workspaces| && t.workspaces[i].id == WorkspaceName(k)
      ensures k <= t.wsSeq
    {
      var w := t.workspaces[i];
      assert w in t.workspaces;
      if IndexOf(s.workspaces, w.id) == |s.workspaces| { PrintedIdsDiffer(WORKSPACE_PREFIX, k, t.wsSeq); }
    }
  }

  lemma {:induction false} RunCovered(s: State, ops: seq<Op>)
    requires Covered(s)
    ensures Covered(Run(s, ops))
    decreases |ops|
  {
    hide Covered, Mints, Step;
    if ops != [] {
      StepMints(s, ops[0]);
      MintsKeepsCovered(s, Step(s, ops[0]).state);
      RunCovered(Step(s, ops[0]).state, ops[1..]);
    }
  }

  /**
   Fresh ids never collide: whatever document is loaded and whatever is done to it, the ids the next op
   mints are numbered above both counters, and no such id is in use.
   */
  lemma {:induction false} FreshIdsNeverCollide(doc: Document, ops: seq<Op>, op: Op)
    ensures var s := Run(Deserialize(doc), ops);
      && Mints(s, Step(s, op).state)
      && (forall x, hi :: MintedIn(x, s.gen, hi) ==> Occurrences(s.workspaces, x) == 0)
      && (forall k: nat | k > s.wsSeq :: IndexOf(s.workspaces, WorkspaceName(k)) == |s.workspaces|)
  {
    hide Mints, Occurrences, Step, Run, Deserialize, NodeName, WorkspaceName;
    LoadedIsCovered(doc);
    RunCovered(Deserialize(doc), ops);
    StepMints(Run(Deserialize(doc), ops), op);
  }
}
