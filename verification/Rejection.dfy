/**
 Exactly which rejected ops leave a trace, on any desktop at all; and a desktop that the
 source's Validate accepts on which one does.
 */
module Rejection {
  import opened Wrappers
  import opened Ids
  import opened Tree
  import opened Desktop
  import opened DesktopLaws

  /**
   The move passes its checks and the leaf leaves its tree, but the destination already has
   a node, leaf or split, with the leaf's id.
   */
  predicate GraftCollides(s: State, op: Op) {
    op.OpMoveLeaf? && MoveAllowed(s, op) &&
    var src := s.workspaces[LeafHome(s.workspaces, op.node)].root;
    var dst := s.workspaces[IndexOf(s.workspaces, op.workspace)].root;
    (src.Leaf? || DetachLeaf(src, op.node).Ok?) && Find(dst, op.node).Some?
  }

  lemma {:induction false} FoundHasItsId(n: Node, id: NodeID)
    requires Find(n, id).Some?
    ensures Find(n, id).value.id == id
  {
    FindIffPresent(n, id);
  }

  /** A rejected op changes the desktop if and only if it is a move whose graft collides. */
  lemma {:induction false} RejectedChangesIffCollision(s: State, op: Op)
    ensures GraftCollides(s, op) ==> Step(s, op).result == Err(IdPresent(op.node))
    ensures Step(s, op).result.Err? ==> (Step(s, op).state != s <==> GraftCollides(s, op))
  {
    if op.OpMoveLeaf? && MoveAllowed(s, op) {
      var src := LeafHome(s.workspaces, op.node);
      var root := s.workspaces[src].root;
      FoundHasItsId(root, op.node);
      if root.Leaf? {
        var lifted := WithRoot(s, src, Leaf(NodeName(s.gen + 1), ""), s.gen + 1);
        assert lifted.gen != s.gen;
      } else if DetachLeaf(root, op.node).Ok? {
        var lifted := WithRoot(s, src, RemoveLeaf(root, op.node), s.gen);
        assert lifted.workspaces[src].root != s.workspaces[src].root;
      }
    }
  }

  /** Where no id occurs twice no move collides, so no rejected op leaves a trace. */
  lemma {:induction false} NoCollision(s: State, op: Op)
    requires forall x :: Occurrences(s.workspaces, x) <= 1
    ensures !GraftCollides(s, op)
    ensures Step(s, op).result.Err? ==> Step(s, op).state == s
  {
    hide Step, Occurrences;
    RejectedChangesIffCollision(s, op);
    if op.OpMoveLeaf? && MoveAllowed(s, op) {
      var src, dst := LeafHome(s.workspaces, op.node), IndexOf(s.workspaces, op.workspace);
      FindIffPresent(s.workspaces[src].root, op.node);
      FindIffPresent(s.workspaces[dst].root, op.node);
      OccurrencesAtLeast(s.workspaces, src, dst, op.node);
    }
  }

  /** So none does in any run from a new desktop, whatever the directions. */
  lemma {:induction false} RunsRejectCleanly(app: string, ops: seq<Op>, op: Op)
    ensures var s := Run(Initial(app), ops);
      !GraftCollides(s, op) && (Step(s, op).result.Err? ==> Step(s, op).state == s)
  {
    hide Step, Run, Occurrences, GraftCollides;
    InitialInv(app);
    RunIds(Initial(app), ops);
    NoCollision(Run(Initial(app), ops), op);
  }

  function CollidingDesktop(): State {
    State([
      Workspace("ws1", "ws-1", Split("n5", Row, 0.5, Leaf("n1", "editor"), Leaf("n2", "trace"))),
      Workspace("ws2", "ws-2", Split("n1", Col, 0.5, Leaf("n3", "notes"), Leaf("n4", "mail")))
    ], "ws1", 5, 2)
  }

  /** Validate compares leaf ids only, so it accepts a desktop on which a rejected move loses a tile. */
  lemma {:induction false} ValidateIsNotEnough()
    ensures var s := CollidingDesktop();
      var out := Step(s, OpMoveLeaf("n1", "ws2", "", Unset));
      && ValidDesktop(s)
      && out.result.Err?
      && (exists w | w in s.workspaces :: Tile("n1", "editor") in Leaves(w.root))
      && forall w | w in out.state.workspaces :: Tile("n1", "editor") !in Leaves(w.root)
  {
    hide ValidDesktop, Step;
    CollidingIsValid();
    var s := CollidingDesktop();
    var one, two := s.workspaces[0].root, s.workspaces[1].root;
    assert Leaves(one) == [Tile("n1", "editor"), Tile("n2", "trace")];
    assert Leaves(two) == [Tile("n3", "notes"), Tile("n4", "mail")];
    assert s.workspaces[0] in s.workspaces;
    CollidingMove();
    var t := WithRoot(s, 0, Leaf("n2", "trace"), 5);
    assert Leaves(t.workspaces[0].root) == [Tile("n2", "trace")];
    assert t.workspaces == [t.workspaces[0], s.workspaces[1]];
  }

  lemma {:induction false} CollidingIsValid()
    ensures ValidDesktop(CollidingDesktop())
  {
    var s := CollidingDesktop();
    var one, two := s.workspaces[0].root, s.workspaces[1].root;
    assert s.workspaces[0].id == s.current;
    assert NodeIds(one) == multiset{"n5", "n1", "n2"};
    assert NodeIds(two) == multiset{"n1", "n3", "n4"};
    assert Leaves(one) == [Tile("n1", "editor"), Tile("n2", "trace")];
    assert Leaves(two) == [Tile("n3", "notes"), Tile("n4", "mail")];
  }

  lemma {:induction false} CollidingMove()
    ensures var out := Step(CollidingDesktop(), OpMoveLeaf("n1", "ws2", "", Unset));
      out.state == WithRoot(CollidingDesktop(), 0, Leaf("n2", "trace"), 5) && out.result.Err?
  {
    var s := CollidingDesktop();
    var one, two := s.workspaces[0].root, s.workspaces[1].root;
    assert s.workspaces[1].id == "ws2" && s.workspaces[0].id != "ws2";
    assert IndexOf(s.workspaces, "ws2") == 1;
    assert one.a.id == "n1" && one.id != "n1";
    assert HasLeaf(one, "n1") && LeafHome(s.workspaces, "n1") == 0;
    assert RemoveLeaf(one, "n1") == Leaf("n2", "trace");
    assert Find(two, "n1") == Some(two);
  }
}
