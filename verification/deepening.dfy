/** Depth-limited search and iterative deepening search over the puzzle's
    search tree. Depth-limited search is recursive and keeps no explored set,
    so it may revisit states; its answer is a goal node, 'cutoff' (the limit
    was reached somewhere) or None (the tree below the limit was searched
    completely without a goal). */
module Deepening {
  import opened Wrappers
  import opened Board
  import opened Problem
  import opened Nodes

  /** What `recursive_dls` returns: a goal node, 'cutoff', or None. */
  datatype Outcome = Found(node: Node) | Cutoff | Failure

  /** Some sequence of at most limit moves leads from s to the goal. */
  ghost predicate GoalWithin(p: Puzzle, s: State, limit: nat)
    requires IsBoard(s)
  {
    exists acts :: |acts| <= limit && Run(s, acts) == Some(p.goal)
  }

  /** A goal within limit of some child of `expand` is within limit + 1 of
      the parent: the child's move followed by the child's sequence. */
  lemma ChildWithin(p: Puzzle, n: Node, j: nat, limit: nat)
    requires IsBoard(n.state) && j < |Expand(n)| && GoalWithin(p, Expand(n)[j].state, limit)
    ensures GoalWithin(p, n.state, limit + 1)
  {
    var c := Expand(n)[j];
    var acts :| |acts| <= limit && Run(c.state, acts) == Some(p.goal);
    ExpandChild(n, j);
    RunCons(n.state, Actions(n.state)[j], acts);
    assert |[Actions(n.state)[j]] + acts| <= limit + 1;
  }

  /** The child `expand` makes for a legal move a. */
  lemma ChildOfMove(n: Node, a: Action) returns (i: nat)
    requires IsBoard(n.state) && a in Actions(n.state)
    ensures i < |Expand(n)| && Expand(n)[i].state == Result(n.state, a)
  {
    i :| i < |Actions(n.state)| && Actions(n.state)[i] == a;
    ExpandChild(n, i);
  }

  /** No goal within limit of the state a move reaches: no sequence of at
      most limit + 1 moves starting with that move reaches the goal. */
  lemma NotThroughChild(p: Puzzle, s: State, acts: seq<Action>, limit: nat)
    requires IsBoard(s) && acts != [] && acts[0] in Actions(s) && |acts| <= limit + 1
    requires !GoalWithin(p, Result(s, acts[0]), limit)
    ensures Run(s, acts) != Some(p.goal)
  {
    assert acts == [acts[0]] + acts[1..];
    RunCons(s, acts[0], acts[1..]);
  }

  /** When no move out of s, not a goal itself, leads to a state with a goal
      within limit, s has none within limit + 1: a sequence from s starts
      with one of its moves. */
  lemma NoMoveWithin(p: Puzzle, s: State, limit: nat)
    requires IsBoard(s) && !GoalTest(p, s)
    requires forall a :: a in Actions(s) ==> !GoalWithin(p, Result(s, a), limit)
    ensures !GoalWithin(p, s, limit + 1)
  {
    forall acts | |acts| <= limit + 1
      ensures Run(s, acts) != Some(p.goal)
    {
      if acts == [] {
        assert Run(s, acts) == Some(s);
      } else if acts[0] in Actions(s) {
        NotThroughChild(p, s, acts, limit);
      } else {
        assert Run(s, acts) == None;
      }
    }
  }

  /** When no child of `expand` has a goal within limit, the parent, not a goal
      itself, has none within limit + 1, as the children cover every move. */
  lemma NoChildWithin(p: Puzzle, n: Node, limit: nat)
    requires IsBoard(n.state) && !GoalTest(p, n.state)
    requires forall i :: 0 <= i < |Expand(n)| ==> !GoalWithin(p, Expand(n)[i].state, limit)
    ensures !GoalWithin(p, n.state, limit + 1)
  {
    forall a | a in Actions(n.state)
      ensures !GoalWithin(p, Result(n.state, a), limit)
    {
      var i := ChildOfMove(n, a);
    }
    NoMoveWithin(p, n.state, limit);
  }

  /** None of the first j children has a goal within limit. */
  ghost predicate NoneWithin(p: Puzzle, children: seq<Node>, j: nat, limit: nat)
    requires j <= |children| && forall i :: 0 <= i < |children| ==> IsBoard(children[i].state)
  {
    forall i :: 0 <= i < j ==> !GoalWithin(p, children[i].state, limit)
  }

  /** One more child without a goal within limit. */
  lemma NoneWithinStep(p: Puzzle, children: seq<Node>, j: nat, limit: nat)
    requires j < |children| && forall i :: 0 <= i < |children| ==> IsBoard(children[i].state)
    requires NoneWithin(p, children, j, limit) && !GoalWithin(p, children[j].state, limit)
    ensures NoneWithin(p, children, j + 1, limit)
  {
  }

  /** `recursive_dls`. The goal test comes before the limit check, so a goal
      node is returned even at limit 0, and a node that is not a goal is cut
      off there. On the puzzle every state has a move, so the answer is never
      None; it is a goal exactly when one is within the limit, and that goal
      is a tree node at most limit levels below the start. */
  method RecursiveDLS(p: Puzzle, node: Node, limit: nat) returns (r: Outcome)
    requires IsBoard(node.state) && InTree(p, node)
    ensures GoalTest(p, node.state) ==> r == Found(node)
    ensures !GoalTest(p, node.state) && limit == 0 ==> r == Cutoff
    ensures r != Failure
    ensures r.Found? <==> GoalWithin(p, node.state, limit)
    ensures r.Found? ==> InTree(p, r.node) && GoalTest(p, r.node.state) && r.node.depth <= node.depth + limit
    decreases limit, 1
  {
    if GoalTest(p, node.state) {
      assert Run(node.state, []) == Some(p.goal);
      return Found(node);
    } else if limit == 0 {
      forall acts | |acts| <= 0
        ensures Run(node.state, acts) != Some(p.goal)
      {
        assert acts == [];
      }
      return Cutoff;
    }
    r := SearchChildren(p, node, limit);
  }

  /** The `for child in node.expand(problem)` loop of `recursive_dls`: each
      child is searched with one less to go; the first goal found is
      returned, and otherwise the answer is 'cutoff' if some child was cut off
      and None if none was. As `expand` yields at least two children and none
      answers None, the loop's answer is never None. */
  method SearchChildren(p: Puzzle, node: Node, limit: nat) returns (r: Outcome)
    requires IsBoard(node.state) && InTree(p, node) && !GoalTest(p, node.state) && limit > 0
    ensures r != Failure
    ensures r.Found? <==> GoalWithin(p, node.state, limit)
    ensures r.Found? ==> InTree(p, r.node) && GoalTest(p, r.node.state) && r.node.depth <= node.depth + limit
    decreases limit, 0
  {
    var cutoffOccurred := false;
    var children := Expand(node);
    for j := 0 to |children|
      invariant j > 0 ==> cutoffOccurred
      invariant NoneWithin(p, children, j, limit - 1)
    {
      ChildInTree(p, node, j);
      ExpandChild(node, j);
      var result := RecursiveDLS(p, children[j], limit - 1);
      if result == Cutoff {
        NoneWithinStep(p, children, j, limit - 1);
        cutoffOccurred := true;
      } else if result != Failure {
        ChildWithin(p, node, j, limit - 1);
        return result;
      }
    }
    NoChildWithin(p, node, limit - 1);
    return if cutoffOccurred then Cutoff else Failure;
  }

  /** The limit `depth_limited_search` uses when none is given. */
  const DefaultLimit: nat := 50

  /** `depth_limited_search`: `recursive_dls` from the root of p. */
  method DepthLimitedSearch(p: Puzzle, limit: nat) returns (r: Outcome)
    requires IsBoard(p.initial)
    ensures GoalTest(p, p.initial) ==> r == Found(Root(p.initial))
    ensures !GoalTest(p, p.initial) && limit == 0 ==> r == Cutoff
    ensures r != Failure
    ensures r.Found? <==> GoalWithin(p, p.initial, limit)
    ensures r.Found? ==> InTree(p, r.node) && GoalTest(p, r.node.state) && r.node.depth <= limit
  {
    r := RecursiveDLS(p, Root(p.initial), limit);
  }

  /** `depth_limited_search(problem)` with its default limit: a goal is found
      exactly when some sequence of at most fifty moves reaches it. */
  method DepthLimitedSearchDefault(p: Puzzle) returns (r: Outcome)
    requires IsBoard(p.initial)
    ensures r != Failure
    ensures r.Found? <==> GoalWithin(p, p.initial, DefaultLimit)
    ensures r.Found? ==> InTree(p, r.node) && GoalTest(p, r.node.state) && r.node.depth <= 50
  {
    r := DepthLimitedSearch(p, DefaultLimit);
  }

  /** Python's `sys.maxsize` on a 64-bit build: the bound of the deepening loop. */
  const MaxSize: nat := 0x7FFF_FFFF_FFFF_FFFF

  /** `iterative_deepening_search`: run depth-limited search with limits 0, 1,
      2, ... and return the first answer that is not 'cutoff'. A goal it
      returns is as shallow as any move sequence to the goal; it answers None
      only when no sequence shorter than sys.maxsize reaches the goal. */
  method IterativeDeepeningSearch(p: Puzzle) returns (r: Outcome)
    requires IsBoard(p.initial)
    ensures !r.Cutoff?
    ensures r.Found? ==> InTree(p, r.node) && GoalTest(p, r.node.state)
    ensures r.Found? ==> forall acts :: Run(p.initial, acts) == Some(p.goal) ==> r.node.depth <= |acts|
    ensures r.Failure? ==> forall acts :: |acts| < MaxSize ==> Run(p.initial, acts) != Some(p.goal)
  {
    for depth := 0 to MaxSize
      invariant forall d :: 0 <= d < depth ==> !GoalWithin(p, p.initial, d)
    {
      var result := DepthLimitedSearch(p, depth);
      if result != Cutoff {
        forall acts | |acts| < result.node.depth
          ensures Run(p.initial, acts) != Some(p.goal)
        {
          assert !GoalWithin(p, p.initial, |acts|);
        }
        return result;
      }
    }
    forall acts | |acts| < MaxSize
      ensures Run(p.initial, acts) != Some(p.goal)
    {
      assert !GoalWithin(p, p.initial, |acts|);
    }
    return Failure;
  }
}
