/** Breadth-first graph search: the goal test is applied when a node is
    generated, the frontier is a FIFO queue of nodes, and the explored set
    holds the states already expanded. */
module BreadthFirst {
  import opened Wrappers
  import opened Board
  import opened Problem
  import opened Nodes
  import opened StateSpace

  /** The states of the frontier's nodes: what `child in frontier` tests, since
      nodes are equal when their states are. */
  function StateSet(frontier: seq<Node>): set<State> {
    set i | 0 <= i < |frontier| :: frontier[i].state
  }

  /** A state is in the frontier when one of its nodes holds it. */
  lemma StateSetMembers(frontier: seq<Node>)
    ensures forall i :: 0 <= i < |frontier| ==> frontier[i].state in StateSet(frontier)
    ensures forall x :: x in StateSet(frontier) ==> exists i :: 0 <= i < |frontier| && frontier[i].state == x
  {
  }

  /** Appending a node adds its state. */
  lemma StateSetAppend(frontier: seq<Node>, n: Node)
    ensures StateSet(frontier + [n]) == StateSet(frontier) + {n.state}
  {
    var f := frontier + [n];
    StateSetMembers(f);
    StateSetMembers(frontier);
    forall x | x in StateSet(f)
      ensures x in StateSet(frontier) + {n.state}
    {
      var i :| 0 <= i < |f| && f[i].state == x;
      if i < |frontier| {
        assert frontier[i].state == x;
      }
    }
    forall x | x in StateSet(frontier)
      ensures x in StateSet(f)
    {
      var i :| 0 <= i < |frontier| && frontier[i].state == x;
      assert f[i] == frontier[i];
    }
    assert f[|frontier|] == n;
  }

  /** Taking the first node off a frontier without repeated states removes
      exactly its state. */
  lemma StateSetPop(frontier: seq<Node>)
    requires frontier != []
    requires forall i, j :: 0 <= i < j < |frontier| ==> frontier[i].state != frontier[j].state
    ensures StateSet(frontier) == {frontier[0].state} + StateSet(frontier[1..])
    ensures frontier[0].state !in StateSet(frontier[1..])
  {
    var rest := frontier[1..];
    StateSetMembers(frontier);
    StateSetMembers(rest);
    forall x | x in StateSet(frontier)
      ensures x in {frontier[0].state} + StateSet(rest)
    {
      var i :| 0 <= i < |frontier| && frontier[i].state == x;
      if i > 0 {
        assert rest[i - 1].state == x;
      }
    }
    forall x | x in StateSet(rest)
      ensures x in StateSet(frontier) && x != frontier[0].state
    {
      var i :| 0 <= i < |rest| && rest[i].state == x;
      assert frontier[i + 1].state == x;
    }
  }

  /** The breadth-first frontier: tree nodes, none of them a goal or explored,
      no two with the same state. */
  ghost predicate QueueOk(p: Puzzle, frontier: seq<Node>, explored: set<State>) {
    (forall i :: 0 <= i < |frontier| ==>
       InTree(p, frontier[i]) && !GoalTest(p, frontier[i].state) && frontier[i].state !in explored) &&
    (forall i, j :: 0 <= i < j < |frontier| ==> frontier[i].state != frontier[j].state)
  }

  /** Moving the first node's state from the frontier to explored keeps the
      frontier in order. */
  lemma QueuePop(p: Puzzle, frontier: seq<Node>, explored: set<State>)
    requires QueueOk(p, frontier, explored) && frontier != []
    ensures QueueOk(p, frontier[1..], explored + {frontier[0].state})
  {
    var rest := frontier[1..];
    forall i | 0 <= i < |rest|
      ensures rest[i].state != frontier[0].state
    {
      assert rest[i] == frontier[i + 1];
    }
  }

  /** Appending a fresh non-goal tree node keeps the frontier in order. */
  lemma QueueAppend(p: Puzzle, frontier: seq<Node>, explored: set<State>, n: Node)
    requires QueueOk(p, frontier, explored)
    requires InTree(p, n) && !GoalTest(p, n.state) && n.state !in explored && n.state !in StateSet(frontier)
    ensures QueueOk(p, frontier + [n], explored)
  {
    var f := frontier + [n];
    StateSetMembers(frontier);
    forall i | 0 <= i < |f|
      ensures InTree(p, f[i]) && !GoalTest(p, f[i].state) && f[i].state !in explored
    {
      if i < |frontier| {
        assert f[i] == frontier[i];
      }
    }
    forall i, j | 0 <= i < j < |f|
      ensures f[i].state != f[j].state
    {
      assert f[i] == frontier[i];
      if j < |frontier| {
        assert f[j] == frontier[j];
      }
    }
  }

  /** A queue that extends another at the back holds all of its states. */
  lemma StateSetPrefix(frontier: seq<Node>, queue: seq<Node>)
    requires |frontier| <= |queue| && queue[..|frontier|] == frontier
    ensures StateSet(frontier) <= StateSet(queue)
  {
    StateSetMembers(frontier);
    StateSetMembers(queue);
    forall x | x in StateSet(frontier)
      ensures x in StateSet(queue)
    {
      var i :| 0 <= i < |frontier| && frontier[i].state == x;
      assert queue[i] == frontier[i];
    }
  }

  /** What the loop over the children keeps after j of them: the queue is in
      order, extends the frontier at the back, and holds (or explored holds)
      the result of each of the first j moves. */
  ghost predicate EnqueueInv(p: Puzzle, node: Node, frontier: seq<Node>, explored: set<State>, queue: seq<Node>, j: nat)
    requires IsBoard(node.state) && j <= |Actions(node.state)|
  {
    QueueOk(p, queue, explored) && |frontier| <= |queue| && queue[..|frontier|] == frontier &&
    Covers(node.state, Actions(node.state)[..j], explored + StateSet(queue))
  }

  /** A child whose state is already explored or queued is skipped. */
  lemma EnqueueSkip(p: Puzzle, node: Node, frontier: seq<Node>, explored: set<State>, queue: seq<Node>, j: nat)
    requires IsBoard(node.state) && j < |Expand(node)|
    requires EnqueueInv(p, node, frontier, explored, queue, j)
    requires Expand(node)[j].state in explored + StateSet(queue)
    ensures EnqueueInv(p, node, frontier, explored, queue, j + 1)
  {
    ExpandChild(node, j);
    var region := explored + StateSet(queue);
    CoversStep(node.state, j, region, region);
  }

  /** A fresh child that is not the goal goes to the back of the queue. */
  lemma EnqueueAppend(p: Puzzle, node: Node, frontier: seq<Node>, explored: set<State>, queue: seq<Node>, j: nat)
    requires InTree(p, node) && IsBoard(node.state) && j < |Expand(node)|
    requires EnqueueInv(p, node, frontier, explored, queue, j)
    requires var c := Expand(node)[j];
      c.state !in explored && c.state !in StateSet(queue) && !GoalTest(p, c.state)
    ensures EnqueueInv(p, node, frontier, explored, queue + [Expand(node)[j]], j + 1)
  {
    var c := Expand(node)[j];
    ChildInTree(p, node, j);
    QueueAppend(p, queue, explored, c);
    assert (queue + [c])[..|frontier|] == queue[..|frontier|];
    CoverAppend(node, explored, queue, j);
  }

  /** Appending the j-th child covers the j-th move. */
  lemma CoverAppend(node: Node, explored: set<State>, queue: seq<Node>, j: nat)
    requires IsBoard(node.state) && j < |Expand(node)|
    requires Covers(node.state, Actions(node.state)[..j], explored + StateSet(queue))
    ensures Covers(node.state, Actions(node.state)[..j + 1], explored + StateSet(queue + [Expand(node)[j]]))
  {
    var c := Expand(node)[j];
    ExpandChild(node, j);
    StateSetAppend(queue, c);
    CoversStep(node.state, j, explored + StateSet(queue), explored + StateSet(queue + [c]));
  }

  /** The loop over `node.expand(problem)` in breadth-first search: each child
      whose state is neither explored nor queued is goal-tested and, when it
      is not the goal, appended to the back of the queue. The first such child
      that is the goal is returned at once. */
  method EnqueueChildren(p: Puzzle, node: Node, frontier: seq<Node>, explored: set<State>)
    returns (found: Option<Node>, queue: seq<Node>)
    requires InTree(p, node) && IsBoard(node.state)
    requires QueueOk(p, frontier, explored)
    ensures found.Some? ==> InTree(p, found.value) && GoalTest(p, found.value.state) && found.value.parent == Some(node)
    ensures found.None? ==> QueueOk(p, queue, explored)
    ensures found.None? ==> |frontier| <= |queue| && queue[..|frontier|] == frontier
    ensures found.None? ==> Covers(node.state, Actions(node.state), explored + StateSet(queue))
  {
    var children := Expand(node);
    queue := frontier;
    for j := 0 to |children|
      invariant EnqueueInv(p, node, frontier, explored, queue, j)
    {
      var child := children[j];
      if child.state !in explored && child.state !in StateSet(queue) {
        if GoalTest(p, child.state) {
          ChildInTree(p, node, j);
          return Some(child), queue;
        }
        EnqueueAppend(p, node, frontier, explored, queue, j);
        queue := queue + [child];
      } else {
        EnqueueSkip(p, node, frontier, explored, queue, j);
      }
    }
    assert Actions(node.state)[..|children|] == Actions(node.state);
    found := None;
  }

  /** `breadth_first_graph_search`: the goal is tested when a child is
      generated; the frontier is a FIFO queue and explored a set of states. It
      returns a tree node whose state is the goal, the root itself when the
      initial state is the goal, and nothing only when no sequence of moves
      leads from the initial state to the goal. */
  method BreadthFirstGraphSearch(p: Puzzle) returns (r: Option<Node>)
    requires IsBoard(p.initial)
    ensures GoalTest(p, p.initial) ==> r == Some(Root(p.initial))
    ensures r.Some? ==> InTree(p, r.value) && GoalTest(p, r.value.state)
    ensures r.Some? ==> Run(p.initial, Moves(Solution(r.value))) == Some(p.goal)
    ensures r.None? ==> forall acts :: Run(p.initial, acts) != Some(p.goal)
  {
    var node := Root(p.initial);
    if GoalTest(p, node.state) {
      TreeSolution(p, node);
      return Some(node);
    }
    var frontier := [node];
    var explored: set<State> := {};
    StateSetMembers(frontier);
    assert frontier[0].state == p.initial;
    ghost var universe := FiniteUniverse(p.initial);
    while frontier != []
      invariant QueueOk(p, frontier, explored)
      invariant explored <= universe
      invariant forall t :: t in explored ==> IsBoard(t) && !GoalTest(p, t)
      invariant p.initial in explored + StateSet(frontier)
      invariant MovesInto(explored, explored + StateSet(frontier))
      decreases |universe - explored|
    {
      node := frontier[0];
      StateSetPop(frontier);
      QueuePop(p, frontier, explored);
      frontier := frontier[1..];
      TreeNodeState(p, node);
      FewerLeft(universe, explored, node.state);
      ghost var done := explored;
      explored := explored + {node.state};
      ghost var before := frontier;
      var found;
      found, frontier := EnqueueChildren(p, node, frontier, explored);
      if found.Some? {
        TreeSolution(p, found.value);
        return found;
      }
      StateSetPrefix(before, frontier);
      MovesIntoGrow(done, explored + StateSet(before), explored + StateSet(frontier));
      MovesIntoExpanded(done, node.state, explored + StateSet(frontier));
    }
    forall acts
      ensures Run(p.initial, acts) != Some(p.goal)
    {
      ClosedRegionKeepsRuns(explored, p.initial, acts);
    }
    return None;
  }
}
