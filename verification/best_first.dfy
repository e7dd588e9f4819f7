/** Best-first graph search and A* search. The goal test is applied when a
    node is taken off the frontier; the frontier is a priority queue ordered
    by f that, since nodes are equal when their states are, holds at most one
    node per state; the explored set holds the states already expanded. */
module BestFirst {
  import opened Wrappers
  import opened Board
  import opened Problem
  import opened Nodes
  import opened StateSpace

  /** `PriorityQueue('min', f).pop()`: take off a node of least f. The queue
      is modelled as a map from each state to the one node holding it; which
      of several nodes of least f comes off is left open. */
  method PopMin(frontier: map<State, Node>, f: Node -> int) returns (s: State, node: Node, rest: map<State, Node>)
    requires frontier != map[]
    ensures s in frontier && node == frontier[s] && rest == frontier - {s}
    ensures forall t :: t in frontier ==> f(node) <= f(frontier[t])
  {
    var keys := frontier.Keys;
    s :| s in keys;
    node := frontier[s];
    keys := keys - {s};
    while keys != {}
      invariant keys <= frontier.Keys && s in frontier && node == frontier[s]
      invariant forall t :: t in frontier && t !in keys ==> f(node) <= f(frontier[t])
      decreases |keys|
    {
      var t :| t in keys;
      if f(frontier[t]) < f(node) {
        s, node := t, frontier[t];
      }
      keys := keys - {t};
    }
    rest := frontier - {s};
  }

  /** One child of the loop over `node.expand(problem)` in best-first search.
      A child whose state is neither explored nor queued joins the queue; a
      child whose state is queued replaces the queued node only when its f is
      strictly smaller; any other child is dropped. So the queue gains the
      child's state exactly when that state is not explored, keeps every other
      entry, and no f value in it ever rises. */
  function Offer(frontier: map<State, Node>, explored: set<State>, child: Node, f: Node -> int): (r: map<State, Node>)
    ensures r.Keys == frontier.Keys + ({child.state} - explored)
    ensures forall s :: s in frontier && s != child.state ==> r[s] == frontier[s]
    ensures child.state in r ==> r[child.state] == child || (child.state in frontier && r[child.state] == frontier[child.state])
    ensures child.state !in frontier && child.state !in explored ==> r[child.state] == child
    ensures child.state in frontier ==> f(r[child.state]) <= f(frontier[child.state])
    ensures child.state in frontier && r[child.state] != frontier[child.state] ==> f(child) < f(frontier[child.state])
    ensures child.state in frontier && f(child) < f(frontier[child.state]) ==> r[child.state] == child
  {
    if child.state !in explored && child.state !in frontier then
      frontier[child.state := child]
    else if child.state in frontier then
      if f(child) < f(frontier[child.state]) then frontier[child.state := child] else frontier
    else
      frontier
  }

  /** The best-first frontier: each entry is a tree node keyed by its own
      state, and no queued state is explored. */
  ghost predicate FrontierOk(p: Puzzle, frontier: map<State, Node>, explored: set<State>) {
    forall s :: s in frontier ==> frontier[s].state == s && InTree(p, frontier[s]) && s !in explored
  }

  /** Removing an entry and exploring its state keeps the frontier in order. */
  lemma FrontierPop(p: Puzzle, frontier: map<State, Node>, explored: set<State>, s: State)
    requires FrontierOk(p, frontier, explored)
    ensures FrontierOk(p, frontier - {s}, explored + {s})
  {
  }

  /** What the loop over the children keeps after j of them: the queue is in
      order, holds every state it held before with an f no larger, and holds
      (or explored holds) the result of each of the first j moves. */
  ghost predicate OfferInv(p: Puzzle, node: Node, frontier: map<State, Node>, explored: set<State>,
                           next: map<State, Node>, j: nat, f: Node -> int)
    requires IsBoard(node.state) && j <= |Actions(node.state)|
  {
    FrontierOk(p, next, explored) && frontier.Keys <= next.Keys &&
    (forall s :: s in frontier ==> f(next[s]) <= f(frontier[s])) &&
    Covers(node.state, Actions(node.state)[..j], explored + next.Keys)
  }

  /** Offering a tree node keeps the queue in order. */
  lemma OfferKeepsFrontier(p: Puzzle, next: map<State, Node>, explored: set<State>, child: Node, f: Node -> int)
    requires InTree(p, child) && FrontierOk(p, next, explored)
    ensures FrontierOk(p, Offer(next, explored, child, f), explored)
  {
    var r := Offer(next, explored, child, f);
    forall s | s in r
      ensures r[s].state == s && InTree(p, r[s]) && s !in explored
    {
      if s != child.state {
        assert s in next && r[s] == next[s];
      }
    }
  }

  /** Offering the j-th child covers the j-th move. */
  lemma OfferCovers(node: Node, next: map<State, Node>, explored: set<State>, j: nat, f: Node -> int)
    requires IsBoard(node.state) && j < |Expand(node)|
    requires Covers(node.state, Actions(node.state)[..j], explored + next.Keys)
    ensures Covers(node.state, Actions(node.state)[..j + 1], explored + Offer(next, explored, Expand(node)[j], f).Keys)
  {
    ExpandChild(node, j);
    var r := Offer(next, explored, Expand(node)[j], f);
    CoversStep(node.state, j, explored + next.Keys, explored + r.Keys);
  }

  /** Offering the j-th child keeps the loop's invariant. */
  lemma OfferStep(p: Puzzle, node: Node, frontier: map<State, Node>, explored: set<State>,
                  next: map<State, Node>, j: nat, f: Node -> int)
    requires InTree(p, node) && IsBoard(node.state) && j < |Expand(node)|
    requires OfferInv(p, node, frontier, explored, next, j, f)
    ensures OfferInv(p, node, frontier, explored, Offer(next, explored, Expand(node)[j], f), j + 1, f)
  {
    ChildInTree(p, node, j);
    OfferKeepsFrontier(p, next, explored, Expand(node)[j], f);
    OfferCovers(node, next, explored, j, f);
  }

  /** The loop over `node.expand(problem)` in best-first search: every child
      is offered to the queue in turn. Afterwards the queue is still in
      order, has lost no state, has no larger f for any state it held, and
      holds (or explored holds) the result of every move out of node. */
  method OfferChildren(p: Puzzle, node: Node, frontier: map<State, Node>, explored: set<State>, f: Node -> int)
    returns (next: map<State, Node>)
    requires InTree(p, node) && IsBoard(node.state)
    requires FrontierOk(p, frontier, explored)
    ensures FrontierOk(p, next, explored)
    ensures frontier.Keys <= next.Keys
    ensures forall s :: s in frontier ==> f(next[s]) <= f(frontier[s])
    ensures Covers(node.state, Actions(node.state), explored + next.Keys)
  {
    var children := Expand(node);
    next := frontier;
    for j := 0 to |children|
      invariant OfferInv(p, node, frontier, explored, next, j, f)
    {
      OfferStep(p, node, frontier, explored, next, j, f);
      next := Offer(next, explored, children[j], f);
    }
    assert Actions(node.state)[..|children|] == Actions(node.state);
  }

  /** `best_first_graph_search`: nodes come off the queue in order of f, and
      the goal is tested when a node comes off. It returns a tree node whose
      state is the goal, the root itself when the initial state is the goal,
      and nothing only when no sequence of moves leads from the initial state
      to the goal. `greedy_best_first_graph_search` is this same search. */
  method BestFirstGraphSearch(p: Puzzle, f: Node -> int) returns (r: Option<Node>)
    requires IsBoard(p.initial)
    ensures GoalTest(p, p.initial) ==> r == Some(Root(p.initial))
    ensures r.Some? ==> InTree(p, r.value) && GoalTest(p, r.value.state)
    ensures r.Some? ==> Run(p.initial, Moves(Solution(r.value))) == Some(p.goal)
    ensures r.None? ==> forall acts :: Run(p.initial, acts) != Some(p.goal)
  {
    var root := Root(p.initial);
    var frontier := map[root.state := root];
    var explored: set<State> := {};
    ghost var universe := FiniteUniverse(p.initial);
    while frontier != map[]
      invariant FrontierOk(p, frontier, explored)
      invariant explored <= universe
      invariant forall t :: t in explored ==> IsBoard(t) && !GoalTest(p, t)
      invariant p.initial in explored + frontier.Keys
      invariant MovesInto(explored, explored + frontier.Keys)
      invariant GoalTest(p, p.initial) ==> frontier == map[p.initial := root]
      decreases |universe - explored|
    {
      var s, node, rest := PopMin(frontier, f);
      if GoalTest(p, node.state) {
        TreeSolution(p, node);
        return Some(node);
      }
      TreeNodeState(p, node);
      FewerLeft(universe, explored, s);
      FrontierPop(p, frontier, explored, s);
      ghost var done, region := explored, explored + frontier.Keys;
      explored := explored + {s};
      frontier := OfferChildren(p, node, rest, explored, f);
      MovesIntoGrow(done, region, explored + frontier.Keys);
      MovesIntoExpanded(done, s, explored + frontier.Keys);
    }
    forall acts
      ensures Run(p.initial, acts) != Some(p.goal)
    {
      ClosedRegionKeepsRuns(explored, p.initial, acts);
    }
    return None;
  }

  /** `astar_search`: best-first search on f = g + h, where h is the one given
      or else the puzzle's own heuristic. */
  method AStarSearch(p: Puzzle, h: Option<Node -> int>) returns (r: Option<Node>)
    requires IsBoard(p.initial)
    ensures GoalTest(p, p.initial) ==> r == Some(Root(p.initial))
    ensures r.Some? ==> InTree(p, r.value) && GoalTest(p, r.value.state)
    ensures r.Some? ==> Run(p.initial, Moves(Solution(r.value))) == Some(p.goal)
    ensures r.None? ==> forall acts :: Run(p.initial, acts) != Some(p.goal)
  {
    var hh: Node -> int := if h.Some? then h.value else (n: Node) => H(p, n.state);
    r := BestFirstGraphSearch(p, (n: Node) => n.pathCost + hh(n));
  }
}
