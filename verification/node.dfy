/** Search-tree nodes: a state, the node it was generated from, the move that
    generated it, the path cost g and the depth. Nodes are values here; two
    nodes with the same state are "equal" to the searches, which therefore
    always compare `.state` explicitly. */
module Nodes {
  import opened Wrappers
  import opened Board
  import opened Problem

  datatype Node = Node(state: State, parent: Option<Node>, action: Option<Action>, pathCost: int, depth: nat)

  /** `Node.__init__`: the depth is one more than the parent's, or 0 without one. */
  function NewNode(state: State, parent: Option<Node>, action: Option<Action>, pathCost: int): (n: Node)
    ensures n.state == state && n.parent == parent && n.action == action && n.pathCost == pathCost
    ensures parent.None? <==> n.depth == 0
    ensures parent.Some? ==> n.depth == parent.value.depth + 1
  {
    Node(state, parent, action, pathCost, if parent.Some? then parent.value.depth + 1 else 0)
  }

  /** The node every search starts from. */
  function Root(initial: State): Node {
    NewNode(initial, None, None, 0)
  }

  /** `child_node`: apply the move, link back to n, and charge one step. */
  function ChildNode(n: Node, a: Action): (c: Node)
    requires IsBoard(n.state) && a in Actions(n.state)
    ensures c.parent == Some(n) && c.action == Some(a) && c.state == Result(n.state, a) && IsBoard(c.state)
    ensures c.depth == n.depth + 1 && c.pathCost == n.pathCost + 1
  {
    NewNode(Result(n.state, a), Some(n), Some(a), PathCost(n.pathCost))
  }

  /** `expand`: one child per move of `actions`, in that order. */
  function Expand(n: Node): (children: seq<Node>)
    requires IsBoard(n.state)
    ensures |children| == |Actions(n.state)| >= 2
    ensures forall i :: 0 <= i < |children| ==> IsBoard(children[i].state)
  {
    ActionCount(n.state);
    var acts := Actions(n.state);
    seq(|acts|, i requires 0 <= i < |acts| => ChildNode(n, acts[i]))
  }

  /** The i-th child of n is n's node for the i-th move: it links back to n,
      records the move, holds the move's result and lies one level deeper. */
  lemma ExpandChild(n: Node, i: nat)
    requires IsBoard(n.state) && i < |Expand(n)|
    ensures var c, a := Expand(n)[i], Actions(n.state)[i];
      c.parent == Some(n) && c.action == Some(a) && c.state == Result(n.state, a) &&
      c.depth == n.depth + 1 && c.pathCost == n.pathCost + 1
  {
  }

  /** Reference definition of `path`: the nodes from the root down to n. */
  function PathOf(n: Node): (path: seq<Node>)
    ensures |path| >= 1 && path[|path| - 1] == n && path[0].parent.None?
    decreases n
  {
    match n.parent
    case None => [n]
    case Some(q) => PathOf(q) + [n]
  }

  /** Python's `reversed`. */
  function Reversed(xs: seq<Node>): (r: seq<Node>)
    ensures |r| == |xs|
    ensures forall i :: 0 <= i < |r| ==> r[i] == xs[|xs| - 1 - i]
  {
    if xs == [] then [] else [xs[|xs| - 1]] + Reversed(xs[..|xs| - 1])
  }

  /** What is left to walk from an optional node: its path, or nothing. */
  function PathFrom(node: Option<Node>): seq<Node> {
    match node
    case None => []
    case Some(m) => PathOf(m)
  }

  /** Stepping from m to its parent moves m from the walk to the back list. */
  lemma PathStep(m: Node, pathBack: seq<Node>)
    ensures PathFrom(m.parent) + Reversed(pathBack + [m]) == PathOf(m) + Reversed(pathBack)
  {
    assert (pathBack + [m])[..|pathBack|] == pathBack;
  }

  /** `path`: follow the parent links up to the root, then reverse. */
  method Path(n: Node) returns (path: seq<Node>)
    ensures path == PathOf(n)
  {
    var node: Option<Node> := Some(n);
    var pathBack: seq<Node> := [];
    while node.Some?
      invariant PathFrom(node) + Reversed(pathBack) == PathOf(n)
      decreases |PathFrom(node)|
    {
      var m := node.value;
      PathStep(m, pathBack);
      pathBack := pathBack + [m];
      node := m.parent;
    }
    path := Reversed(pathBack);
  }

  /** `solution`: the actions of the path's nodes after the root. */
  function Solution(n: Node): (sol: seq<Option<Action>>)
    ensures sol == [] <==> n.parent.None?
  {
    var path := PathOf(n);
    seq(|path| - 1, i requires 0 <= i < |path| - 1 => path[i + 1].action)
  }

  /** The moves of a solution, dropping the root's missing action. */
  function Moves(sol: seq<Option<Action>>): (acts: seq<Action>)
    ensures |acts| <= |sol|
    ensures (forall i :: 0 <= i < |sol| ==> sol[i].Some?) ==>
      |acts| == |sol| && forall i :: 0 <= i < |sol| ==> acts[i] == sol[i].value
  {
    if sol == [] then []
    else
      var last := sol[|sol| - 1];
      Moves(sol[..|sol| - 1]) + (if last.Some? then [last.value] else [])
  }

  /** The nodes `expand` and the searches build: the root of p, or a child node
      of a node that is itself in the tree. */
  ghost predicate InTree(p: Puzzle, n: Node)
    decreases n
  {
    match n.parent
    case None => n == Root(p.initial)
    case Some(q) =>
      InTree(p, q) && IsBoard(q.state) && n.action.Some? && n.action.value in Actions(q.state) &&
      n == ChildNode(q, n.action.value)
  }

  /** Every child `expand` returns for a tree node is a tree node. */
  lemma ExpandInTree(p: Puzzle, n: Node)
    requires InTree(p, n) && IsBoard(n.state)
    ensures forall c :: c in Expand(n) ==> InTree(p, c)
  {
    var children := Expand(n);
    forall c | c in children
      ensures InTree(p, c)
    {
      var i :| 0 <= i < |children| && children[i] == c;
      ExpandChild(n, i);
    }
  }

  /** Every child of a tree node is a tree node. */
  lemma ChildInTree(p: Puzzle, node: Node, j: nat)
    requires InTree(p, node) && IsBoard(node.state) && j < |Expand(node)|
    ensures InTree(p, Expand(node)[j]) && Expand(node)[j].parent == Some(node)
  {
    ExpandChild(node, j);
    ExpandInTree(p, node);
    assert Expand(node)[j] in Expand(node);
  }

  /** A tree node's state is a board with the initial state's labels, and with
      the unit step cost its g is its depth. */
  lemma {:induction false} TreeNodeState(p: Puzzle, n: Node)
    requires IsBoard(p.initial) && InTree(p, n)
    ensures IsBoard(n.state) && multiset(n.state) == multiset(p.initial)
    ensures n.pathCost == n.depth
    decreases n
  {
    match n.parent
    case None =>
    case Some(q) =>
      TreeNodeState(p, q);
      MoveSwapsBlank(q.state, n.action.value);
  }

  /** `path` of a tree node has depth + 1 nodes, from the root of p to n. */
  lemma {:induction false} TreePath(p: Puzzle, n: Node)
    requires InTree(p, n)
    ensures |PathOf(n)| == n.depth + 1 && PathOf(n)[0] == Root(p.initial)
    decreases n
  {
    match n.parent
    case None =>
    case Some(q) => TreePath(p, q);
  }

  /** A child's solution is its parent's followed by the child's move. */
  lemma SolutionOfChild(c: Node)
    requires c.parent.Some?
    ensures Solution(c) == Solution(c.parent.value) + [c.action]
  {
    var q := c.parent.value;
    assert PathOf(c) == PathOf(q) + [c];
    var sol, before := Solution(c), Solution(q);
    assert |sol| == |before| + 1;
    forall i | 0 <= i < |before|
      ensures sol[i] == before[i]
    {
      assert PathOf(c)[i + 1] == PathOf(q)[i + 1];
    }
    assert sol == before + [c.action];
  }

  /** Replaying one more move after a replay that succeeded. */
  lemma {:induction false} RunSnoc(s: State, acts: seq<Action>, a: Action)
    requires IsBoard(s)
    ensures Run(s, acts + [a]) ==
      match Run(s, acts)
      case None => None
      case Some(t) => if a in Actions(t) then Some(Result(t, a)) else None
    decreases |acts|
  {
    if acts == [] {
      assert [] + [a] == [a];
    } else {
      assert (acts + [a])[0] == acts[0] && (acts + [a])[1..] == acts[1..] + [a];
      if acts[0] in Actions(s) {
        RunSnoc(Result(s, acts[0]), acts[1..], a);
      }
    }
  }

  /** `solution` of a tree node lists depth moves, every one present, and
      replaying them from the initial state through `result` reaches the node's
      state. */
  lemma {:induction false} TreeSolution(p: Puzzle, n: Node)
    requires IsBoard(p.initial) && InTree(p, n)
    ensures |Solution(n)| == n.depth && forall i :: 0 <= i < |Solution(n)| ==> Solution(n)[i].Some?
    ensures |Moves(Solution(n))| == n.depth
    ensures Run(p.initial, Moves(Solution(n))) == Some(n.state)
    decreases n
  {
    match n.parent
    case None =>
      assert Solution(n) == [];
    case Some(q) =>
      TreeSolution(p, q);
      TreeNodeState(p, q);
      var a := n.action.value;
      var before := Solution(q);
      SolutionOfChild(n);
      assert (before + [n.action])[..|before|] == before;
      assert Moves(Solution(n)) == Moves(before) + [a];
      RunSnoc(p.initial, Moves(before), a);
  }
}
