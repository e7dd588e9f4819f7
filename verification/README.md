# Eight-puzzle search, modelled in Dafny

This project models the search core of `472_lab1.py`, a lab built on the AIMA
search framework and applied to the 3x3 sliding-tile puzzle (the 8-puzzle).
The model covers:

- the `Problem` defaults: `goal_test` compares with the goal, and `path_cost` charges one per step;
- search-tree nodes: `Node.__init__`, `child_node`, `expand`, `path` and `solution`;
- the searches:
  - breadth-first graph search, with the goal test applied when a child is generated;
  - best-first graph search, with the goal test applied when a node is popped (greedy best-first search is the same function);
  - depth-limited search and iterative deepening search;
  - A* search;
- the puzzle: `actions`, `result`, `goal_test` and `check_solvability`;
- the three heuristics of the puzzle classes:
  - h1 (`EightPuzzle.h`): misplaced slots;
  - h2 (`EightPuzzle2.h`): a table indexed by the blank's slot;
  - h3 (`EightPuzzle3.h`): a hand-written table summed over the state.

A state is a sequence of nine labels in row-major order, with 0 for the blank.
The four moves D, U, R and L name the direction a tile slides. The blank
therefore moves by -3, +3, -1 and +1.

Each module matches a part of the program:

| module | file | what it holds |
|---|---|---|
| `Wrappers`, `Board` | `board.dfy` | states; `actions` as a reference function and as the program's list-removal method; `result`; move sequences (`Run`); permutation facts |
| `Problem` | `problem.dfy` | the puzzle as a problem; `goal_test`, `path_cost` and the heuristic each class uses |
| `Heuristics` | `heuristics.dfy` | h1, h2 and h3 as written, with the loops of h2 and h3 as methods |
| `Solvability` | `solvability.dfy` | `check_solvability` as its nested loops, and proof that no move changes the parity |
| `Nodes` | `node.dfy` | nodes; `expand`, `path` (the parent-walk loop) and `solution`; nodes of the search tree |
| `StateSpace` | `space.dfy` | finiteness of the states a board can reach; closure under moves |
| `BreadthFirst` | `breadth_first.dfy` | `breadth_first_graph_search` |
| `BestFirst` | `best_first.dfy` | `best_first_graph_search` and `astar_search` |
| `Deepening` | `deepening.dfy` | `depth_limited_search` (`recursive_dls`) and `iterative_deepening_search` |

Where the code and its own descriptions disagree, the model follows the code:

- The h1 docstring says "number of misplaced tiles". The code also compares
  the blank's slot, so h1 is 2 on a board one move from the goal
  (`Heuristics.MisplacedOneMoveFromGoal`). It can exceed the true distance.
- h3 is described as the total Manhattan distance of the tiles. Its table
  differs from that in two ways:
  - It gives labels 1 and 2 each other's distance in rows 0 and 1.
  - It also counts the blank.
  So h3 of the goal itself is 2 (`Heuristics.TableIsGridDistance`,
  `Heuristics.TableDistanceAtGoal`).
- h3's loop runs over the labels of the state (`for i in state`), not over its
  slots. On a permutation of 0..8 this adds the same entries
  (`Heuristics.TableDistanceBySlot`).

Nodes are values: a node's parent is a node, and no node is updated after it
is made. The program compares nodes by state (`Node.__eq__`, `__hash__`), so
the searches test `.state` explicitly. Depth-limited search and iterative
deepening return an `Outcome`: `Found(node)`, `Cutoff` ('cutoff') or
`Failure` (None).

## Model

| member | source | states |
|---|---|---|
| Board.FindBlank | 472_lab1.py:261-264 | the slot returned holds the blank and no earlier slot does |
| Board.FindBlankAt | 472_lab1.py:261-264 | a blank slot with no blank before it is the one `state.index(0)` returns |
| Board.MoveTarget | 472_lab1.py:274-281 | a move the guards allow keeps the blank on the grid and moves it; R and L keep it in its row |
| Board.OnGridIff | 472_lab1.py:274-281 | the guards allow a move exactly when its target slot is on the grid and, for R and L, in the blank's row |
| Board.MovesFromSlot | 472_lab1.py:271-283 | the legal moves of each of the nine blank slots, in the order D, U, R, L |
| Board.Actions | 472_lab1.py:266-283 | `actions` lists at most the four moves |
| Board.ActionsAreLegalMoves | 472_lab1.py:271-283 | a move is listed exactly when the guards allow it from the blank's slot, and a listed move's neighbour is another slot of the grid |
| Board.ActionsListedOnce | 472_lab1.py:271-283 | no move is listed twice |
| Board.ActionCount | 472_lab1.py:271-283 | two moves from a corner, three from an edge, four from the centre; so at least two |
| Board.RemoveFirst | 472_lab1.py:275 | `list.remove` drops exactly one element |
| Board.RemoveFirstDropsFirst | 472_lab1.py:275 | `list.remove` drops the first occurrence of the value and keeps the other elements in order |
| Board.FirstRemovals | 472_lab1.py:274-281 | the lists the first removal can produce from the four moves |
| Board.SecondRemovals | 472_lab1.py:274-281 | the lists a second removal can produce |
| Board.ActionsOf | 472_lab1.py:266-283 | the list-removal steps of `actions` yield exactly the legal moves, in order |
| Board.Swap | 472_lab1.py:295 | the two slots exchange their labels and every other slot keeps its label |
| Board.SwapKeepsLabels | 472_lab1.py:291-297 | swapping keeps the multiset of labels |
| Board.SwapTwice | 472_lab1.py:295 | swapping the same slots twice restores the state |
| Board.Result | 472_lab1.py:285-297 | a move on a board gives a board |
| Board.ResultIsSwap | 472_lab1.py:285-297 | `result` swaps the blank with the slot `delta` names, and that slot lies on the grid |
| Board.MoveSwapsBlank | 472_lab1.py:285-297 | after a move the blank sits in the neighbour's slot, the neighbour's tile in the old blank slot, every other slot is unchanged, and the labels are the same |
| Board.ResultPermutation | 472_lab1.py:285-297 | a move keeps a permutation of 0..8 a permutation |
| Board.BlankLands | 472_lab1.py:285-297 | on a board with one blank, `find_blank_square` of the result is the neighbour's slot |
| Board.BlankAfterMove | 472_lab1.py:285-297 | on a permutation the result is a permutation whose blank is at the old blank slot plus `delta` |
| Board.OppositeOnGrid | 472_lab1.py:293 | the opposite of an allowed move is allowed from the new blank slot and cancels its `delta` |
| Board.OppositeLegal | 472_lab1.py:271-297 | after a move on a permutation, the opposite move is among `actions` |
| Board.SwapBack | 472_lab1.py:285-297 | when the blank lands in the neighbour's slot, the opposite move gives back the original state |
| Board.UndoMove | 472_lab1.py:285-297 | on a permutation each move is undone by its opposite (D by U, R by L) |
| Board.GoalLabelsOnce | 472_lab1.py:257 | each label occurs at most once in the default goal |
| Board.GoalLabelRange | 472_lab1.py:257 | the labels of the default goal are 0..8 |
| Board.PermutationDistinct | 472_lab1.py:253-257 | no two slots of a permutation of the goal's labels hold the same label |
| Board.PermutationIsBoard | 472_lab1.py:253-257 | a permutation of the goal's labels is a board whose labels lie in 0..8 |
| Board.BlankUnique | 472_lab1.py:253-257 | a permutation has exactly one blank |
| Board.Run | 472_lab1.py:285-297 | replaying moves through `result` from a board stays on boards |
| Board.RunCons | 472_lab1.py:285-297 | replaying a legal first move and then the rest is replaying the rest from the move's result |
| Problem.NewPuzzle | 472_lab1.py:257-259 | the constructors keep the initial state and default the goal to (1, ..., 8, 0) |
| Problem.GoalTest | 472_lab1.py:299-302 | a state is a goal exactly when it equals the goal board (the definition; its uses are stated by the searches' contracts) |
| Problem.PathCost | 472_lab1.py:53-59 | every step adds to the path cost |
| Problem.H | 472_lab1.py:315-665 | the class's heuristic; h2 never exceeds 4 and h3 never exceeds 4 per label |
| Problem.HeuristicAtGoal | 472_lab1.py:484-665 | at the default goal h1 and h2 are 0 and h3 is 2 |
| Heuristics.GoalSlotCorrect | 472_lab1.py:257 | the goal slot of each label holds that label in the default goal |
| Heuristics.Misplaced | 472_lab1.py:315-318 | h1 is at most the length of the shorter of state and goal (`zip`) |
| Heuristics.MisplacedZero | 472_lab1.py:315-318 | h1 is zero exactly when the state is the goal |
| Heuristics.MisplacedOne | 472_lab1.py:318 | states differing from the goal in one slot have h1 one |
| Heuristics.MisplacedTwo | 472_lab1.py:318 | states differing from the goal in two slots have h1 two |
| Heuristics.MisplacedOneSwapFromGoal | 472_lab1.py:315-318 | a board one blank swap from the goal has h1 two |
| Heuristics.MisplacedOneMoveFromGoal | 472_lab1.py:315-318 | a board one move from the goal has h1 two, so h1 counts the blank and overestimates |
| Heuristics.FindBlankSlot | 472_lab1.py:390-396 | `find_blank` returns the 1-based slot of the first blank, or the length when there is none |
| Heuristics.BlankDistance | 472_lab1.py:385-417 | h2 never exceeds 4, the largest grid distance on the board |
| Heuristics.BlankTableIsGridDistance | 472_lab1.py:398-417 | h2's table is the grid distance from the blank's slot to the last slot |
| Heuristics.BlankDistanceRange | 472_lab1.py:385-417 | h2 lies in 0..4 and is zero exactly when the blank is in the last slot |
| Heuristics.Entry | 472_lab1.py:493-663 | no entry of h3's table exceeds 4 |
| Heuristics.SumEntries | 472_lab1.py:490-665 | the loop's total adds at most 4 per value visited |
| Heuristics.TableDistance | 472_lab1.py:484-665 | h3 is at most 4 per label of the state |
| Heuristics.TableDistanceLoop | 472_lab1.py:490-665 | the loop of `EightPuzzle3.h` computes the sum of table entries over the labels of the state |
| Heuristics.SumEntriesSplit | 472_lab1.py:492 | the loop's total over a concatenation is the sum of the totals |
| Heuristics.SumEntriesReorder | 472_lab1.py:492 | the loop's total depends only on the multiset of values visited |
| Heuristics.SlotsVisitEachSlot | 472_lab1.py:492-665 | visiting slots p..8 in order adds the entry of each slot for the label it holds |
| Heuristics.GoalOrderVisitsSlots | 472_lab1.py:492-665 | visiting the labels in goal order adds the same as visiting the slots in order |
| Heuristics.TableDistanceBySlot | 472_lab1.py:490-665 | on a permutation h3 is the sum over slots of the entry for the label in that slot |
| Heuristics.TableTopRows | 472_lab1.py:493-549 | rows 0..2 of h3's table are grid distances to the goal slot, with labels 1 and 2 exchanged in rows 0 and 1 |
| Heuristics.TableMiddleRows | 472_lab1.py:550-606 | rows 3..5 of h3's table are grid distances to the goal slot |
| Heuristics.TableBottomRows | 472_lab1.py:607-663 | rows 6..8 of h3's table are grid distances to the goal slot |
| Heuristics.TableIsGridDistance | 472_lab1.py:493-663 | every entry of h3's table is the grid distance from the slot to the label's goal slot, except for labels 1 and 2 in rows 0 and 1 |
| Heuristics.TableDistanceAtGoal | 472_lab1.py:484-665 | h3 of the default goal is 2, not 0 |
| Solvability.RowInversions | 472_lab1.py:308-311 | a label makes at most one inversion with each label after it |
| Solvability.Inversions | 472_lab1.py:304-313 | the count has at most one inversion per pair of slots |
| Solvability.Solvable | 472_lab1.py:304-313 | the parity test (the definition; what it guarantees is stated by MovePreservesSolvability and UnsolvableHasNoSolution) |
| Solvability.CheckSolvability | 472_lab1.py:304-313 | the nested loops answer true exactly when the number of tile inversions (blank excluded) is even |
| Solvability.RowInversionsSwap | 472_lab1.py:308-311 | swapping two neighbours does not change the inversions a label in front of both makes |
| Solvability.AdjacentSwapInversions | 472_lab1.py:308-311 | swapping neighbours changes the inversion count only through that pair |
| Solvability.FarSwapInversions | 472_lab1.py:308-311 | swapping labels three slots apart changes the count only through the five pairs it reorders |
| Solvability.FarSwapParity | 472_lab1.py:304-313 | swapping the blank with the label three slots away keeps the parity |
| Solvability.SideSwapInversions | 472_lab1.py:304-313 | swapping the blank with a neighbour in its row keeps the count |
| Solvability.UpDownSwapParity | 472_lab1.py:304-313 | a vertical blank swap keeps the parity |
| Solvability.MoveParity | 472_lab1.py:285-313 | on a board with distinct labels a move keeps the parity of the inversion count |
| Solvability.MovePreservesSolvability | 472_lab1.py:285-313 | a move never changes whether a permutation passes `check_solvability` |
| Solvability.NoRowInversions | 472_lab1.py:308-311 | a label makes no inversion with later labels that are all larger tiles |
| Solvability.AscendingNoInversions | 472_lab1.py:304-313 | tiles in increasing order, wherever the blank is, make no inversions |
| Solvability.GoalSolvable | 472_lab1.py:304-313 | the default goal has no inversions |
| Solvability.RunPreservesSolvability | 472_lab1.py:285-313 | any replayed move sequence keeps a permutation a permutation with the same parity |
| Solvability.UnsolvableHasNoSolution | 472_lab1.py:304-313 | a permutation failing the test has no move sequence to the default goal |
| Nodes.NewNode | 472_lab1.py:80-88 | a node keeps its fields; its depth is 0 exactly without a parent, and otherwise one more than the parent's |
| Nodes.ChildNode | 472_lab1.py:101-105 | a child holds the result of the move on its parent's state, links to its parent and move, is one level deeper, and costs one more |
| Nodes.Expand | 472_lab1.py:96-99 | one board child per legal move, so at least two |
| Nodes.ExpandChild | 472_lab1.py:96-105 | the i-th child holds the result of the i-th move, links back, and is one level deeper at one more cost |
| Nodes.PathOf | 472_lab1.py:111-117 | a path ends with the node and starts at a root |
| Nodes.Reversed | 472_lab1.py:117 | `reversed` keeps the length and puts the i-th element from the end at position i |
| Nodes.PathStep | 472_lab1.py:113-116 | one step of the parent walk keeps the nodes still to visit and the reversed back list equal to the path |
| Nodes.Path | 472_lab1.py:111-117 | the parent-walk loop followed by `reversed` yields the path from the root to the node |
| Nodes.Solution | 472_lab1.py:107-109 | the solution is empty exactly for a root |
| Nodes.Moves | 472_lab1.py:107-109 | dropping absent actions never lengthens a solution, and when every action is present it keeps all of them in order |
| Nodes.ExpandInTree | 472_lab1.py:96-105 | every child of a search-tree node is a search-tree node |
| Nodes.ChildInTree | 472_lab1.py:96-105 | the j-th child of a search-tree node is a search-tree node whose parent is that node |
| Nodes.TreeNodeState | 472_lab1.py:101-105 | a search-tree node holds a rearrangement of the initial board, and its path cost equals its depth |
| Nodes.TreePath | 472_lab1.py:111-117 | the path of a search-tree node has depth + 1 nodes and starts at the root |
| Nodes.SolutionOfChild | 472_lab1.py:107-109 | a child's solution is its parent's followed by the child's action |
| Nodes.RunSnoc | 472_lab1.py:285-297 | replaying one more move after a replay extends it by that move's result |
| Nodes.TreeSolution | 472_lab1.py:107-117 | the solution of a search-tree node has depth actions, all present, and replaying them from the initial state reaches the node's state |
| StateSpace.FiniteUniverse | 472_lab1.py:148-151 | the rearrangements of a board form a finite set, which bounds `explored` |
| StateSpace.ClosedRegionKeepsRuns | 472_lab1.py:149-159 | a set of boards closed under moves holds every state a move sequence reaches from it |
| StateSpace.MovesIntoExpanded | 472_lab1.py:150-158 | once every move out of a state leads into the region, the state can count as expanded |
| StateSpace.FewerLeft | 472_lab1.py:151 | exploring a new state shrinks what is left to explore |
| BreadthFirst.StateSetMembers | 472_lab1.py:153 | `child not in frontier` tests the states of the queued nodes |
| BreadthFirst.StateSetPop | 472_lab1.py:150 | `popleft` on a queue without repeated states removes exactly the first state |
| BreadthFirst.QueuePop | 472_lab1.py:150-151 | popping and exploring keeps the queue's nodes unexplored, non-goal tree nodes without repeated states |
| BreadthFirst.QueueAppend | 472_lab1.py:153-158 | appending a fresh non-goal child keeps that invariant |
| BreadthFirst.EnqueueChildren | 472_lab1.py:152-158 | the child loop returns a goal child of the node, or only appends to the back of the queue, keeps the queue invariant, and puts the result of every move in `explored` or the queue |
| BreadthFirst.BreadthFirstGraphSearch | 472_lab1.py:138-159 | returns the root when it is the goal; a returned node is a goal tree node whose solution replays to the goal; None only when no move sequence reaches the goal |
| BestFirst.PopMin | 472_lab1.py:176 | `pop` removes an entry of least f |
| BestFirst.Offer | 472_lab1.py:183-189 | a fresh child is added; a queued state is replaced only by a strictly cheaper child, and always by one; nothing else changes |
| BestFirst.FrontierPop | 472_lab1.py:176-182 | removing an entry and exploring its state keeps the frontier's entries unexplored tree nodes keyed by their state |
| BestFirst.OfferKeepsFrontier | 472_lab1.py:183-189 | offering a tree node keeps that invariant |
| BestFirst.OfferChildren | 472_lab1.py:183-189 | the child loop keeps the frontier invariant, never drops a queued state or raises its f, and covers every move of the node |
| BestFirst.BestFirstGraphSearch | 472_lab1.py:162-190 | for any f (greedy best-first search, line 234, is this function): returns the root when it is the goal; a returned node is a goal tree node whose solution replays to the goal; None only when no move sequence reaches the goal |
| BestFirst.AStarSearch | 472_lab1.py:240-245 | best-first search on g + h, with the given h or the puzzle's own, has the same guarantees |
| Deepening.ChildWithin | 472_lab1.py:208-214 | a goal within limit - 1 of a child is within limit of the node |
| Deepening.ChildOfMove | 472_lab1.py:96-99 | every legal move has its child in `expand` |
| Deepening.NotThroughChild | 472_lab1.py:208-215 | when no goal is within limit - 1 of a move's result, no sequence starting with that move reaches the goal within limit |
| Deepening.NoMoveWithin | 472_lab1.py:199-215 | a non-goal state with no goal within limit - 1 after any move has no goal within limit |
| Deepening.NoChildWithin | 472_lab1.py:207-215 | when no child has a goal within limit - 1, the node has none within limit |
| Deepening.NoneWithinStep | 472_lab1.py:211-212 | a child that was cut off adds one more child without a goal within the limit |
| Deepening.RecursiveDLS | 472_lab1.py:199-215 | a goal node is returned at once, even at limit 0; otherwise limit 0 is a cutoff; never None; a goal is found exactly when one is within the limit, and it is a tree node at most limit levels below |
| Deepening.SearchChildren | 472_lab1.py:207-215 | the child loop finds a goal exactly when one is within the limit and otherwise answers cutoff, never None |
| Deepening.DepthLimitedSearch | 472_lab1.py:196-218 | `recursive_dls` from the root, with the same guarantees stated for the initial state |
| Deepening.DepthLimitedSearchDefault | 472_lab1.py:196 | with no limit given, the search finds a goal exactly when at most fifty moves reach it |
| Deepening.IterativeDeepeningSearch | 472_lab1.py:221-226 | never answers cutoff; a goal it returns is as shallow as any move sequence to the goal; None only when no sequence shorter than `sys.maxsize` reaches the goal |

## Left out

- The driver (lines 667 onward): reading the board, command-line options, timing, printing the board and the solution. It is I/O.
- The `print` calls inside the searches, and the global counter `cnt` of depth-limited search. They only report.
- `utils` is not part of this model. From it:
  - `PriorityQueue` is modelled as a map from state to node, with a pop of least f. Ties between equal f values are left unspecified, so `Node.__lt__` (tie-breaking by state) is not modelled.
  - `memoize` is treated as the plain function, since it only caches f and h on the node.
  - `is_in` and the list-of-goals branch of `Problem.goal_test` are left out; every puzzle class has a single goal tuple.
- `Problem.value`, `actions` and `result` of the abstract `Problem` raise `NotImplementedError`; only the puzzle's versions are modelled.
- `display` of best-first search and A* only prints.
- The searches require the initial state to be a board: nine slots, one of them blank. On other tuples the program raises (`state.index(0)`) or indexes outside the tuple; that behaviour is not modelled.
- `result` builds a new tuple from a private list copy. It is modelled as a function on values.
- The loop of `iterative_deepening_search` runs over `range(sys.maxsize)`, which is modelled as `MaxSize`, 2^63 - 1 (a 64-bit build).
- Deepening.IterativeDeepeningSearch: the None case is stated only for sequences shorter than `sys.maxsize`, the range the loop covers.
- BreadthFirst.BreadthFirstGraphSearch and BestFirst.AStarSearch: optimality of the returned solution is not proved. The guarantees are soundness and completeness only. h1 and h3 as written are not admissible (h1 is 2 one move from the goal and h3 is 2 at the goal), so A* with them need not return a shortest solution.
- The `main` driver's use of `check_solvability` as a pre-check before searching is driver logic. What the check guarantees is stated by Solvability.UnsolvableHasNoSolution.
- Problem.PathCost: its contract states only that a step raises the cost. The exact `c + 1` is stated where it is used, by Nodes.ChildNode and Nodes.ExpandChild.
- Board.Actions: its own contract states only the bound of four moves. Which moves it lists, and in which order, is stated by Board.ActionsAreLegalMoves, Board.MovesFromSlot and Board.ActionsOf; a quantified contract on the function itself would be carried into every proof that uses `actions`.
- Nodes.Solution: its own contract states only that it is empty exactly at a root. Its contents are stated by Nodes.SolutionOfChild and Nodes.TreeSolution.
- Heuristics.TableDistance: its own contract states only the bound of 4 per label. What it sums on a permutation is stated by Heuristics.TableDistanceBySlot and Heuristics.TableIsGridDistance.
