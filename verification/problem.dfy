/** The puzzle as a search problem: the initial state, the goal, the goal test,
    the step cost, and the heuristic of each of the three puzzle classes. */
module Problem {
  import opened Board
  import Heuristics

  /** Which of the three puzzle classes: they share `actions`, `result`,
      `goal_test` and `check_solvability` and differ only in `h`. */
  datatype Variant =
    | Misplaced   // EightPuzzle: h1
    | BlankOnly   // EightPuzzle2: h2
    | HandTable   // EightPuzzle3: h3

  datatype Puzzle = Puzzle(initial: State, goal: State, variant: Variant)

  /** The constructors' default: every class starts from (1, ..., 8, 0) as goal. */
  function NewPuzzle(initial: State, variant: Variant): (p: Puzzle)
    ensures p.initial == initial && p.goal == DefaultGoal && p.variant == variant
  {
    Puzzle(initial, DefaultGoal, variant)
  }

  /** `goal_test`: the state equals the goal. */
  predicate GoalTest(p: Puzzle, s: State) {
    s == p.goal
  }

  /** `path_cost`: every step costs one, whatever the states and the move. */
  function PathCost(c: int): (r: int)
    ensures r > c
  {
    c + 1
  }

  /** `h` of the class the puzzle was built from. Only h1 consults the goal;
      h2 and h3 are written for the default goal. */
  function H(p: Puzzle, s: State): (v: nat)
    ensures p.variant == BlankOnly ==> v <= 4
    ensures p.variant == HandTable ==> v <= 4 * |s|
  {
    match p.variant
    case Misplaced => Heuristics.Misplaced(s, p.goal)
    case BlankOnly => Heuristics.BlankDistance(s)
    case HandTable => Heuristics.TableDistance(s)
  }

  /** On the default goal each heuristic is what its own lemma states: h1 is
      zero, h2 is zero, and h3 is two. */
  lemma HeuristicAtGoal(p: Puzzle)
    requires p.goal == DefaultGoal
    ensures H(p, p.goal) == (if p.variant == HandTable then 2 else 0)
  {
    match p.variant
    case Misplaced => Heuristics.MisplacedZero(p.goal, p.goal);
    case BlankOnly => Heuristics.BlankDistanceRange(p.goal);
    case HandTable => Heuristics.TableDistanceAtGoal();
  }
}
