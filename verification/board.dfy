/** The Option type used for the optional parent and action of a node and for
    the "node or nothing" results of the searches. */
module Wrappers {
  datatype Option<+T> = None | Some(value: T)
}

/** The 3x3 sliding-tile board: states, the four moves, and applying a move. */
module Board {
  import Wrappers

  /** A state lists the nine slots in row-major order; 0 stands for the blank. */
  type State = seq<int>

  /** The four move labels. Each names the direction a tile slides into the
      blank, so the blank itself moves the other way (see Delta). */
  datatype Action = D | U | R | L

  /** The goal every puzzle class of the program is constructed with. */
  const DefaultGoal: State := [1, 2, 3, 4, 5, 6, 7, 8, 0]

  /** What the move functions need of a state: nine slots, one of them blank. */
  predicate IsBoard(s: State) {
    |s| == 9 && 0 in s
  }

  /** A state that holds each of the labels 0..8 exactly once. */
  predicate IsPermutation(s: State) {
    multiset(s) == multiset(DefaultGoal)
  }

  /** The index of the first blank (Python's `state.index(0)`). */
  function FindBlank(s: State): (b: nat)
    requires 0 in s
    ensures b < |s| && s[b] == 0
    ensures forall j :: 0 <= j < b ==> s[j] != 0
  {
    if s[0] == 0 then 0 else 1 + FindBlank(s[1..])
  }

  /** How far the blank travels in the row-major order for each move. */
  function Delta(a: Action): int {
    match a
    case D => -3
    case U => 3
    case R => -1
    case L => 1
  }

  /** The move the blank undoes a move with. */
  function Opposite(a: Action): Action {
    match a
    case D => U
    case U => D
    case R => L
    case L => R
  }

  /** A move from blank slot b is legal unless the blank's column or row rules
      it out: R in the left column, L in the right column, D in the top row,
      U in the bottom row. */
  predicate OnGrid(b: int, a: Action) {
    0 <= b < 9 &&
    match a
    case D => b >= 3
    case U => b <= 5
    case R => b % 3 != 0
    case L => b % 3 != 2
  }

  /** A legal move keeps the blank on the grid, and R and L keep it in its row. */
  lemma MoveTarget(b: int, a: Action)
    requires OnGrid(b, a)
    ensures 0 <= b + Delta(a) < 9 && b + Delta(a) != b
    ensures a == R || a == L ==> (b + Delta(a)) / 3 == b / 3
  {
  }

  /** The guards allow exactly the moves whose target slot is on the grid and,
      for R and L, in the blank's row. */
  lemma OnGridIff(b: int, a: Action)
    requires 0 <= b < 9
    ensures OnGrid(b, a) <==> 0 <= b + Delta(a) < 9 && (a == R || a == L ==> (b + Delta(a)) / 3 == b / 3)
  {
  }

  /** The legal moves from blank slot b, in the fixed order D, U, R, L. */
  function MovesFrom(b: int): seq<Action> {
    (if OnGrid(b, D) then [D] else []) + (if OnGrid(b, U) then [U] else []) +
    (if OnGrid(b, R) then [R] else []) + (if OnGrid(b, L) then [L] else [])
  }

  /** The legal moves of each of the nine blank slots, written out. */
  lemma MovesFromSlot(b: int)
    requires 0 <= b < 9
    ensures MovesFrom(b) ==
      match b
      case 0 => [U, L]
      case 1 => [U, R, L]
      case 2 => [U, R]
      case 3 => [D, U, L]
      case 4 => [D, U, R, L]
      case 5 => [D, U, R]
      case 6 => [D, L]
      case 7 => [D, R, L]
      case _ => [D, R]
  {
  }

  /** Reference definition of `actions`: the legal moves of the state's blank. */
  function Actions(s: State): (acts: seq<Action>)
    requires IsBoard(s)
    ensures |acts| <= 4
  {
    MovesFrom(FindBlank(s))
  }

  /** `actions` lists exactly the legal moves, and a legal move takes the
      blank to another slot of the grid. */
  lemma ActionsAreLegalMoves(s: State, a: Action)
    requires IsBoard(s)
    ensures a in Actions(s) <==> OnGrid(FindBlank(s), a)
    ensures a in Actions(s) ==> 0 <= FindBlank(s) + Delta(a) < 9 && FindBlank(s) + Delta(a) != FindBlank(s)
  {
    if OnGrid(FindBlank(s), a) {
      MoveTarget(FindBlank(s), a);
    }
  }

  /** `actions` lists each move at most once. */
  lemma ActionsListedOnce(s: State)
    requires IsBoard(s)
    ensures forall i, j :: 0 <= i < j < |Actions(s)| ==> Actions(s)[i] != Actions(s)[j]
  {
    MovesFromSlot(FindBlank(s));
  }

  /** Python's `list.remove`: drop the first occurrence of x. */
  function RemoveFirst(xs: seq<Action>, x: Action): (r: seq<Action>)
    requires x in xs
    ensures |r| == |xs| - 1
  {
    if xs[0] == x then xs[1..] else [xs[0]] + RemoveFirst(xs[1..], x)
  }

  /** RemoveFirst drops exactly the first occurrence of x and keeps the rest in order. */
  lemma {:induction false} RemoveFirstDropsFirst(xs: seq<Action>, x: Action)
    requires x in xs
    ensures exists k :: 0 <= k < |xs| && xs[k] == x && x !in xs[..k] && RemoveFirst(xs, x) == xs[..k] + xs[k + 1..]
  {
    if xs[0] == x {
      assert xs[0] == x && x !in xs[..0] && RemoveFirst(xs, x) == xs[..0] + xs[1..];
    } else {
      RemoveFirstDropsFirst(xs[1..], x);
      var k :| 0 <= k < |xs[1..]| && xs[1..][k] == x && x !in xs[1..][..k]
        && RemoveFirst(xs[1..], x) == xs[1..][..k] + xs[1..][k + 1..];
      DropShifted(xs, x, k);
    }
  }

  /** The inductive step of RemoveFirstDropsFirst: a first occurrence at k in
      the tail is a first occurrence at k + 1 in the whole list. */
  lemma DropShifted(xs: seq<Action>, x: Action, k: nat)
    requires |xs| > 0 && xs[0] != x && k < |xs| - 1
    requires xs[1..][k] == x && x !in xs[1..][..k]
    requires RemoveFirst(xs[1..], x) == xs[1..][..k] + xs[1..][k + 1..]
    ensures xs[k + 1] == x && x !in xs[..k + 1] && RemoveFirst(xs, x) == xs[..k + 1] + xs[k + 2..]
  {
    assert xs[..k + 1] == [xs[0]] + xs[1..][..k];
    assert xs[k + 2..] == xs[1..][k + 1..];
    calc {
      RemoveFirst(xs, x);
      [xs[0]] + RemoveFirst(xs[1..], x);
      [xs[0]] + (xs[1..][..k] + xs[1..][k + 1..]);
      ([xs[0]] + xs[1..][..k]) + xs[1..][k + 1..];
    }
  }

  /** The first removal `actions` can perform, evaluated. */
  lemma FirstRemovals()
    ensures RemoveFirst([D, U, R, L], R) == [D, U, L]
    ensures RemoveFirst([D, U, R, L], D) == [U, R, L]
    ensures RemoveFirst([D, U, R, L], L) == [D, U, R]
    ensures RemoveFirst([D, U, R, L], U) == [D, R, L]
  {
    assert RemoveFirst([L], L) == [];
    assert RemoveFirst([R, L], L) == [R];
  }

  /** The second removal `actions` can perform, evaluated. */
  lemma SecondRemovals()
    ensures RemoveFirst([D, U, L], D) == [U, L]
    ensures RemoveFirst([D, U, L], U) == [D, L]
    ensures RemoveFirst([U, R, L], L) == [U, R]
    ensures RemoveFirst([D, U, R], U) == [D, R]
  {
    assert RemoveFirst([L], L) == [];
    assert RemoveFirst([R, L], L) == [R];
  }

  /** `actions` as the program computes it: start from all four moves and
      remove the ones the blank's row or column rules out. */
  method ActionsOf(s: State) returns (possible: seq<Action>)
    requires IsBoard(s)
    ensures possible == Actions(s)
  {
    possible := [D, U, R, L];
    var b := FindBlank(s);
    FirstRemovals();
    SecondRemovals();
    assert b == 0 || b == 1 || b == 2 || b == 3 || b == 4 || b == 5 || b == 6 || b == 7 || b == 8;
    if b % 3 == 0 {
      possible := RemoveFirst(possible, R);
    }
    if b < 3 {
      possible := RemoveFirst(possible, D);
    }
    if b % 3 == 2 {
      possible := RemoveFirst(possible, L);
    }
    if b > 5 {
      possible := RemoveFirst(possible, U);
    }
    MovesFromSlot(b);
  }

  /** Exchange the contents of slots i and j. */
  function Swap(s: State, i: nat, j: nat): (r: State)
    requires i < |s| && j < |s|
    ensures |r| == |s| && r[i] == s[j] && r[j] == s[i]
    ensures forall k :: 0 <= k < |s| && k != i && k != j ==> r[k] == s[k]
  {
    s[i := s[j]][j := s[i]]
  }

  /** A swap keeps the labels. */
  lemma SwapKeepsLabels(s: State, i: nat, j: nat)
    requires i < |s| && j < |s|
    ensures multiset(Swap(s, i, j)) == multiset(s)
  {
  }

  /** `result`: swap the blank with the neighbour the move names. */
  function Result(s: State, a: Action): (r: State)
    requires IsBoard(s) && a in Actions(s)
    ensures IsBoard(r)
  {
    ActionsAreLegalMoves(s, a);
    var b := FindBlank(s);
    Swap(s, b, b + Delta(a))
  }

  /** `result` swaps the blank's slot with the slot the move names. */
  lemma ResultIsSwap(s: State, a: Action)
    requires IsBoard(s) && a in Actions(s)
    ensures var b := FindBlank(s);
      0 <= b + Delta(a) < 9 && Result(s, a) == Swap(s, b, b + Delta(a))
  {
    ActionsAreLegalMoves(s, a);
  }

  /** A move puts the blank in the neighbour's slot and the neighbour's tile in
      the old blank slot; every other slot keeps its tile, so the labels are the
      same as before. */
  lemma MoveSwapsBlank(s: State, a: Action)
    requires IsBoard(s) && a in Actions(s)
    ensures var b, r := FindBlank(s), Result(s, a);
      OnGrid(b, a) && 0 <= b + Delta(a) < 9 && b + Delta(a) != b &&
      r[b + Delta(a)] == 0 && r[b] == s[b + Delta(a)] &&
      (forall k :: 0 <= k < 9 && k != b && k != b + Delta(a) ==> r[k] == s[k]) &&
      multiset(r) == multiset(s)
  {
    ActionsAreLegalMoves(s, a);
    SwapKeepsLabels(s, FindBlank(s), FindBlank(s) + Delta(a));
  }

  /** A label held by two slots occurs at least twice. */
  lemma TwoCopies(s: State, i: nat, j: nat)
    requires i < j < |s|
    ensures s[i] == s[j] ==> multiset(s)[s[i]] >= 2
  {
    assert s == s[..j] + [s[j]] + s[j + 1..];
    assert s[..j][i] == s[i];
  }

  /** A sequence with no repeated value holds each value at most once. */
  lemma {:induction false} DistinctOnce(t: seq<int>, v: int)
    requires forall i, j :: 0 <= i < j < |t| ==> t[i] != t[j]
    ensures multiset(t)[v] <= 1
    decreases |t|
  {
    if t != [] {
      var rest := t[1..];
      assert t == [t[0]] + rest;
      DistinctOnce(rest, v);
      if t[0] == v {
        forall k | 0 <= k < |rest|
          ensures rest[k] != v
        {
          assert rest[k] == t[k + 1];
        }
        assert v !in multiset(rest);
      }
    }
  }

  /** No two slots of the default goal hold the same label. */
  lemma GoalDistinct()
    ensures forall i, j :: 0 <= i < j < |DefaultGoal| ==> DefaultGoal[i] != DefaultGoal[j]
  {
  }

  /** Each label of the default goal occurs once. */
  lemma GoalLabelsOnce(v: int)
    ensures multiset(DefaultGoal)[v] <= 1
  {
    GoalDistinct();
    DistinctOnce(DefaultGoal, v);
  }

  /** Two slots of a permutation never hold the same label. */
  lemma PermutationDistinct(s: State, i: nat, j: nat)
    requires IsPermutation(s) && i < j < |s|
    ensures s[i] != s[j]
  {
    TwoCopies(s, i, j);
    GoalLabelsOnce(s[i]);
  }

  /** The labels of the default goal are 0..8. */
  lemma GoalLabelRange(v: int)
    requires v in multiset(DefaultGoal)
    ensures 0 <= v < 9
  {
    assert v in DefaultGoal;
  }

  /** A permutation of 0..8 is a board, and every slot holds a label in 0..8. */
  lemma PermutationIsBoard(s: State)
    requires IsPermutation(s)
    ensures IsBoard(s)
    ensures forall k :: 0 <= k < |s| ==> 0 <= s[k] < 9
  {
    assert |s| == |multiset(s)| == 9;
    assert 0 in multiset(s);
    forall k | 0 <= k < |s|
      ensures 0 <= s[k] < 9
    {
      GoalLabelRange(s[k]);
    }
  }

  /** A move keeps the board a permutation. */
  lemma ResultPermutation(s: State, a: Action)
    requires IsPermutation(s)
    ensures IsBoard(s) && a in Actions(s) ==> IsPermutation(Result(s, a))
  {
    if IsBoard(s) && a in Actions(s) {
      MoveSwapsBlank(s, a);
    }
  }

  /** How many moves each blank slot allows: two in the corners, three on the
      edges, four in the centre. So every state has at least two moves. */
  lemma ActionCount(s: State)
    requires IsBoard(s)
    ensures var b := FindBlank(s);
      |Actions(s)| == (if b == 4 then 4 else if b % 2 == 1 then 3 else 2)
    ensures |Actions(s)| >= 2
  {
    MovesFromSlot(FindBlank(s));
  }

  /** FindBlank returns the slot of a blank that has no blank before it. */
  lemma {:induction false} FindBlankAt(s: State, k: nat)
    requires k < |s| && s[k] == 0
    requires forall j :: 0 <= j < k ==> s[j] != 0
    ensures FindBlank(s) == k
  {
    if k > 0 {
      FindBlankAt(s[1..], k - 1);
    }
  }

  /** A permutation has one blank: every other slot holds a tile. */
  lemma BlankUnique(s: State)
    requires IsPermutation(s)
    ensures IsBoard(s)
    ensures forall j :: 0 <= j < 9 && j != FindBlank(s) ==> s[j] != 0
  {
    PermutationIsBoard(s);
    var b := FindBlank(s);
    forall j | 0 <= j < 9 && j != b
      ensures s[j] != 0
    {
      if j < b {
        PermutationDistinct(s, j, b);
      } else {
        PermutationDistinct(s, b, j);
      }
    }
  }

  /** On a board with a single blank, a move puts the blank in the neighbour's
      slot. */
  lemma BlankLands(s: State, a: Action)
    requires IsBoard(s) && a in Actions(s)
    requires forall j :: 0 <= j < 9 && j != FindBlank(s) ==> s[j] != 0
    ensures FindBlank(Result(s, a)) == FindBlank(s) + Delta(a)
  {
    var b := FindBlank(s);
    var n := b + Delta(a);
    var r := Result(s, a);
    ActionsAreLegalMoves(s, a);
    ResultIsSwap(s, a);
    assert r[n] == 0 && r[b] == s[n] != 0;
    forall j | 0 <= j < n
      ensures r[j] != 0
    {
      if j != b {
        assert r[j] == s[j];
      }
    }
    FindBlankAt(r, n);
  }

  /** After a move on a permutation the blank sits in the neighbour's slot. */
  lemma BlankAfterMove(s: State, a: Action)
    requires IsPermutation(s)
    requires IsBoard(s) && a in Actions(s)
    ensures IsPermutation(Result(s, a))
    ensures FindBlank(Result(s, a)) == FindBlank(s) + Delta(a)
  {
    BlankUnique(s);
    ResultPermutation(s, a);
    BlankLands(s, a);
  }

  /** Swapping the same two slots twice restores the state. */
  lemma SwapTwice(s: State, i: nat, j: nat)
    requires i < |s| && j < |s|
    ensures Swap(Swap(s, i, j), j, i) == s
  {
  }

  /** The opposite of a legal move is legal from the slot the blank moved to,
      and takes the blank back. */
  lemma OppositeOnGrid(b: int, a: Action)
    requires OnGrid(b, a)
    ensures OnGrid(b + Delta(a), Opposite(a)) && b + Delta(a) + Delta(Opposite(a)) == b
  {
  }

  /** After a move on a permutation its opposite is legal. */
  lemma OppositeLegal(s: State, a: Action)
    requires IsPermutation(s)
    requires IsBoard(s) && a in Actions(s)
    ensures Opposite(a) in Actions(Result(s, a))
  {
    ActionsAreLegalMoves(s, a);
    BlankAfterMove(s, a);
    OppositeOnGrid(FindBlank(s), a);
    ActionsAreLegalMoves(Result(s, a), Opposite(a));
  }

  /** When the blank lands in the neighbour's slot, the opposite move swaps the
      same two slots back. */
  lemma SwapBack(s: State, a: Action)
    requires IsBoard(s) && a in Actions(s)
    requires FindBlank(Result(s, a)) == FindBlank(s) + Delta(a)
    requires Opposite(a) in Actions(Result(s, a))
    ensures Result(Result(s, a), Opposite(a)) == s
  {
    var b := FindBlank(s);
    var n := b + Delta(a);
    var r := Result(s, a);
    ResultIsSwap(s, a);
    ResultIsSwap(r, Opposite(a));
    assert Delta(Opposite(a)) == -Delta(a);
    assert n + Delta(Opposite(a)) == b;
    SwapTwice(s, b, n);
  }

  /** Each move is undone by its opposite: D by U, U by D, R by L, L by R. */
  lemma UndoMove(s: State, a: Action)
    requires IsPermutation(s)
    requires IsBoard(s) && a in Actions(s)
    ensures Opposite(a) in Actions(Result(s, a))
    ensures Result(Result(s, a), Opposite(a)) == s
  {
    OppositeLegal(s, a);
    BlankAfterMove(s, a);
    SwapBack(s, a);
  }

  /** Replays a list of moves from s, or None as soon as a move is not legal
      in the state reached so far. */
  function Run(s: State, acts: seq<Action>): (r: Wrappers.Option<State>)
    requires IsBoard(s)
    ensures r.Some? ==> IsBoard(r.value)
    decreases |acts|
  {
    if acts == [] then Wrappers.Some(s)
    else if acts[0] in Actions(s) then Run(Result(s, acts[0]), acts[1..])
    else Wrappers.None
  }

  /** Replaying a legal first move, then the rest. */
  lemma RunCons(s: State, a: Action, acts: seq<Action>)
    requires IsBoard(s) && a in Actions(s)
    ensures Run(s, [a] + acts) == Run(Result(s, a), acts)
  {
    assert ([a] + acts)[0] == a && ([a] + acts)[1..] == acts;
  }
}
