/** `check_solvability`: the inversion-parity test, and why it is the right
    test: no move changes the parity. */
module Solvability {
  import opened Wrappers
  import opened Board

  /** 1 when x and y are both tiles and x is the larger: the pair (x, y) is an
      inversion when x comes first. */
  function Beats(x: int, y: int): nat {
    if x > y && x != 0 && y != 0 then 1 else 0
  }

  /** The inversions x makes with the labels of t, which all come after it. */
  function RowInversions(x: int, t: seq<int>): (r: nat)
    ensures r <= |t|
  {
    if t == [] then 0 else Beats(x, t[0]) + RowInversions(x, t[1..])
  }

  /** The number of pairs i < j of n slots. */
  function Pairs(n: nat): nat {
    if n == 0 then 0 else n - 1 + Pairs(n - 1)
  }

  /** The number of pairs i < j with s[i] > s[j], neither label the blank:
      at most one per pair of slots. */
  function Inversions(s: seq<int>): (r: nat)
    ensures r <= Pairs(|s|)
  {
    if s == [] then 0 else RowInversions(s[0], s[1..]) + Inversions(s[1..])
  }

  /** The parity test the program applies. */
  predicate Solvable(s: seq<int>) {
    Inversions(s) % 2 == 0
  }

  /** `check_solvability`: count the inversions with two nested loops and test
      the count for evenness. */
  method CheckSolvability(state: State) returns (solvable: bool)
    ensures solvable <==> Inversions(state) % 2 == 0
  {
    var inversion := 0;
    for i := 0 to |state|
      invariant inversion + Inversions(state[i..]) == Inversions(state)
    {
      ghost var before := inversion;
      for j := i + 1 to |state|
        invariant inversion + RowInversions(state[i], state[j..]) == before + RowInversions(state[i], state[i + 1..])
      {
        assert state[j..] == [state[j]] + state[j + 1..];
        if state[i] > state[j] && state[i] != 0 && state[j] != 0 {
          inversion := inversion + 1;
        }
      }
      assert state[i..][1..] == state[i + 1..];
    }
    solvable := inversion % 2 == 0;
  }

  /** Swapping two neighbouring labels does not change the inversions a label
      in front of both makes. */
  lemma {:induction false} RowInversionsSwap(x: int, t: seq<int>, k: nat)
    requires k + 1 < |t|
    ensures RowInversions(x, Swap(t, k, k + 1)) == RowInversions(x, t)
  {
    var t' := Swap(t, k, k + 1);
    if k == 0 {
      assert t[1..][1..] == t'[1..][1..];
    } else {
      assert t'[1..] == Swap(t[1..], k - 1, k);
      RowInversionsSwap(x, t[1..], k - 1);
    }
  }

  /** Swapping the neighbours at k and k + 1 changes the inversion count only
      through that one pair. */
  lemma {:induction false} AdjacentSwapInversions(s: seq<int>, k: nat)
    requires k + 1 < |s|
    ensures Inversions(Swap(s, k, k + 1)) + Beats(s[k], s[k + 1]) == Inversions(s) + Beats(s[k + 1], s[k])
  {
    var s' := Swap(s, k, k + 1);
    if k == 0 {
      var r := s[2..];
      assert s[1..] == [s[1]] + r && s'[1..] == [s[0]] + r;
      assert s[1..][1..] == r && s'[1..][1..] == r;
    } else {
      assert s'[1..] == Swap(s[1..], k - 1, k);
      RowInversionsSwap(s[0], s[1..], k - 1);
      AdjacentSwapInversions(s[1..], k - 1);
    }
  }

  /** Two distinct tiles form an inversion in exactly one of their two orders. */
  lemma BeatsOneWay(u: int, v: int)
    requires u != v && u != 0 && v != 0
    ensures Beats(u, v) + Beats(v, u) == 1
  {
  }

  /** Numbers an even distance apart have the same parity. */
  lemma EvenDifference(p: int, q: int, m: int)
    requires p == q + 2 * m
    ensures p % 2 == q % 2
  {
  }

  /** Swapping the labels three slots apart, done as five neighbour swaps
      ([a x y t] to [x a y t], [x y a t], [x y t a], [x t y a], [t x y a]):
      the inversion count changes only through the five pairs swapped. */
  lemma FarSwapInversions(s: seq<int>, k: nat)
    requires k + 3 < |s|
    ensures var a, x, y, t := s[k], s[k + 1], s[k + 2], s[k + 3];
      Inversions(Swap(s, k, k + 3)) + Beats(a, x) + Beats(a, y) + Beats(a, t) + Beats(y, t) + Beats(x, t) ==
      Inversions(s) + Beats(x, a) + Beats(y, a) + Beats(t, a) + Beats(t, y) + Beats(t, x)
  {
    var s1 := Swap(s, k, k + 1);
    var s2 := Swap(s1, k + 1, k + 2);
    var s3 := Swap(s2, k + 2, k + 3);
    var s4 := Swap(s3, k + 1, k + 2);
    var s5 := Swap(s4, k, k + 1);
    AdjacentSwapInversions(s, k);
    AdjacentSwapInversions(s1, k + 1);
    AdjacentSwapInversions(s2, k + 2);
    AdjacentSwapInversions(s3, k + 1);
    AdjacentSwapInversions(s4, k);
    assert s5 == Swap(s, k, k + 3);
  }

  /** Swapping a blank with the label three slots away (a vertical move) moves
      one tile past two others, so the inversion count changes by -2, 0 or 2. */
  lemma FarSwapParity(s: seq<int>, k: nat)
    requires k + 3 < |s|
    requires s[k] == 0 || s[k + 3] == 0
    requires forall i, j :: k <= i < j <= k + 3 ==> s[i] != s[j]
    ensures Inversions(Swap(s, k, k + 3)) % 2 == Inversions(s) % 2
  {
    var a, x, y, t := s[k], s[k + 1], s[k + 2], s[k + 3];
    FarSwapInversions(s, k);
    if a == 0 {
      BeatsOneWay(y, t);
      BeatsOneWay(x, t);
      EvenDifference(Inversions(Swap(s, k, k + 3)), Inversions(s), Beats(t, y) + Beats(t, x) - 1);
    } else {
      BeatsOneWay(a, x);
      BeatsOneWay(a, y);
      EvenDifference(Inversions(Swap(s, k, k + 3)), Inversions(s), 1 - Beats(a, x) - Beats(a, y));
    }
  }

  /** A horizontal move slides the blank past one tile: the order of the tiles,
      and so the inversion count, is unchanged. */
  lemma SideSwapInversions(s: seq<int>, b: nat, n: nat)
    requires b < |s| && n < |s| && s[b] == 0
    requires n == b + 1 || b == n + 1
    ensures Inversions(Swap(s, b, n)) == Inversions(s)
  {
    if n == b + 1 {
      AdjacentSwapInversions(s, b);
    } else {
      assert Swap(s, b, n) == Swap(s, n, b);
      AdjacentSwapInversions(s, n);
    }
  }

  /** A vertical move keeps the parity of the inversion count. */
  lemma UpDownSwapParity(s: seq<int>, b: nat, n: nat)
    requires b < |s| && n < |s| && s[b] == 0
    requires n == b + 3 || b == n + 3
    requires forall i, j :: 0 <= i < j < |s| ==> s[i] != s[j]
    ensures Inversions(Swap(s, b, n)) % 2 == Inversions(s) % 2
  {
    if n == b + 3 {
      FarSwapParity(s, b);
    } else {
      assert Swap(s, b, n) == Swap(s, n, b);
      FarSwapParity(s, n);
    }
  }

  /** On a board whose labels are all different, a move keeps the parity of
      the inversion count. */
  lemma MoveParity(s: State, a: Action)
    requires IsBoard(s) && a in Actions(s)
    requires forall i, j :: 0 <= i < j < |s| ==> s[i] != s[j]
    ensures Inversions(Result(s, a)) % 2 == Inversions(s) % 2
  {
    var b := FindBlank(s);
    var n := b + Delta(a);
    ResultIsSwap(s, a);
    if a == L || a == R {
      SideSwapInversions(s, b, n);
    } else {
      UpDownSwapParity(s, b, n);
    }
  }

  /** A move never changes whether a permutation passes the parity test. */
  lemma MovePreservesSolvability(s: State, a: Action)
    requires IsPermutation(s)
    requires IsBoard(s) && a in Actions(s)
    ensures Solvable(Result(s, a)) <==> Solvable(s)
  {
    forall i, j | 0 <= i < j < |s|
      ensures s[i] != s[j]
    {
      PermutationDistinct(s, i, j);
    }
    MoveParity(s, a);
  }

  /** A label beats none of the labels after it when each tile among them is larger. */
  lemma {:induction false} NoRowInversions(x: int, t: seq<int>)
    requires forall j :: 0 <= j < |t| && x != 0 && t[j] != 0 ==> x < t[j]
    ensures RowInversions(x, t) == 0
  {
    if t != [] {
      NoRowInversions(x, t[1..]);
    }
  }

  /** Tiles in increasing order, wherever the blank sits, make no inversions. */
  lemma {:induction false} AscendingNoInversions(s: seq<int>)
    requires forall i, j :: 0 <= i < j < |s| && s[i] != 0 && s[j] != 0 ==> s[i] < s[j]
    ensures Inversions(s) == 0
  {
    if s != [] {
      NoRowInversions(s[0], s[1..]);
      AscendingNoInversions(s[1..]);
    }
  }

  /** The default goal has no inversions, so it passes the test. */
  lemma GoalSolvable()
    ensures Inversions(DefaultGoal) == 0
  {
    AscendingNoInversions(DefaultGoal);
  }

  /** Replaying moves from a permutation keeps the parity, so a board that
      fails the test can never reach the default goal. */
  lemma {:induction false} RunPreservesSolvability(s: State, acts: seq<Action>)
    requires IsPermutation(s)
    ensures IsBoard(s)
    ensures Run(s, acts).Some? ==> IsPermutation(Run(s, acts).value) && (Solvable(Run(s, acts).value) <==> Solvable(s))
    decreases |acts|
  {
    PermutationIsBoard(s);
    if acts != [] && acts[0] in Actions(s) {
      ResultPermutation(s, acts[0]);
      MovePreservesSolvability(s, acts[0]);
      RunPreservesSolvability(Result(s, acts[0]), acts[1..]);
    }
  }

  /** The pre-check is sound: a permutation failing the parity test has no
      sequence of moves to the default goal. */
  lemma UnsolvableHasNoSolution(s: State, acts: seq<Action>)
    requires IsPermutation(s) && !Solvable(s)
    ensures IsBoard(s) && Run(s, acts) != Some(DefaultGoal)
  {
    RunPreservesSolvability(s, acts);
    GoalSolvable();
  }
}
