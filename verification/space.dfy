/** Facts about the whole state space that the graph searches rely on: the
    states reachable from a board form a finite set, and a set of states that
    is closed under the moves holds every state a move sequence can reach. */
module StateSpace {
  import opened Wrappers
  import opened Board

  /** The labels a state holds. */
  function Labels(s: State): set<int> {
    set x | x in s
  }

  /** Every sequence of length n over vals: finite, since vals is. */
  function Boards(n: nat, vals: set<int>): set<State> {
    if n == 0 then {[]} else set x, t | x in vals && t in Boards(n - 1, vals) :: [x] + t
  }

  /** Every sequence over vals is in the universe of its length. */
  lemma {:induction false} InBoards(s: State, vals: set<int>)
    requires forall i :: 0 <= i < |s| ==> s[i] in vals
    ensures s in Boards(|s|, vals)
  {
    if s != [] {
      InBoards(s[1..], vals);
      var x, t := s[0], s[1..];
      assert x in vals && t in Boards(|s| - 1, vals);
      assert [x] + t in Boards(|s|, vals);
      assert s == [x] + t;
    }
  }

  /** A rearrangement of s lies in the universe built from s's labels. */
  lemma SameLabelsInUniverse(t: State, s: State)
    requires multiset(t) == multiset(s)
    ensures t in Boards(|s|, Labels(s))
  {
    assert |t| == |multiset(t)| == |s|;
    forall i | 0 <= i < |t|
      ensures t[i] in Labels(s)
    {
      assert t[i] in multiset(t);
    }
    InBoards(t, Labels(s));
  }

  /** The rearrangements of s lie in a finite set of states. */
  lemma FiniteUniverse(s: State) returns (universe: set<State>)
    ensures forall t :: multiset(t) == multiset(s) ==> t in universe
  {
    universe := Boards(|s|, Labels(s));
    forall t | multiset(t) == multiset(s)
      ensures t in universe
    {
      SameLabelsInUniverse(t, s);
    }
  }

  /** Each move out of a state of `done` leads into `region`. */
  ghost predicate MovesInto(done: set<State>, region: set<State>) {
    forall t, a :: t in done && IsBoard(t) && a in Actions(t) ==> Result(t, a) in region
  }

  /** In a region of boards closed under the moves, replaying any move
      sequence from a state of the region stays in the region. */
  lemma {:induction false} ClosedRegionKeepsRuns(region: set<State>, s: State, acts: seq<Action>)
    requires IsBoard(s) && s in region
    requires MovesInto(region, region)
    ensures Run(s, acts).Some? ==> Run(s, acts).value in region
    decreases |acts|
  {
    if acts != [] && acts[0] in Actions(s) {
      ClosedRegionKeepsRuns(region, Result(s, acts[0]), acts[1..]);
    }
  }

  /** Growing the target region keeps the moves inside it. */
  lemma MovesIntoGrow(done: set<State>, region: set<State>, larger: set<State>)
    requires MovesInto(done, region) && region <= larger
    ensures MovesInto(done, larger)
  {
  }

  /** Once every move out of s leads into region, s can join `done`. */
  lemma MovesIntoExpanded(done: set<State>, s: State, region: set<State>)
    requires IsBoard(s) && MovesInto(done, region)
    requires Covers(s, Actions(s), region)
    ensures MovesInto(done + {s}, region)
  {
  }

  /** The moves acts out of s all lead into region. */
  ghost predicate Covers(s: State, acts: seq<Action>, region: set<State>)
    requires IsBoard(s)
  {
    forall a :: a in acts && a in Actions(s) ==> Result(s, a) in region
  }

  /** Covering one more of s's moves, in a possibly larger region. */
  lemma CoversStep(s: State, j: nat, region: set<State>, larger: set<State>)
    requires IsBoard(s) && j < |Actions(s)|
    requires Covers(s, Actions(s)[..j], region) && region <= larger
    requires Result(s, Actions(s)[j]) in larger
    ensures Covers(s, Actions(s)[..j + 1], larger)
  {
    assert Actions(s)[..j + 1] == Actions(s)[..j] + [Actions(s)[j]];
  }

  /** Adding a fresh state to explored shrinks what is left to explore. */
  lemma FewerLeft(universe: set<State>, explored: set<State>, s: State)
    requires s in universe && s !in explored
    ensures |universe - (explored + {s})| < |universe - explored|
  {
    assert universe - (explored + {s}) == (universe - explored) - {s};
  }
}
