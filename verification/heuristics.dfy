/** The three heuristics of the puzzle classes: misplaced slots (`EightPuzzle.h`),
    the blank's distance table (`EightPuzzle2.h`) and the hand-written
    distance table (`EightPuzzle3.h`). Each is kept as the program computes it,
    quirks included. */
module Heuristics {
  import opened Board

  function Abs(x: int): nat {
    if x < 0 then -x else x
  }

  /** Grid (Manhattan) distance between two slots of the 3x3 board. */
  function GridDistance(p: int, q: int): nat {
    Abs(p / 3 - q / 3) + Abs(p % 3 - q % 3)
  }

  /** The slot a label occupies in the default goal. */
  function GoalSlot(t: int): int {
    if t == 0 then 8 else t - 1
  }

  /** GoalSlot is where the default goal keeps each label, so the tables below
      measure each label's distance from its place in that goal. */
  lemma GoalSlotCorrect(t: int)
    requires 0 <= t < 9
    ensures 0 <= GoalSlot(t) < 9 && DefaultGoal[GoalSlot(t)] == t
  {
  }

  // ---------------------------------------------------------------------------
  // h1

  /** h1: how many slots of s differ from the same slot of g. `zip` stops at the
      shorter sequence; the blank's slot is compared like any other. */
  function Misplaced(s: seq<int>, g: seq<int>): (n: nat)
    ensures n <= |s| && n <= |g|
  {
    if s == [] || g == [] then 0
    else (if s[0] != g[0] then 1 else 0) + Misplaced(s[1..], g[1..])
  }

  /** h1 is zero exactly at the goal. */
  lemma {:induction false} MisplacedZero(s: seq<int>, g: seq<int>)
    requires |s| == |g|
    ensures Misplaced(s, g) == 0 <==> s == g
  {
    if s != [] {
      MisplacedZero(s[1..], g[1..]);
      if s[0] == g[0] && s[1..] == g[1..] {
        assert s == [s[0]] + s[1..] && g == [g[0]] + g[1..];
      }
    }
  }

  /** Two sequences that differ in exactly one slot have h1 one. */
  lemma {:induction false} MisplacedOne(s: seq<int>, g: seq<int>, i: nat)
    requires |s| == |g| && i < |s| && s[i] != g[i]
    requires forall k :: 0 <= k < |s| && k != i ==> s[k] == g[k]
    ensures Misplaced(s, g) == 1
  {
    if i == 0 {
      MisplacedZero(s[1..], g[1..]);
    } else {
      MisplacedOne(s[1..], g[1..], i - 1);
    }
  }

  /** Two sequences that differ in exactly two slots have h1 two. */
  lemma {:induction false} MisplacedTwo(s: seq<int>, g: seq<int>, i: nat, j: nat)
    requires |s| == |g| && i < j < |s| && s[i] != g[i] && s[j] != g[j]
    requires forall k :: 0 <= k < |s| && k != i && k != j ==> s[k] == g[k]
    ensures Misplaced(s, g) == 2
  {
    if i == 0 {
      MisplacedOne(s[1..], g[1..], j - 1);
    } else {
      MisplacedTwo(s[1..], g[1..], i - 1, j - 1);
    }
  }

  /** A board that becomes the default goal by swapping its blank with another
      slot has h1 two: the blank's slot and the other slot differ from the goal. */
  lemma MisplacedOneSwapFromGoal(s: State, b: nat, n: nat)
    requires |s| == 9 && b < 9 && n < 9 && b != n && s[b] == 0
    requires Swap(s, b, n) == DefaultGoal
    ensures Misplaced(s, DefaultGoal) == 2
  {
    assert DefaultGoal[n] == 0;
    assert n == 8;
    MisplacedTwo(s, DefaultGoal, b, n);
  }

  /** A board one move away from the default goal has h1 two, not one: the
      blank's slot counts as misplaced too, so h1 can exceed the true distance. */
  lemma MisplacedOneMoveFromGoal(s: State, a: Action)
    requires IsBoard(s) && a in Actions(s) && Result(s, a) == DefaultGoal
    ensures Misplaced(s, DefaultGoal) == 2
  {
    ActionsAreLegalMoves(s, a);
    ResultIsSwap(s, a);
    MisplacedOneSwapFromGoal(s, FindBlank(s), FindBlank(s) + Delta(a));
  }

  // ---------------------------------------------------------------------------
  // h2

  /** What `find_blank` in `EightPuzzle2.h` returns: the 1-based slot of the first
      blank, or the length of the state when it holds no blank. */
  function BlankSlot(s: seq<int>): nat {
    if 0 in s then FindBlank(s) + 1 else |s|
  }

  /** `find_blank`: count the slots up to and including the first blank. */
  method FindBlankSlot(state: seq<int>) returns (num: nat)
    ensures num == BlankSlot(state)
  {
    num := 0;
    var k := 0;
    while k < |state|
      invariant k <= |state| && num == k
      invariant forall j :: 0 <= j < k ==> state[j] != 0
    {
      num := num + 1;
      if state[k] == 0 {
        FindBlankAt(state, k);
        return;
      }
      k := k + 1;
    }
  }

  /** The hand-written table of `EightPuzzle2.h`, indexed by the blank's 1-based slot. */
  function BlankTable(num: int): nat {
    if num == 8 || num == 6 then 1
    else if num == 3 || num == 5 || num == 7 then 2
    else if num == 2 || num == 4 then 3
    else if num == 1 then 4
    else 0
  }

  /** h2: only the blank's slot matters; the eight tiles are ignored. */
  function BlankDistance(s: seq<int>): (v: nat)
    ensures v <= 4
  {
    BlankTable(BlankSlot(s))
  }

  /** The table is the grid distance from the 1-based slot to slot 9, where the
      default goal keeps its blank. */
  lemma BlankTableIsGridDistance(num: int)
    requires 1 <= num <= 9
    ensures BlankTable(num) == GridDistance(num - 1, 8)
  {
  }

  /** h2 lies in 0..4 and is zero exactly when the blank is in the last slot. */
  lemma BlankDistanceRange(s: State)
    requires IsBoard(s)
    ensures BlankDistance(s) <= 4
    ensures BlankDistance(s) == 0 <==> FindBlank(s) == 8
  {
    BlankTableIsGridDistance(FindBlank(s) + 1);
  }

  // ---------------------------------------------------------------------------
  // h3

  /** The table of `EightPuzzle3.h`: row i is the loop value i (a slot, since the
      loop indexes state[i]), column t the label found there. Rows 0 and 1 have
      the entries for labels 1 and 2 swapped. */
  const Table: seq<seq<nat>> := [
    [4, 1, 0, 2, 1, 2, 3, 2, 3],
    [3, 0, 1, 1, 2, 1, 2, 3, 2],
    [2, 2, 1, 0, 3, 2, 1, 4, 3],
    [3, 1, 2, 3, 0, 1, 2, 1, 2],
    [2, 2, 1, 2, 1, 0, 1, 2, 1],
    [1, 3, 2, 1, 2, 1, 0, 3, 2],
    [2, 2, 3, 4, 1, 2, 3, 0, 1],
    [1, 3, 2, 3, 2, 1, 2, 1, 0],
    [0, 4, 3, 2, 3, 2, 1, 2, 1]
  ]

  /** What one pass of the loop adds for loop value i: the table entry for
      (i, state[i]), or nothing when i or state[i] is not a label 0..8. (States
      are nine slots long, so state[i] is always in range.) */
  function Entry(s: seq<int>, i: int): (e: nat)
    ensures e <= 4
  {
    if 0 <= i < 9 && i < |s| && 0 <= s[i] < 9 then
      TableIsGridDistance(i, s[i]);
      Table[i][s[i]]
    else 0
  }

  /** The entries added for the loop values vals. */
  function SumEntries(vals: seq<int>, s: seq<int>): (t: nat)
    ensures t <= 4 * |vals|
  {
    if vals == [] then 0 else Entry(s, vals[0]) + SumEntries(vals[1..], s)
  }

  /** h3 as written: the loop runs over the labels of the state, not its slots,
      and adds at most 4, the largest grid distance, per label. */
  function TableDistance(s: seq<int>): (r: nat)
    ensures r <= 4 * |s|
  {
    SumEntries(s, s)
  }

  /** `EightPuzzle3.h`'s loop. */
  method TableDistanceLoop(state: seq<int>) returns (total: nat)
    ensures total == TableDistance(state)
  {
    total := 0;
    for k := 0 to |state|
      invariant total + SumEntries(state[k..], state) == SumEntries(state, state)
    {
      var i := state[k];
      assert state[k..] == [i] + state[k + 1..];
      if 0 <= i < 9 && i < |state| && 0 <= state[i] < 9 {
        total := total + Table[i][state[i]];
      }
    }
  }

  /** The nine slots in order. */
  const Slots: seq<int> := seq(9, p => p)

  /** Table entries of slots p..8 for the labels they hold. */
  function SlotSum(s: seq<int>, p: nat): nat
    requires |s| == 9 && p <= 9
    requires forall k :: 0 <= k < 9 ==> 0 <= s[k] < 9
    decreases 9 - p
  {
    if p == 9 then 0 else Table[p][s[p]] + SlotSum(s, p + 1)
  }

  /** Taking one value out of a sequence takes it out of its multiset. */
  lemma MultisetRemove(ws: seq<int>, k: nat)
    requires k < |ws|
    ensures multiset(ws) == multiset(ws[..k] + ws[k + 1..]) + multiset{ws[k]}
  {
    assert ws == ws[..k] + [ws[k]] + ws[k + 1..];
  }

  /** Equal multisets stay equal when the same value is taken out of both. */
  lemma MultisetCancel(m: multiset<int>, n: multiset<int>, v: int)
    requires m + multiset{v} == n + multiset{v}
    ensures m == n
  {
    forall x
      ensures m[x] == n[x]
    {
      assert (m + multiset{v})[x] == (n + multiset{v})[x];
    }
  }

  /** The total over a concatenation is the sum of the totals. */
  lemma {:induction false} SumEntriesSplit(a: seq<int>, b: seq<int>, s: seq<int>)
    ensures SumEntries(a + b, s) == SumEntries(a, s) + SumEntries(b, s)
  {
    if a == [] {
      assert a + b == b;
    } else {
      assert (a + b)[1..] == a[1..] + b;
      SumEntriesSplit(a[1..], b, s);
    }
  }

  /** Taking one value out of the visited values takes its entry out of the total. */
  lemma SumEntriesRemove(ws: seq<int>, k: nat, s: seq<int>)
    requires k < |ws|
    ensures SumEntries(ws, s) == Entry(s, ws[k]) + SumEntries(ws[..k] + ws[k + 1..], s)
  {
    assert ws == ws[..k] + ([ws[k]] + ws[k + 1..]);
    assert ([ws[k]] + ws[k + 1..])[1..] == ws[k + 1..];
    SumEntriesSplit(ws[..k], [ws[k]] + ws[k + 1..], s);
    SumEntriesSplit(ws[..k], ws[k + 1..], s);
  }

  /** The first of vals occurs somewhere in a rearrangement ws of vals, and
      what is left of both are rearrangements of each other. */
  lemma MatchFirst(vals: seq<int>, ws: seq<int>) returns (k: nat)
    requires vals != [] && multiset(vals) == multiset(ws)
    ensures k < |ws| && ws[k] == vals[0]
    ensures multiset(vals[1..]) == multiset(ws[..k] + ws[k + 1..])
  {
    var v := vals[0];
    assert v in multiset(ws);
    k :| 0 <= k < |ws| && ws[k] == v;
    MultisetRemove(ws, k);
    assert vals == [v] + vals[1..];
    MultisetCancel(multiset(vals[1..]), multiset(ws[..k] + ws[k + 1..]), v);
  }

  /** The loop's total depends only on which values it visits, not their order. */
  lemma {:induction false} SumEntriesReorder(vals: seq<int>, ws: seq<int>, s: seq<int>)
    requires multiset(vals) == multiset(ws)
    ensures SumEntries(vals, s) == SumEntries(ws, s)
    decreases |vals|
  {
    if vals != [] {
      var k := MatchFirst(vals, ws);
      SumEntriesRemove(ws, k, s);
      SumEntriesReorder(vals[1..], ws[..k] + ws[k + 1..], s);
    }
  }

  /** Visiting the slots in order adds one table entry per slot. */
  lemma {:induction false} SlotsVisitEachSlot(s: seq<int>, p: nat)
    requires |s| == 9 && p <= 9
    requires forall k :: 0 <= k < 9 ==> 0 <= s[k] < 9
    ensures SumEntries(Slots[p..], s) == SlotSum(s, p)
    decreases 9 - p
  {
    if p < 9 {
      assert Slots[p..] == [p] + Slots[p + 1..];
      SlotsVisitEachSlot(s, p + 1);
    }
  }

  /** Visiting all nine slots in order adds one table entry per slot. */
  lemma SlotsVisitAll(s: seq<int>)
    requires |s| == 9 && forall k :: 0 <= k < 9 ==> 0 <= s[k] < 9
    ensures SumEntries(Slots, s) == SlotSum(s, 0)
  {
    assert Slots[0..] == Slots;
    SlotsVisitEachSlot(s, 0);
  }

  /** Visiting the labels in goal order (1..8, then 0) adds the same entries as
      visiting the slots in order. */
  lemma GoalOrderVisitsSlots(s: seq<int>)
    ensures SumEntries(DefaultGoal, s) == SumEntries(Slots, s)
  {
    var tiles := [1, 2, 3, 4, 5, 6, 7, 8];
    assert DefaultGoal == tiles + [0] && Slots == [0] + tiles;
    SumEntriesSplit(tiles, [0], s);
    SumEntriesSplit([0], tiles, s);
  }

  /** For a permutation of 0..8 the loop over labels visits every slot exactly
      once, so h3 is the sum over the slots of the entry for the label there. */
  lemma TableDistanceBySlot(s: State)
    requires IsPermutation(s)
    ensures |s| == 9 && (forall k :: 0 <= k < 9 ==> 0 <= s[k] < 9)
    ensures TableDistance(s) == SlotSum(s, 0)
  {
    PermutationIsBoard(s);
    SumEntriesReorder(s, DefaultGoal, s);
    GoalOrderVisitsSlots(s);
    SlotsVisitAll(s);
  }

  /** The label whose goal slot an h3 entry measures to: rows 0 and 1 have
      the entries for labels 1 and 2 swapped. */
  function MeasuredLabel(p: int, t: int): int {
    if p <= 1 && (t == 1 || t == 2) then 3 - t else t
  }

  /** Rows 0..2 of the table. */
  lemma TableTopRows(p: int, t: int)
    requires 0 <= p < 3 && 0 <= t < 9
    ensures Table[p][t] == GridDistance(p, GoalSlot(MeasuredLabel(p, t)))
  {
    assert p == 0 || p == 1 || p == 2;
    assert t == 0 || t == 1 || t == 2 || t == 3 || t == 4 || t == 5 || t == 6 || t == 7 || t == 8;
  }

  /** Rows 3..5 of the table. */
  lemma TableMiddleRows(p: int, t: int)
    requires 3 <= p < 6 && 0 <= t < 9
    ensures Table[p][t] == GridDistance(p, GoalSlot(MeasuredLabel(p, t)))
  {
    assert p == 3 || p == 4 || p == 5;
    assert t == 0 || t == 1 || t == 2 || t == 3 || t == 4 || t == 5 || t == 6 || t == 7 || t == 8;
  }

  /** Rows 6..8 of the table. */
  lemma TableBottomRows(p: int, t: int)
    requires 6 <= p < 9 && 0 <= t < 9
    ensures Table[p][t] == GridDistance(p, GoalSlot(MeasuredLabel(p, t)))
  {
    assert p == 6 || p == 7 || p == 8;
    assert t == 0 || t == 1 || t == 2 || t == 3 || t == 4 || t == 5 || t == 6 || t == 7 || t == 8;
  }

  /** Every entry is the grid distance from the slot to the label's goal slot,
      except in rows 0 and 1, where labels 1 and 2 get each other's distance. */
  lemma TableIsGridDistance(p: int, t: int)
    requires 0 <= p < 9 && 0 <= t < 9
    ensures Table[p][t] == GridDistance(p, GoalSlot(if p <= 1 && (t == 1 || t == 2) then 3 - t else t))
  {
    if p < 3 {
      TableTopRows(p, t);
    } else if p < 6 {
      TableMiddleRows(p, t);
    } else {
      TableBottomRows(p, t);
    }
  }

  /** Because of the swapped entries h3 of the default goal is 2, not 0. */
  lemma TableDistanceAtGoal()
    ensures TableDistance(DefaultGoal) == 2
  {
  }
}
