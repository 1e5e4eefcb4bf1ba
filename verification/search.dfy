/** The search engine: it works only on the canonical 9-character snapshot
    ('0' empty, '1' and '2' the two players' marks). */
module Search {
  import opened Basics

  /** The two negamax colours of this revision; a colour decides which mark a
      trial move writes, never the arithmetic of the score. */
  const HumanPlayer: int := -1
  const AiPlayer: int := 1

  /** `s.find(c, from)`: the first index at or after `from` holding `c`, or
      none (std::string::npos). */
  function Find(s: string, c: char, from: nat): (r: Option<nat>)
    requires from <= |s|
    decreases |s| - from
    ensures r.Some? ==> from <= r.value < |s| && s[r.value] == c
    ensures r.Some? ==> forall j :: from <= j < r.value ==> s[j] != c
    ensures r.None? ==> forall j :: from <= j < |s| ==> s[j] != c
  {
    if from == |s| then None
    else if s[from] == c then Some(from)
    else Find(s, c, from + 1)
  }

  /** isAIBoardFull: the snapshot holds no '0'. */
  function IsFull(s: string): (r: bool)
    ensures r <==> forall i :: 0 <= i < |s| ==> s[i] != '0'
  {
    Find(s, '0', 0).None?
  }

  /** The three characters of winning line k are one and the same mark. */
  predicate LineMatches(s: string, k: int)
    requires |s| >= 9 && 0 <= k < |Lines|
  {
    var (i, j, l) := Lines[k];
    s[i] != '0' && s[i] == s[j] && s[i] == s[l]
  }

  /** The scan of evaluateAIBoard from line k on. */
  function EvaluateFrom(s: string, k: nat): (r: int)
    requires |s| >= 9 && k <= |Lines|
    decreases |Lines| - k
    ensures r == 0 || r == 10
    ensures r == 10 <==> exists j :: k <= j < |Lines| && LineMatches(s, j)
  {
    if k == |Lines| then 0
    else
      var (i, j, l) := Lines[k];
      var first := s[i];
      if first != '0' && first == s[j] && first == s[l] then
        assert LineMatches(s, k);
        10
      else EvaluateFrom(s, k + 1)
  }

  /** evaluateAIBoard: 10 when some winning line holds three equal marks, 0 otherwise. */
  function Evaluate(s: string): (r: int)
    requires |s| >= 9
    ensures r == 0 || r == 10
    ensures r == 10 <==> exists k :: 0 <= k < |Lines| && LineMatches(s, k)
  {
    EvaluateFrom(s, 0)
  }

  /** The mark a trial move of the given colour writes. */
  function Mark(color: int): char {
    if color == HumanPlayer then '1' else '2'
  }

  /** std::max. */
  function Max(a: int, b: int): int {
    if a < b then b else a
  }

  /** The value negamax computes for the player of colour `color` about to move
      on snapshot `s`: -10 when a line is already complete (the previous mover
      won), 0 on a full board without one, otherwise the best child value. */
  function NegamaxValue(s: string, color: int): (r: int)
    requires |s| == 9
    decreases multiset(s)['0'], 2
    ensures r == -10 || r == 0 || r == 10
  {
    var score := Evaluate(s);
    if score != 0 then -score
    else if IsFull(s) then 0
    else BestChildFrom(s, color, 0, -1000)
  }

  /** The value, to the mover, of writing its mark into empty cell i: the
      negation of the opponent's value of the resulting snapshot. */
  function ChildValue(s: string, color: int, i: Index): (r: int)
    requires |s| == 9 && s[i] == '0'
    decreases multiset(s)['0'], 0
    ensures r == -10 || r == 0 || r == 10
  {
    -NegamaxValue(s[i := Mark(color)], -color)
  }

  /** The running maximum of negamax's loop: `best` combined with the child
      values of the empty cells at index i and later, in row-major order. */
  function BestChildFrom(s: string, color: int, i: nat, best: int): (r: int)
    requires |s| == 9 && i <= 9
    decreases multiset(s)['0'], 1, 9 - i
    ensures r >= best
    ensures forall j :: i <= j < 9 && s[j] == '0' ==> r >= ChildValue(s, color, j)
    ensures r == best || exists j :: i <= j < 9 && s[j] == '0' && r == ChildValue(s, color, j)
  {
    if i == 9 then best
    else if s[i] == '0' then BestChildFrom(s, color, i + 1, Max(best, ChildValue(s, color, i)))
    else BestChildFrom(s, color, i + 1, best)
  }

  /** The snapshot is not terminal: no complete line and some empty cell. */
  predicate Open(s: string)
    requires |s| == 9
  {
    Evaluate(s) == 0 && !IsFull(s)
  }

  /** negamax's recurrence: on an open snapshot the value is the greatest child
      value over the empty cells, and some empty cell attains it. */
  lemma NegamaxIsMax(s: string, color: int)
    requires |s| == 9 && Open(s)
    ensures forall i :: 0 <= i < 9 && s[i] == '0' ==> NegamaxValue(s, color) >= ChildValue(s, color, i)
    ensures exists i :: 0 <= i < 9 && s[i] == '0' && NegamaxValue(s, color) == ChildValue(s, color, i)
  {
    var i :| 0 <= i < 9 && s[i] == '0';
    assert BestChildFrom(s, color, 0, -1000) >= ChildValue(s, color, i);
  }

  /** negamax never misses an immediate win: on an open snapshot where the
      mover's mark completes a line in some empty cell, the value is 10. */
  lemma WinningMoveValue(s: string, color: int, j: Index)
    requires |s| == 9 && Open(s) && s[j] == '0'
    requires Evaluate(s[j := Mark(color)]) == 10
    ensures NegamaxValue(s, color) == 10
  {
    NegamaxIsMax(s, color);
    assert ChildValue(s, color, j) == 10;
  }

  /** When every move of the mover on an open snapshot loses, so does the position. */
  lemma AllMovesLose(s: string, color: int)
    requires |s| == 9 && Open(s)
    requires forall j :: 0 <= j < 9 && s[j] == '0' ==> ChildValue(s, color, j) == -10
    ensures NegamaxValue(s, color) == -10
  {
    NegamaxIsMax(s, color);
  }

  /** Writing a mark into an empty cell leaves one empty cell fewer. */
  lemma FewerEmpty(s: string, i: Index, c: char)
    requires |s| == 9 && s[i] == '0' && c != '0'
    ensures multiset(s[i := c])['0'] < multiset(s)['0']
  {
  }

  /** negamax: evaluates the snapshot in `state` by writing and undoing trial
      marks in that very buffer; on return the buffer is as it was on entry. */
  method Negamax(state: array<char>, color: int) returns (value: int)
    requires state.Length == 9
    modifies state
    ensures state[..] == old(state[..])
    ensures value == NegamaxValue(old(state[..]), color)
    decreases multiset(state[..])['0'], 1
  {
    ghost var s := state[..];
    var score := Evaluate(state[..]);
    if score != 0 {
      return -score;
    }
    if IsFull(state[..]) {
      return 0;
    }
    assert Open(s);
    ghost var target := BestChildFrom(s, color, 0, -1000);
    var bestVal := -1000;
    var y := 0;
    while y < 3
      invariant 0 <= y <= 3
      invariant state[..] == s
      invariant BestChildFrom(s, color, y * 3, bestVal) == target
    {
      var x := 0;
      while x < 3
        invariant 0 <= x <= 3
        invariant state[..] == s
        invariant BestChildFrom(s, color, y * 3 + x, bestVal) == target
      {
        if state[y * 3 + x] == '0' {
          var v := TrialMove(state, color, y * 3 + x);
          bestVal := Max(bestVal, v);
        }
        x := x + 1;
      }
      y := y + 1;
    }
    value := bestVal;
  }

  /** One iteration of negamax's loop on empty cell i: write the mover's mark,
      evaluate the opponent's reply, negate, and put the '0' back. */
  method TrialMove(state: array<char>, color: int, i: Index) returns (value: int)
    requires state.Length == 9 && state[i] == '0'
    modifies state
    ensures state[..] == old(state[..])
    ensures value == ChildValue(old(state[..]), color, i)
    decreases multiset(state[..])['0'], 0
  {
    ghost var s := state[..];
    state[i] := Mark(color);
    assert state[..] == s[i := Mark(color)];
    FewerEmpty(s, i, Mark(color));
    var v := Negamax(state, -color);
    value := -v;
    state[i] := '0';
    assert state[..] == s;
  }

  // ---------------------------------------------------------------------------
  // Move selection (updateAI)
  // ---------------------------------------------------------------------------

  /** Among the empty cells below n, m is the first one with the greatest score
      for the AI, a trial move of the AI's mark '2' answered by the human
      colour (Mark(AiPlayer) == '2' and -AiPlayer == HumanPlayer). */
  ghost predicate FirstBestBelow(s: string, m: int, n: int)
    requires |s| == 9 && n <= 9
  {
    0 <= m < n && s[m] == '0' &&
    (forall j :: 0 <= j < m && s[j] == '0' ==> ChildValue(s, AiPlayer, j) < ChildValue(s, AiPlayer, m)) &&
    (forall j :: m < j < n && s[j] == '0' ==> ChildValue(s, AiPlayer, j) <= ChildValue(s, AiPlayer, m))
  }

  /** The cell updateAI picks on snapshot s: the first empty cell, in row-major
      order, whose score is strictly greater than every earlier score and at
      least every later one. */
  ghost predicate IsChosen(s: string, m: int)
    requires |s| == 9
  {
    FirstBestBelow(s, m, 9)
  }

  /** The state of updateAI's scan after the cells below n. */
  ghost predicate Scanned(s: string, n: int, move: Option<Index>, bestVal: int)
    requires |s| == 9 && 0 <= n <= 9
  {
    match move
    case None => bestVal == -1000 && forall j :: 0 <= j < n ==> s[j] != '0'
    case Some(m) => FirstBestBelow(s, m, n) && bestVal == ChildValue(s, AiPlayer, m)
  }

  /** One step of updateAI's scan: cell n is skipped when it is not empty,
      and otherwise becomes the choice exactly when its score beats the best so far. */
  lemma ScanStep(s: string, n: Index, move: Option<Index>, bestVal: int)
    requires |s| == 9 && Scanned(s, n, move, bestVal)
    ensures s[n] != '0' ==> Scanned(s, n + 1, move, bestVal)
    ensures s[n] == '0' && ChildValue(s, AiPlayer, n) > bestVal ==>
      Scanned(s, n + 1, Some(n), ChildValue(s, AiPlayer, n))
    ensures s[n] == '0' && ChildValue(s, AiPlayer, n) <= bestVal ==>
      Scanned(s, n + 1, move, bestVal)
  {
  }

  /** The selection loop of updateAI: score every empty cell of a working copy
      of the snapshot with a trial move of '2', keep the first strictly better
      one; no move when the snapshot has no empty cell. */
  method BestMove(s: string) returns (move: Option<Index>)
    requires |s| == 9
    ensures move.None? <==> IsFull(s)
    ensures move.Some? ==> IsChosen(s, move.value)
  {
    var state := new char[9](i requires 0 <= i < 9 => s[i]);
    assert state[..] == s;
    var bestVal := -1000;
    move := None;
    var y := 0;
    while y < 3
      invariant 0 <= y <= 3
      invariant state[..] == s
      invariant Scanned(s, y * 3, move, bestVal)
    {
      var x := 0;
      while x < 3
        invariant 0 <= x <= 3
        invariant state[..] == s
        invariant Scanned(s, y * 3 + x, move, bestVal)
      {
        var index := y * 3 + x;
        ScanStep(s, index, move, bestVal);
        if state[index] == '0' {
          var moveVal := TrialMove(state, AiPlayer, index);
          if moveVal > bestVal {
            move := Some(index);
            bestVal := moveVal;
          }
        }
        x := x + 1;
      }
      y := y + 1;
    }
  }

  /** On an open snapshot the chosen cell's score is the AI's negamax value:
      updateAI plays a move that attains the value of the position. */
  lemma ChosenAttainsValue(s: string, m: int)
    requires |s| == 9 && Open(s) && IsChosen(s, m)
    ensures ChildValue(s, AiPlayer, m) == NegamaxValue(s, AiPlayer)
  {
    NegamaxIsMax(s, AiPlayer);
    var i :| 0 <= i < 9 && s[i] == '0' && NegamaxValue(s, AiPlayer) == ChildValue(s, AiPlayer, i);
    assert ChildValue(s, AiPlayer, i) <= ChildValue(s, AiPlayer, m) by {
      if i < m {} else if i > m {}
    }
  }

  /** When some empty cell completes a line for the AI, the chosen move scores 10. */
  lemma ChosenScoresAWin(s: string, i: Index, m: int)
    requires |s| == 9 && s[i] == '0' && Evaluate(s[i := '2']) == 10 && IsChosen(s, m)
    ensures ChildValue(s, AiPlayer, m) == 10
  {
    assert ChildValue(s, AiPlayer, i) == 10;
    if i < m {} else if i > m {}
  }

  /** If the human threatens to complete a line at cell j, an AI move into any
      other empty cell i that does not itself win loses: the human completes
      the line next. */
  lemma IgnoredThreatLoses(s: string, i: Index, j: Index)
    requires |s| == 9 && i != j && s[i] == '0' && s[j] == '0'
    requires Evaluate(s[i := '2']) == 0 && Evaluate(s[j := '1']) == 10
    ensures ChildValue(s, AiPlayer, i) == -10
  {
    var c := s[i := '2'];
    var k :| 0 <= k < |Lines| && LineMatches(s[j := '1'], k);
    var (a, b, d) := Lines[k];
    assert a != i && b != i && d != i;
    assert LineMatches(c[j := '1'], k);
    assert Open(c);
    WinningMoveValue(c, HumanPlayer, j);
  }

  /** With no winning move available, if blocking the human's threat at j
      does not lose, updateAI blocks. */
  lemma ChosenBlocks(s: string, j: Index, m: int)
    requires |s| == 9 && s[j] == '0' && Evaluate(s[j := '1']) == 10
    requires forall i :: 0 <= i < 9 && s[i] == '0' ==> Evaluate(s[i := '2']) == 0
    requires ChildValue(s, AiPlayer, j) > -10
    requires IsChosen(s, m)
    ensures m == j
  {
    if m != j {
      IgnoredThreatLoses(s, m, j);
      if j < m {} else {}
    }
  }

  /** After 2 2 0 / 1 2 1 / 2 1 0 and the human's block at 2, the AI completes
      the diagonal at 8. */
  lemma BlockAtTwoLoses(d: string)
    requires d == "221121210"
    ensures NegamaxValue(d, AiPlayer) == 10
  {
    assert !LineMatches(d, 0) && !LineMatches(d, 1) && !LineMatches(d, 2) && !LineMatches(d, 3);
    assert !LineMatches(d, 4) && !LineMatches(d, 5) && !LineMatches(d, 6) && !LineMatches(d, 7);
    assert d[8] == '0' && Open(d);
    assert LineMatches(d[8 := '2'], 6);
    WinningMoveValue(d, AiPlayer, 8);
  }

  /** After 2 2 0 / 1 2 1 / 2 1 0 and the human's block at 8, the AI completes
      the top row at 2. */
  lemma BlockAtEightLoses(e: string)
    requires e == "220121211"
    ensures NegamaxValue(e, AiPlayer) == 10
  {
    assert !LineMatches(e, 0) && !LineMatches(e, 1) && !LineMatches(e, 2) && !LineMatches(e, 3);
    assert !LineMatches(e, 4) && !LineMatches(e, 5) && !LineMatches(e, 6) && !LineMatches(e, 7);
    assert e[2] == '0' && Open(e);
    assert LineMatches(e[2 := '2'], 0);
    WinningMoveValue(e, AiPlayer, 2);
  }

  /** On 2 0 0 / 1 2 1 / 2 1 0 the AI's move into cell 1 wins by force: the
      human can block only one of the two lines it threatens. */
  lemma CellOneForcesWin(s: string)
    requires s == "200121210"
    ensures ChildValue(s, AiPlayer, 1) == 10
  {
    var c := s[1 := '2'];
    assert c == "220121210";
    assert !LineMatches(c, 0) && !LineMatches(c, 1) && !LineMatches(c, 2) && !LineMatches(c, 3);
    assert !LineMatches(c, 4) && !LineMatches(c, 5) && !LineMatches(c, 6) && !LineMatches(c, 7);
    assert c[2] == '0' && Open(c);
    BlockAtTwoLoses(c[2 := '1']);
    BlockAtEightLoses(c[8 := '1']);
    assert forall j :: 0 <= j < 9 && c[j] == '0' ==> j == 2 || j == 8;
    AllMovesLose(c, HumanPlayer);
  }

  /** With the AI to move on 2 0 0 / 1 2 1 / 2 1 0, cells 2 and 8 complete a
      line at once, yet updateAI chooses cell 1: that move also wins by force,
      every win scores the same 10 whatever its depth, and cell 1 comes first. */
  lemma ForcedWinBeforeImmediateWin(s: string)
    requires s == "200121210"
    ensures Evaluate(s[2 := '2']) == 10 && Evaluate(s[8 := '2']) == 10
    ensures Evaluate(s[1 := '2']) == 0
    ensures IsChosen(s, 1)
    ensures forall m :: IsChosen(s, m) ==> m == 1
  {
    assert LineMatches(s[2 := '2'], 7);
    assert LineMatches(s[8 := '2'], 6);
    var c := s[1 := '2'];
    assert !LineMatches(c, 0) && !LineMatches(c, 1) && !LineMatches(c, 2) && !LineMatches(c, 3);
    assert !LineMatches(c, 4) && !LineMatches(c, 5) && !LineMatches(c, 6) && !LineMatches(c, 7);
    CellOneForcesWin(s);
  }

  /** On 0 2 0 / 2 1 2 / 1 1 0 with the AI to move, the human threatens both
      cell 2 (the diagonal) and cell 8 (the bottom row), and the AI has no
      winning move. Every AI move then scores -10, so updateAI takes the first
      empty cell, 0, which blocks neither threat. */
  lemma ForkDefeatsBlocking(s: string)
    requires s == "020212110"
    ensures Evaluate(s[2 := '1']) == 10 && Evaluate(s[8 := '1']) == 10
    ensures IsChosen(s, 0)
    ensures forall m :: IsChosen(s, m) ==> m == 0
  {
    assert LineMatches(s[2 := '1'], 7);
    assert LineMatches(s[8 := '1'], 2);
    NoAiWinAt(s, 0);
    NoAiWinAt(s, 2);
    NoAiWinAt(s, 8);
    IgnoredThreatLoses(s, 0, 8);
    IgnoredThreatLoses(s, 2, 8);
    IgnoredThreatLoses(s, 8, 2);
    assert forall j :: 0 <= j < 9 && s[j] == '0' ==> j == 0 || j == 2 || j == 8;
  }

  /** On 0 2 0 / 2 1 2 / 1 1 0 no AI mark in an empty cell completes a line. */
  lemma NoAiWinAt(s: string, i: Index)
    requires s == "020212110" && (i == 0 || i == 2 || i == 8)
    ensures Evaluate(s[i := '2']) == 0
  {
    var c := s[i := '2'];
    assert !LineMatches(c, 0) && !LineMatches(c, 1) && !LineMatches(c, 2) && !LineMatches(c, 3);
    assert !LineMatches(c, 4) && !LineMatches(c, 5) && !LineMatches(c, 6) && !LineMatches(c, 7);
  }
}
