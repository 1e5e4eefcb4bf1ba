/** The game object: the live 3x3 grid of squares that placements, snapshots
    and the AI's move update in place, and the agreement between the grid-side
    and the snapshot-side terminal checks. */
module Game {
  import opened Basics
  import opened BoardState
  import opened Search

  /** A square of the grid as a BitHolder designates it: column x, row y. */
  datatype Square = Square(x: int, y: int)

  class TicTacToe {
    /** `_grid[y][x]`: what each square holds. */
    const grid: array2<Cell>

    ghost predicate Valid() {
      grid.Length0 == 3 && grid.Length1 == 3
    }

    /** The grid's contents in row-major order. */
    ghost function Cells(): (b: Board)
      requires Valid()
      reads grid
      ensures forall y, x :: 0 <= y < 3 && 0 <= x < 3 ==> b[y * 3 + x] == grid[y, x]
    {
      [grid[0, 0], grid[0, 1], grid[0, 2],
       grid[1, 0], grid[1, 1], grid[1, 2],
       grid[2, 0], grid[2, 1], grid[2, 2]]
    }

    /** A game whose board setUpBoard has left clean. */
    constructor ()
      ensures Valid() && fresh(grid)
      ensures Cells() == EmptyBoard
    {
      grid := new Cell[3, 3]((y, x) => Empty);
    }

    /** stopGame: removes every piece, leaving all squares in place. */
    method StopGame()
      requires Valid()
      modifies grid
      ensures Cells() == EmptyBoard
    {
      var y := 0;
      while y < 3
        invariant 0 <= y <= 3
        invariant forall i, j :: 0 <= i < y && 0 <= j < 3 ==> grid[i, j] == Empty
      {
        var x := 0;
        while x < 3
          invariant 0 <= x <= 3
          invariant forall i, j :: 0 <= i < y && 0 <= j < 3 ==> grid[i, j] == Empty
          invariant forall j :: 0 <= j < x ==> grid[y, j] == Empty
        {
          grid[y, x] := Empty;
          x := x + 1;
        }
        y := y + 1;
      }
    }

    /** actionForEmptyHolder: places a piece of the current player on an empty
        square; a missing or occupied square is refused and nothing changes. */
    method ActionForEmptyHolder(holder: Option<Square>, current: Player) returns (placed: bool)
      requires Valid()
      requires holder.Some? ==> 0 <= holder.value.x < 3 && 0 <= holder.value.y < 3
      modifies grid
      ensures placed <==> holder.Some? && old(Cells())[holder.value.y * 3 + holder.value.x] == Empty
      ensures placed ==>
        Cells() == old(Cells())[holder.value.y * 3 + holder.value.x := Piece(Some(current))]
      ensures !placed ==> Cells() == old(Cells())
    {
      if holder.None? {
        return false;
      }
      var square := holder.value;
      if grid[square.y, square.x] != Empty {
        return false;
      }
      grid[square.y, square.x] := PieceFor(current);
      return true;
    }

    /** stateString: the canonical snapshot of the grid, built one square at a
        time, left to right and top to bottom. */
    method StateString() returns (s: string)
      requires Valid()
      ensures s == Encode(Cells())
    {
      s := [];
      var y := 0;
      while y < 3
        invariant 0 <= y <= 3
        invariant s == Encode(Cells())[..y * 3]
      {
        var x := 0;
        while x < 3
          invariant 0 <= x <= 3
          invariant s == Encode(Cells())[..y * 3 + x]
        {
          var cell := grid[y, x];
          assert Encode(Cells())[y * 3 + x] == CellChar(cell);
          if cell.Empty? {
            s := s + ['0'];
          } else {
            var pn := if cell.owner.Some? then cell.owner.value else 0;
            s := s + [('1' as int + pn) as char];
          }
          x := x + 1;
        }
        y := y + 1;
      }
    }

    /** setStateString: rebuilds the grid from a snapshot; a snapshot whose
        length is not 9 is ignored. */
    method SetStateString(s: string)
      requires Valid()
      modifies grid
      ensures |s| != 9 ==> Cells() == old(Cells())
      ensures |s| == 9 ==> Cells() == Decode(s).value
    {
      if |s| != 9 {
        return;
      }
      StopGame();
      var idx := 0;
      while idx < 9
        invariant 0 <= idx <= 9
        invariant forall i :: 0 <= i < 9 ==> Cells()[i] == if i < idx then DecodeCell(s[i]) else Empty
      {
        var y := idx / 3;
        var x := idx % 3;
        var v := s[idx] as int - '0' as int;
        if v != 0 {
          var playerIndex := v - 1;
          grid[y, x] := PieceFor(playerIndex);
        }
        idx := idx + 1;
      }
    }

    /** updateAI: the AI's move. The snapshot's chosen cell receives a piece of
        the current player and the turn ends; with no empty cell nothing happens. */
    method UpdateAI(current: Player) returns (turnEnded: bool)
      requires Valid()
      modifies grid
      ensures turnEnded <==> !IsFull(Encode(old(Cells())))
      ensures !turnEnded ==> Cells() == old(Cells())
      ensures turnEnded ==>
        exists m :: IsChosen(Encode(old(Cells())), m) && Cells() == old(Cells())[m := Piece(Some(current))]
    {
      var state := StateString();
      var move := BestMove(state);
      turnEnded := false;
      if move.Some? {
        var m := move.value;
        EncodeChars(Cells());
        var placed := ActionForEmptyHolder(Some(Square(m % 3, m / 3)), current);
        if placed {
          turnEnded := true;
        }
      }
    }
  }

  // ---------------------------------------------------------------------------
  // The grid-side and the snapshot-side checks agree
  // ---------------------------------------------------------------------------

  /** A winning line of the snapshot is exactly a line that one player owns
      on the board, when every piece has an owner. */
  lemma LineAgrees(b: Board, k: int)
    requires Owned(b) && 0 <= k < |Lines|
    ensures LineMatches(Encode(b), k) <==> exists p :: LineOwnedBy(b, k, p)
  {
    var s := Encode(b);
    var (i, j, l) := Lines[k];
    if LineMatches(s, k) {
      assert b[i] == Piece(Some(0)) || b[i] == Piece(Some(1));
      assert LineOwnedBy(b, k, b[i].owner.value);
    }
  }

  /** evaluateAIBoard on the snapshot reports a win exactly when checkForWinner
      finds one on the board. */
  lemma WinnerAgreesWithEvaluate(b: Board)
    requires Owned(b)
    ensures Evaluate(Encode(b)) == 10 <==> CheckForWinner(b) != None
  {
    var s := Encode(b);
    if Evaluate(s) == 10 {
      var k :| 0 <= k < |Lines| && LineMatches(s, k);
      LineAgrees(b, k);
    }
    if CheckForWinner(b) != None {
      var k, p :| 0 <= k < |Lines| && LineOwnedBy(b, k, p);
      LineAgrees(b, k);
    }
  }

  /** checkForDraw holds exactly when the snapshot is full and evaluates to 0,
      where negamax scores 0. */
  lemma DrawAgreesWithSearch(b: Board, color: int)
    requires Owned(b)
    ensures CheckForDraw(b) <==> IsFull(Encode(b)) && Evaluate(Encode(b)) == 0
    ensures CheckForDraw(b) ==> NegamaxValue(Encode(b), color) == 0
    ensures CheckForWinner(b) != None ==> NegamaxValue(Encode(b), color) == -10
  {
    WinnerAgreesWithEvaluate(b);
    EncodeChars(b);
  }

  /** Without ownership the two checks part ways. A character such as '3'
      decodes to a piece whose owner the registry cannot resolve; three of them
      in the top row are written as "111000000", a win for evaluateAIBoard,
      while checkForWinner sees none. */
  lemma OwnerlessRowDisagrees(b: Board)
    requires b == [Piece(None), Piece(None), Piece(None), Empty, Empty, Empty, Empty, Empty, Empty]
    ensures DecodeCell('3') == Piece(None)
    ensures Encode(b) == "111000000"
    ensures Evaluate(Encode(b)) == 10
    ensures CheckForWinner(b) == None
  {
    OwnerlessRowEncodes(b);
    assert LineMatches("111000000", 0);
    OwnerlessHasNoWinner(b);
  }

  /** The snapshot of the top row of ownerless pieces. */
  lemma OwnerlessRowEncodes(b: Board)
    requires b == [Piece(None), Piece(None), Piece(None), Empty, Empty, Empty, Empty, Empty, Empty]
    ensures Encode(b) == "111000000"
  {
    var e := Encode(b);
    assert forall i :: 0 <= i < 9 ==> e[i] == (if i < 3 then '1' else '0');
  }

  /** A board on which no cell has an owner has no winner. */
  lemma OwnerlessHasNoWinner(b: Board)
    requires forall i :: 0 <= i < 9 ==> Owner(b[i]) == None
    ensures CheckForWinner(b) == None
  {
    assert forall k, p :: 0 <= k < |Lines| ==> !LineOwnedBy(b, k, p);
  }
}
