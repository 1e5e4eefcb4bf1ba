/** The board state model: the 3x3 grid read as nine cells in row-major order,
    owner lookup, winner and draw detection, and the canonical 9-character
    snapshot ('0' empty, '1' player 0, '2' player 1). */
module BoardState {
  import opened Basics

  /** A zero-based player index, as the engine's playerNumber() reports it. */
  type Player = p: int | 0 <= p < 2

  /** A square of the grid: empty, or holding a piece. A piece normally has an
      owner; `Piece(None)` is a piece whose owner the engine could not resolve. */
  datatype Cell = Empty | Piece(owner: Option<Player>)

  /** The grid's contents, cell (x, y) at index y * 3 + x. */
  type Board = b: seq<Cell> | |b| == 9
    witness [Empty, Empty, Empty, Empty, Empty, Empty, Empty, Empty, Empty]

  const EmptyBoard: Board := [Empty, Empty, Empty, Empty, Empty, Empty, Empty, Empty, Empty]

  /** Every piece on the board has an owner (true of every board built by
      placements and by decoding snapshots over '0', '1', '2'). */
  predicate Owned(b: Board) {
    forall i :: 0 <= i < 9 ==> b[i] != Piece(None)
  }

  // ---------------------------------------------------------------------------
  // Owner lookup
  // ---------------------------------------------------------------------------

  /** C++ `n / 3`: the quotient truncated toward zero. */
  function Div3(n: int): int {
    if n >= 0 then n / 3 else -((-n) / 3)
  }

  /** C++ `n % 3`: the remainder, which takes the sign of `n`. */
  function Mod3(n: int): int {
    n - 3 * Div3(n)
  }

  /** The owner of a cell: none when it is empty or its piece has no owner. */
  function Owner(c: Cell): Option<Player> {
    if c.Piece? then c.owner else None
  }

  /** ownerAt: the owner of the piece at a linear index; none for an empty
      cell, an ownerless piece, or an index whose row or column falls off the grid. */
  function OwnerAt(b: Board, index: int): (r: Option<Player>)
    ensures !(0 <= index < 9) ==> r == None
    ensures 0 <= index < 9 ==> r == Owner(b[index])
  {
    var y := Div3(index);
    var x := Mod3(index);
    if x < 0 || x >= 3 || y < 0 || y >= 3 then None
    else
      match b[y * 3 + x]
      case Empty => None
      case Piece(o) => o
  }

  // ---------------------------------------------------------------------------
  // Winner and draw
  // ---------------------------------------------------------------------------

  /** Player p owns all three cells of winning line k (each cell's owner as
      ownerAt reports it). */
  predicate LineOwnedBy(b: Board, k: int, p: Player)
    requires 0 <= k < |Lines|
  {
    var (i, j, l) := Lines[k];
    Owner(b[i]) == Some(p) && Owner(b[j]) == Some(p) && Owner(b[l]) == Some(p)
  }

  /** The scan of checkForWinner from line k on: the owner of the first line
      whose three cells have one and the same owner. */
  function WinnerFrom(b: Board, k: nat): (r: Option<Player>)
    requires k <= |Lines|
    decreases |Lines| - k
    ensures r == None <==> forall j, p :: k <= j < |Lines| ==> !LineOwnedBy(b, j, p)
    ensures r.Some? ==>
      exists j :: k <= j < |Lines| && LineOwnedBy(b, j, r.value) &&
        forall i, q :: k <= i < j ==> !LineOwnedBy(b, i, q)
  {
    if k == |Lines| then None
    else
      var (i, j, l) := Lines[k];
      var a := OwnerAt(b, i);
      if a.None? then WinnerFrom(b, k + 1)
      else if OwnerAt(b, j) == a && OwnerAt(b, l) == a then
        assert LineOwnedBy(b, k, a.value);
        a
      else WinnerFrom(b, k + 1)
  }

  /** checkForWinner: the owner of the first fully owned line in the order rows,
      columns, diagonals, or none when no line is fully owned by one player. */
  function CheckForWinner(b: Board): (r: Option<Player>)
    ensures r == None <==> forall k, p :: 0 <= k < |Lines| ==> !LineOwnedBy(b, k, p)
    ensures r.Some? ==>
      exists k :: 0 <= k < |Lines| && LineOwnedBy(b, k, r.value) &&
        forall j, q :: 0 <= j < k ==> !LineOwnedBy(b, j, q)
  {
    WinnerFrom(b, 0)
  }

  /** Whether some cell at index `from` or later is empty. */
  function HasEmptyFrom(b: Board, from: nat): (r: bool)
    requires from <= 9
    decreases 9 - from
    ensures r <==> exists i :: from <= i < 9 && b[i] == Empty
  {
    if from == 9 then false
    else b[from] == Empty || HasEmptyFrom(b, from + 1)
  }

  /** checkForDraw: every cell holds a piece and there is no winner; a full
      board with a winning line is not a draw. */
  function CheckForDraw(b: Board): (r: bool)
    ensures r <==> (forall i :: 0 <= i < 9 ==> b[i].Piece?) && CheckForWinner(b) == None
  {
    if HasEmptyFrom(b, 0) then false
    else CheckForWinner(b) == None
  }

  // ---------------------------------------------------------------------------
  // Canonical snapshot
  // ---------------------------------------------------------------------------

  /** The snapshot character of one cell: '0' when empty, '1' + player number
      otherwise, with an ownerless piece counted as player 0. */
  function CellChar(c: Cell): char {
    match c
    case Empty => '0'
    case Piece(o) =>
      var pn := if o.Some? then o.value else 0;
      ('1' as int + pn) as char
  }

  /** stateString's result: one character per cell, left to right, top to bottom. */
  function Encode(b: Board): (s: string)
    ensures |s| == 9
  {
    seq(9, i requires 0 <= i < 9 => CellChar(b[i]))
  }

  /** The engine's player registry, getPlayerAt: a player for indices 0 and 1,
      no player for any other index. */
  function PlayerAt(n: int): Option<Player> {
    if 0 <= n < 2 then Some(n) else None
  }

  /** The piece PieceForPlayer creates for a player number (its texture and
      allocation aside): owned by whatever player the registry gives. */
  function PieceFor(n: int): Cell {
    Piece(PlayerAt(n))
  }

  /** The cell setStateString rebuilds from one snapshot character. */
  function DecodeCell(c: char): Cell {
    var v := c as int - '0' as int;
    if v == 0 then Empty else PieceFor(v - 1)
  }

  /** The board setStateString builds from a snapshot; none for a snapshot whose
      length is not 9, which setStateString rejects. */
  function Decode(s: string): (r: Option<Board>)
    ensures r.Some? <==> |s| == 9
    ensures r.Some? ==> forall i :: 0 <= i < 9 ==> (r.value[i] == Empty <==> s[i] == '0')
    ensures r.Some? ==> forall i :: 0 <= i < 9 && (s[i] == '1' || s[i] == '2') ==>
      r.value[i] == Piece(Some(s[i] as int - '1' as int))
  {
    if |s| != 9 then None
    else Some(seq(9, i requires 0 <= i < 9 => DecodeCell(s[i])))
  }

  /** initialStateString: the snapshot of the empty board. */
  function InitialStateString(): (s: string)
    ensures Decode(s) == Some(EmptyBoard)
    ensures Encode(EmptyBoard) == s
  {
    var s := "000000000";
    assert Decode(s).value == EmptyBoard by {
      assert forall i :: 0 <= i < 9 ==> DecodeCell(s[i]) == Empty;
    }
    s
  }

  /** Snapshot characters are exactly the alphabet '0', '1', '2'. */
  predicate InAlphabet(s: string) {
    forall i :: 0 <= i < |s| ==> s[i] == '0' || s[i] == '1' || s[i] == '2'
  }

  // ---------------------------------------------------------------------------
  // Properties
  // ---------------------------------------------------------------------------

  /** Encoding maps an owned piece of player p to '1' + p and nothing else
      to a character other than '0', '1', '2'. */
  lemma EncodeChars(b: Board)
    ensures InAlphabet(Encode(b))
    ensures forall i :: 0 <= i < 9 ==> (Encode(b)[i] == '0' <==> b[i] == Empty)
    ensures forall i :: 0 <= i < 9 && b[i] == Piece(Some(0)) ==> Encode(b)[i] == '1'
    ensures forall i :: 0 <= i < 9 && b[i] == Piece(Some(1)) ==> Encode(b)[i] == '2'
  {
  }

  /** Reading back a written snapshot gives the same board, as long as every
      piece has an owner. */
  lemma DecodeEncode(b: Board)
    requires Owned(b)
    ensures Decode(Encode(b)) == Some(b)
  {
    var s := Encode(b);
    var d := Decode(s).value;
    forall i | 0 <= i < 9 ensures d[i] == b[i] {
      assert d[i] == DecodeCell(CellChar(b[i]));
    }
    assert d == b;
  }

  /** Writing the snapshot of a decoded 9-character string over '0', '1', '2'
      gives the string back, and the decoded board has no ownerless piece. */
  lemma EncodeDecode(s: string)
    requires |s| == 9 && InAlphabet(s)
    ensures Decode(s).Some?
    ensures Owned(Decode(s).value)
    ensures Encode(Decode(s).value) == s
  {
    var d := Decode(s).value;
    forall i | 0 <= i < 9 ensures Encode(d)[i] == s[i] && d[i] != Piece(None) {
      assert d[i] == DecodeCell(s[i]);
    }
  }

  /** A board holding exactly one winning line of player p, all else empty. */
  function LineBoard(k: int, p: Player): (b: Board)
    requires 0 <= k < |Lines|
    ensures LineOwnedBy(b, k, p)
  {
    var (i, j, l) := Lines[k];
    seq(9, n requires 0 <= n < 9 => if n == i || n == j || n == l then Piece(Some(p)) else Empty)
  }

  /** Two different winning lines share at most one cell: some cell of line j
      lies outside line k. */
  lemma LinesDiffer(j: int, k: int)
    requires 0 <= j < |Lines| && 0 <= k < |Lines| && j != k
    ensures var (a, c, d) := Lines[j]; var (e, f, g) := Lines[k];
      !(a in {e, f, g} && c in {e, f, g} && d in {e, f, g})
  {
  }

  /** Each of the eight lines is detected: a board where p owns exactly that
      line reports p as the winner and is not a draw. */
  lemma SingleLineWins(k: int, p: Player)
    requires 0 <= k < |Lines|
    ensures CheckForWinner(LineBoard(k, p)) == Some(p)
    ensures !CheckForDraw(LineBoard(k, p))
  {
    var b := LineBoard(k, p);
    var (e, f, g) := Lines[k];
    forall j, q | 0 <= j < |Lines| && LineOwnedBy(b, j, q) ensures j == k && q == p {
      var (a, c, d) := Lines[j];
      assert a in {e, f, g} && c in {e, f, g} && d in {e, f, g};
      if j != k {
        LinesDiffer(j, k);
      }
    }
  }

  /** A full board with no fully owned line is a draw; a full board with one is not. */
  lemma FullBoardDraw(b: Board)
    requires forall i :: 0 <= i < 9 ==> b[i].Piece?
    ensures CheckForDraw(b) <==> forall k, p :: 0 <= k < |Lines| ==> !LineOwnedBy(b, k, p)
  {
  }
}
