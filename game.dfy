/** The game state machine: the absolute board of X and O marks, the perspective
    board handed to the computer player, whose turn it is and how many cells are free. */
module Game {
  import opened Wrappers
  import opened Battlefield

  datatype Mark = X | O {
    /** `Mark::opposite`. */
    function Opposite(): (m: Mark)
      ensures m != this
    {
      match this
      case X => O
      case O => X
    }
  }

  /** `Mark::default`. */
  const DefaultMark: Mark := X

  /** `Mark::from_str`: "x" or "X" is X, "o" or "O" is O, anything else is an error. */
  function MarkFromStr(line: string): (r: Result<Mark, ()>)
    ensures r.Ok? <==> line in {"x", "X", "o", "O"}
    ensures r.Ok? ==> (r.value == X <==> line in {"x", "X"})
  {
    if line == "x" || line == "X" then Ok(X)
    else if line == "o" || line == "O" then Ok(O)
    else Err(())
  }

  datatype Player = First | Second {
    /** `Player::next`. */
    function Next(): (p: Player)
      ensures p != this
    {
      match this
      case First => Second
      case Second => First
    }
  }

  lemma OppositeInvolution(m: Mark)
    ensures m.Opposite().Opposite() == m
  {
  }

  lemma NextInvolution(p: Player)
    ensures p.Next().Next() == p
  {
  }

  datatype TurnResult = WinOf(player: Player) | Draw

  /** The absolute board: nine optional marks in row-major order. */
  type Board = cells: seq<Option<Mark>> | |cells| == 9
    witness [None, None, None, None, None, None, None, None, None]

  type MarkLine = (Option<Mark>, Option<Mark>, Option<Mark>)

  /** The index triples `Board::all_lines` reads. The second entry is (0, 4, 5), not the
      middle row (3, 4, 5): the program lists `[l1, c2, r2]` as its second row. */
  const BoardLineTable: seq<(nat, nat, nat)> :=
    [(0, 1, 2), (0, 4, 5), (6, 7, 8),
     (0, 3, 6), (1, 4, 7), (2, 5, 8),
     (0, 4, 8), (2, 4, 6)]

  /** `Board::all_lines`, naming the cells as the program does (l/c/r for left,
      centre and right column, 1 to 3 for the row). */
  function BoardLines(b: Board): (lines: seq<MarkLine>)
    ensures |lines| == 8
    ensures forall n :: 0 <= n < 8 ==>
      var t := BoardLineTable[n];
      lines[n] == (b[t.0], b[t.1], b[t.2])
  {
    var l1, c1, r1 := b[0], b[1], b[2];
    var l2, c2, r2 := b[3], b[4], b[5];
    var l3, c3, r3 := b[6], b[7], b[8];
    [ (l1, c1, r1), (l1, c2, r2), (l3, c3, r3),
      (l1, l2, l3), (c1, c2, c3), (r1, r2, r3),
      (l1, c2, r3), (r1, c2, l3) ]
  }

  /** `complete_line`: the mark that fills all three cells, if one does. */
  function CompleteLine(line: MarkLine): (r: Option<Mark>)
    ensures forall m :: r == Some(m) <==> line == (Some(m), Some(m), Some(m))
  {
    match line
    case (Some(X), Some(X), Some(X)) => Some(X)
    case (Some(O), Some(O), Some(O)) => Some(O)
    case _ => None
  }

  /** The mark player `p` plays when the first player plays `firstMark`. */
  function PlayerMark(firstMark: Mark, p: Player): (m: Mark)
    ensures m == firstMark <==> p == First
  {
    match p
    case First => firstMark
    case Second => firstMark.Opposite()
  }

  /** Who plays `m`: the inverse of `PlayerMark`. */
  function MarkOwner(firstMark: Mark, m: Mark): (p: Player)
    ensures PlayerMark(firstMark, p) == m
  {
    if firstMark == m then First else Second
  }

  /** The two players play different marks, so `MarkOwner` undoes `PlayerMark`. */
  lemma OwnerOfPlayerMark(firstMark: Mark, p: Player)
    ensures MarkOwner(firstMark, PlayerMark(firstMark, p)) == p
    ensures PlayerMark(firstMark, p.Next()) == PlayerMark(firstMark, p).Opposite()
  {
  }

  /** The turn result `make_turn` reports for the board after the move and the free
      cells left: a full board is a draw before any line is looked at; otherwise the
      owner of the first complete line in `BoardLines` order wins, if any line is complete. */
  function Outcome(b: Board, freeCells: nat, firstMark: Mark): (r: Option<TurnResult>)
  {
    if freeCells == 0 then Some(Draw)
    else
      match FindMap(BoardLines(b), CompleteLine)
      case Some(m) => Some(WinOf(MarkOwner(firstMark, m)))
      case None => None
  }

  /** Line `n` of `BoardLines` is filled with the mark of `p`. */
  ghost predicate WonBy(b: Board, firstMark: Mark, p: Player, n: nat)
  {
    n < 8 && var m := PlayerMark(firstMark, p); BoardLines(b)[n] == (Some(m), Some(m), Some(m))
  }

  /** With cells still free, the result names the owner of the first complete line,
      and there is no result exactly when no line is complete. A draw needs a full board. */
  lemma OutcomeMeaning(b: Board, freeCells: nat, firstMark: Mark)
    ensures Outcome(b, freeCells, firstMark) == Some(Draw) <==> freeCells == 0
    ensures freeCells > 0 ==>
      (Outcome(b, freeCells, firstMark).None? <==> forall n :: 0 <= n < 8 ==> CompleteLine(BoardLines(b)[n]).None?)
    ensures forall p :: Outcome(b, freeCells, firstMark) == Some(WinOf(p)) ==>
      exists n: nat :: WonBy(b, firstMark, p, n) && forall k :: 0 <= k < n ==> CompleteLine(BoardLines(b)[k]).None?
  {
    var lines := BoardLines(b);
    var r := FindMap(lines, CompleteLine);
    if freeCells > 0 && r.Some? {
      var n :| 0 <= n < |lines| && CompleteLine(lines[n]) == r && FirstHit(lines, CompleteLine, n);
      var p := MarkOwner(firstMark, r.value);
      assert WonBy(b, firstMark, p, n);
    }
  }

  /** A move that fills the last free cell is a draw even when it completes a line. */
  lemma LastMoveWinIsDraw()
    ensures var b: Board := [Some(X), Some(X), Some(X), Some(O), Some(O), Some(X), Some(O), Some(X), Some(O)];
      CompleteLine(BoardLines(b)[0]) == Some(X) && Outcome(b, 0, X) == Some(Draw)
  {
  }

  /** Three marks on the middle row (3, 4, 5) are not detected as a win. */
  lemma MiddleRowIsNotChecked()
    ensures var b: Board := [None, None, None, Some(X), Some(X), Some(X), Some(O), Some(O), None];
      Outcome(b, 4, X) == None
  {
    var b: Board := [None, None, None, Some(X), Some(X), Some(X), Some(O), Some(O), None];
    assert forall n :: 0 <= n < 8 ==> CompleteLine(BoardLines(b)[n]).None?;
  }

  /** Three marks on the cells 0, 4 and 5, which are no straight line, win. */
  lemma BentLineWins()
    ensures var b: Board := [Some(X), Some(O), Some(O), None, Some(X), Some(X), None, None, None];
      Outcome(b, 4, X) == Some(WinOf(First))
  {
    var b: Board := [Some(X), Some(O), Some(O), None, Some(X), Some(X), None, None, None];
    assert CompleteLine(BoardLines(b)[0]).None?;
    assert CompleteLine(BoardLines(b)[1]) == Some(X);
  }

  /** The perspective board of the player who plays `mover`: their marks are own
      figures, the other mark's are enemy figures. */
  function Perspective(b: seq<Option<Mark>>, mover: Mark): (field: seq<Cell>)
    ensures |field| == |b|
  {
    seq(|b|, i requires 0 <= i < |b| =>
      match b[i]
      case None => None
      case Some(m) => if m == mover then Some(Own) else Some(Enemy))
  }

  /** The perspective board agrees with the absolute one on which cells are empty, and
      shows an own figure exactly where the mover's mark stands. */
  lemma PerspectiveMeaning(b: seq<Option<Mark>>, mover: Mark, i: nat)
    requires i < |b|
    ensures Perspective(b, mover)[i] == None <==> b[i] == None
    ensures Perspective(b, mover)[i] == Some(Own) <==> b[i] == Some(mover)
    ensures Perspective(b, mover)[i] == Some(Enemy) <==> b[i] == Some(mover.Opposite())
  {
  }

  /** Handing the move on: reversing every figure of the mover's view gives the view of
      the other mark. */
  lemma ReversedPerspective(b: seq<Option<Mark>>, mover: Mark)
    ensures Reversed(Perspective(b, mover)) == Perspective(b, mover.Opposite())
  {
    var r, q := Reversed(Perspective(b, mover)), Perspective(b, mover.Opposite());
    forall i | 0 <= i < |b|
      ensures r[i] == q[i]
    {
      if b[i].Some? {
        assert Perspective(b, mover)[i].Some?;
      }
    }
  }

  /** Placing the mover's mark shows up as an own figure in the mover's view. */
  lemma PerspectiveOfMove(b: seq<Option<Mark>>, mover: Mark, turn: nat)
    requires turn < |b|
    ensures Perspective(b[turn := Some(mover)], mover) == Perspective(b, mover)[turn := Some(Own)]
  {
  }

  /** How many marks `m` stand on the board. */
  function MarksOf(b: seq<Option<Mark>>, m: Mark): (n: nat)
    ensures n <= |b|
  {
    Count(b, Some(m))
  }

  class Game {
    const board: array<Option<Mark>>
    const boardRepr: array<Cell>
    var currentPlayer: Player
    const firstPlayerMark: Mark
    var freeCells: nat

    /** The three-way invariant between the absolute board, the perspective board and
        the free-cell count, and the turn parity: the first player has moved once more
        than the second exactly when the second is to move. */
    ghost predicate Valid()
      reads this, board, boardRepr
    {
      && board.Length == 9
      && boardRepr.Length == 9
      && freeCells == Count(board[..], None)
      && boardRepr[..] == Perspective(board[..], CurrentMark())
      && MarksOf(board[..], firstPlayerMark)
         == MarksOf(board[..], firstPlayerMark.Opposite()) + (if currentPlayer == Second then 1 else 0)
    }

    /** `Game::new`. */
    constructor (firstPlayerMark: Mark)
      ensures Valid() && fresh(board) && fresh(boardRepr)
      ensures board[..] == [None, None, None, None, None, None, None, None, None]
      ensures boardRepr[..] == EmptyField
      ensures currentPlayer == First && freeCells == 9
      ensures this.firstPlayerMark == firstPlayerMark
    {
      board := new Option<Mark>[9](_ => None);
      boardRepr := new Cell[9](_ => None);
      currentPlayer := First;
      this.firstPlayerMark := firstPlayerMark;
      freeCells := 9;
      new;
      assert board[..] == [None, None, None, None, None, None, None, None, None];
    }

    /** `Game::current_mark`. */
    function CurrentMark(): (m: Mark)
      reads this
      ensures MarkOwner(firstPlayerMark, m) == currentPlayer
    {
      PlayerMark(firstPlayerMark, currentPlayer)
    }

    /** `Game::owner_of`: the player who moves with `mark`. */
    function OwnerOf(mark: Mark): (p: Player)
      reads this
      ensures PlayerMark(firstPlayerMark, p) == mark
      ensures mark == CurrentMark() <==> p == currentPlayer
    {
      MarkOwner(firstPlayerMark, mark)
    }

    /** `Game::make_turn`: the cell must be on the board and empty. The mover's mark goes
        into the absolute board, an own figure into the perspective board, every figure of
        the perspective board is reversed for the next mover, the turn passes and one cell
        fewer is free. The result is `Outcome` of the new board. */
    method MakeTurn(turn: nat) returns (result: Option<TurnResult>)
      requires Valid()
      requires turn < 9 && board[turn] == None
      modifies this, board, boardRepr
      ensures Valid()
      ensures board[..] == old(board[..])[turn := Some(old(CurrentMark()))]
      ensures boardRepr[..] == Reversed(old(boardRepr[..])[turn := Some(Own)])
      ensures currentPlayer == old(currentPlayer).Next()
      ensures freeCells == old(freeCells) - 1
      ensures result == Outcome(board[..], freeCells, firstPlayerMark)
    {
      ghost var before := board[..];
      ghost var mover := CurrentMark();
      CountUpdate(before, turn, Some(mover), None);
      CountUpdate(before, turn, Some(mover), Some(firstPlayerMark));
      CountUpdate(before, turn, Some(mover), Some(firstPlayerMark.Opposite()));

      boardRepr[turn] := Some(Own);
      board[turn] := Some(CurrentMark());
      ghost var placed := boardRepr[..];
      var i := 0;
      while i < 9
        modifies boardRepr
        invariant 0 <= i <= 9
        invariant forall k :: 0 <= k < i ==> boardRepr[k] == Reversed(placed)[k]
        invariant forall k :: i <= k < 9 ==> boardRepr[k] == placed[k]
      {
        if boardRepr[i].Some? {
          boardRepr[i] := Some(Reverse(boardRepr[i].value));
        }
        i := i + 1;
      }
      assert boardRepr[..] == Reversed(placed);
      assert board[..] == before[turn := Some(mover)];
      currentPlayer := currentPlayer.Next();
      PerspectiveOfMove(before, mover, turn);
      ReversedPerspective(board[..], mover);

      freeCells := freeCells - 1;
      if freeCells == 0 {
        return Some(Draw);
      }

      var winner := FindMap(BoardLines(board[..]), CompleteLine);
      result := if winner.Some? then Some(WinOf(OwnerOf(winner.value))) else None;
    }
  }
}
