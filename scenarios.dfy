/** Whole games played through `Game.MakeTurn`, with the result of every move, and the
    first turn of two sessions. */
module Scenarios {
  import opened Wrappers
  import opened Battlefield
  import opened Strategy
  import opened Game
  import opened GameSession

  /** With cells still free and no line of `BoardLineTable` filled by one mark, a move
      has no result. */
  lemma NoResultYet(b: Board, freeCells: nat, firstMark: Mark)
    requires freeCells > 0
    requires forall t :: t in BoardLineTable ==> b[t.0] == None || b[t.0] != b[t.1] || b[t.1] != b[t.2]
    ensures Outcome(b, freeCells, firstMark) == None
  {
    OutcomeMeaning(b, freeCells, firstMark);
    forall n | 0 <= n < 8
      ensures CompleteLine(BoardLines(b)[n]).None?
    {
      assert BoardLineTable[n] in BoardLineTable;
    }
  }

  const x: Option<Mark> := Some(X)
  const o: Option<Mark> := Some(O)
  const e: Option<Mark> := None

  const EmptyBoard: Board := [e, e, e, e, e, e, e, e, e]

  /** The mark of move `j` (counting from 0) when the first player plays X. */
  function MoverMark(j: nat): (m: Option<Mark>)
    ensures m.Some?
  {
    if j % 2 == 0 then x else o
  }

  /** The boards after each move of a game where X, moving first, takes 0, 3 and 6
      (the left column) and O takes 1 and 4. */
  const ColumnGame: seq<Board> := [
    [x, e, e, e, e, e, e, e, e],
    [x, o, e, e, e, e, e, e, e],
    [x, o, e, x, e, e, e, e, e],
    [x, o, e, x, o, e, e, e, e],
    [x, o, e, x, o, e, x, e, e]]

  const ColumnMoves: seq<nat> := [0, 1, 3, 4, 6]

  /** Each board is the one before with the mover's mark on the next cell, as
      `Game.MakeTurn` leaves it. */
  lemma ColumnGameBoards()
    ensures ColumnGame[0] == EmptyBoard[ColumnMoves[0] := x]
    ensures forall j :: 1 <= j < 5 ==> ColumnGame[j] == ColumnGame[j - 1][ColumnMoves[j] := MoverMark(j)]
  {
    forall j | 1 <= j < 5
      ensures ColumnGame[j] == ColumnGame[j - 1][ColumnMoves[j] := MoverMark(j)]
    {
    }
  }

  /** No result until the third X, which completes the left column and wins for the
      first player. */
  lemma ColumnGameOutcomes()
    ensures forall k :: 0 <= k < 4 ==> Outcome(ColumnGame[k], 8 - k, X) == None
    ensures Outcome(ColumnGame[4], 4, X) == Some(WinOf(First))
  {
    forall k | 0 <= k < 4
      ensures Outcome(ColumnGame[k], 8 - k, X) == None
    {
      NoResultYet(ColumnGame[k], 8 - k, X);
    }
    var lines := BoardLines(ColumnGame[4]);
    assert lines[0] == (x, o, e);
    assert lines[1] == (x, o, e);
    assert lines[2] == (x, e, e);
    assert lines[3] == (x, x, x);
  }

  /** The boards after each move of a game where X, moving first, takes 0, 2, 3, 7, 8
      and O takes 1, 4, 5, 6, in the order 0 1 2 4 3 5 7 6 8. */
  const DrawnGame: seq<Board> := [
    [x, e, e, e, e, e, e, e, e],
    [x, o, e, e, e, e, e, e, e],
    [x, o, x, e, e, e, e, e, e],
    [x, o, x, e, o, e, e, e, e],
    [x, o, x, x, o, e, e, e, e],
    [x, o, x, x, o, o, e, e, e],
    [x, o, x, x, o, o, e, x, e],
    [x, o, x, x, o, o, o, x, e],
    [x, o, x, x, o, o, o, x, x]]

  const DrawnMoves: seq<nat> := [0, 1, 2, 4, 3, 5, 7, 6, 8]

  /** Each board is the one before with the mover's mark on the next cell, as
      `Game.MakeTurn` leaves it. */
  lemma DrawnGameBoards()
    ensures DrawnGame[0] == EmptyBoard[DrawnMoves[0] := x]
    ensures forall j :: 1 <= j < 9 ==> DrawnGame[j] == DrawnGame[j - 1][DrawnMoves[j] := MoverMark(j)]
  {
    forall j | 1 <= j < 9
      ensures DrawnGame[j] == DrawnGame[j - 1][DrawnMoves[j] := MoverMark(j)]
    {
    }
  }

  /** No move has a result until the ninth, which is a draw. */
  lemma DrawnGameOutcomes()
    ensures forall k :: 0 <= k < 8 ==> Outcome(DrawnGame[k], 8 - k, X) == None
    ensures Outcome(DrawnGame[8], 0, X) == Some(TurnResult.Draw)
  {
    forall k | 0 <= k < 8
      ensures Outcome(DrawnGame[k], 8 - k, X) == None
    {
      NoResultYet(DrawnGame[k], 8 - k, X);
    }
  }

  /** One O in the top-left corner, with O moving first, decides nothing. */
  lemma CornerOpeningGoesOn()
    ensures Outcome([o, e, e, e, e, e, e, e, e], 8, O) == None
  {
    NoResultYet([o, e, e, e, e, e, e, e, e], 8, O);
  }

  /** One X in the centre, with X moving first, decides nothing. */
  lemma CentreOpeningGoesOn()
    ensures Outcome([e, e, e, e, x, e, e, e, e], 8, X) == None
  {
    NoResultYet([e, e, e, e, x, e, e, e, e], 8, X);
  }

  /** A session where the user moves first with O: key 7 marks the top-left cell with
      O and the round goes on. */
  method UserOpensTopLeft() returns (cell: Option<Mark>, result: Option<SessionResult>)
    ensures cell == Some(O) && result == None
  {
    var session := new GameSession.NewSession(true, O);
    assert AcceptsReaction(session.game.board[..], Turn(7)) by {
      assert Numpad[0] == 7;
    }
    result := session.MakeTurn(Turn(7));
    assert session.game.board[..] == [o, e, e, e, e, e, e, e, e];
    CornerOpeningGoesOn();
    cell := session.game.board[0];
  }

  /** A session where the user moves second with O: the computer plays X and opens in
      the centre. */
  method ComputerOpensInCentre() returns (cell: Option<Mark>, result: Option<SessionResult>)
    ensures cell == Some(X) && result == None
  {
    var session := new GameSession.NewSession(false, O);
    var game := session.game;
    assert game.firstPlayerMark == X && session.userPlayer == Second;
    DefaultOpensInCentre();
    assert Hint(DefaultHeuristic, game.boardRepr[..]) == Some(4);
    ghost var before := game.board[..];
    result := session.MakeTurn(Quit);
    assert game.board[..] == before[4 := x];
    assert game.board[..] == [e, e, e, e, x, e, e, e, e];
    CentreOpeningGoesOn();
    cell := game.board[4];
  }
}
