/** One round between the user and the computer: reading the user's reaction, the
    choice of marks, and turning the game's turn result into the user's result. */
module GameSession {
  import opened Wrappers
  import opened Battlefield
  import opened Strategy
  import opened Game

  /** The numeric-keypad key shown on each cell, row-major: 7 8 9 / 4 5 6 / 1 2 3. */
  const Numpad: seq<nat> := [7, 8, 9, 4, 5, 6, 1, 2, 3]

  /** Each position paired with its element, as `(0..).zip(..)` does. */
  function Enumerate(s: seq<nat>): (pairs: seq<(nat, nat)>)
    ensures |pairs| == |s|
    ensures forall i :: 0 <= i < |s| ==> pairs[i] == (i, s[i])
  {
    seq(|s|, i requires 0 <= i < |s| => (i, s[i]))
  }

  /** `numpad_to_idx`: the cell that carries key `key`. The program unwraps the search,
      so a key outside 1 to 9 is fatal. */
  function NumpadToIdx(key: nat): (idx: nat)
    requires 1 <= key <= 9
    ensures idx < 9 && Numpad[idx] == key
    ensures forall j :: 0 <= j < 9 && Numpad[j] == key ==> j == idx
  {
    var pairs := Enumerate(Numpad);
    var found := FindMap(pairs, (p: (nat, nat)) => if p.1 == key then Some(p.0) else None);
    assert exists n :: 0 <= n < 9 && Numpad[n] == key by {
      var n := if key >= 7 then key - 7 else if key >= 4 then key - 1 else key + 5;
      assert Numpad[n] == key;
    }
    assert found.Some?;
    found.value
  }

  datatype UserReaction = Turn(n: nat) | Quit

  /** One past the largest `usize` on a 64-bit target. */
  const UsizeLimit: nat := 0x1_0000_0000_0000_0000

  predicate IsDigit(c: char)
  {
    '0' <= c <= '9'
  }

  function DigitValue(c: char): (d: nat)
    requires IsDigit(c)
    ensures d < 10
  {
    c as int - '0' as int
  }

  /** The value of a string of decimal digits, most significant first. */
  function DigitsValue(s: string): (v: nat)
    requires forall i :: 0 <= i < |s| ==> IsDigit(s[i])
  {
    if s == [] then 0
    else DigitsValue(s[..|s| - 1]) * 10 + DigitValue(s[|s| - 1])
  }

  /** `str::parse::<usize>`: an optional leading '+', then at least one decimal digit,
      with a value that fits in 64 bits. */
  function ParseUsize(line: string): (r: Option<nat>)
    ensures r.Some? ==> r.value < UsizeLimit
    ensures r.Some? ==> |line| > 0 && forall i :: 0 <= i < |line| ==> IsDigit(line[i]) || (i == 0 && line[i] == '+')
  {
    var digits := if |line| > 0 && line[0] == '+' then line[1..] else line;
    if |digits| == 0 || exists i :: 0 <= i < |digits| && !IsDigit(digits[i]) then None
    else
      var v := DigitsValue(digits);
      if v < UsizeLimit then Some(v) else None
  }

  /** The shortest decimal numeral of `n`. */
  function Decimal(n: nat): (s: string)
    ensures |s| > 0 && forall i :: 0 <= i < |s| ==> IsDigit(s[i])
  {
    var last := ['0' + (n % 10) as char];
    if n < 10 then last else Decimal(n / 10) + last
  }

  /** Reading a numeral back gives the number. */
  lemma {:induction false} DigitsValueOfDecimal(n: nat)
    ensures DigitsValue(Decimal(n)) == n
  {
    var s := Decimal(n);
    if n >= 10 {
      DigitsValueOfDecimal(n / 10);
      assert s[..|s| - 1] == Decimal(n / 10);
    }
  }

  /** Every number that fits in a `usize` is parsed from its numeral, with or without '+'. */
  lemma ParseDecimal(n: nat)
    requires n < UsizeLimit
    ensures ParseUsize(Decimal(n)) == Some(n)
    ensures ParseUsize("+" + Decimal(n)) == Some(n)
  {
    DigitsValueOfDecimal(n);
    assert ("+" + Decimal(n))[1..] == Decimal(n);
  }

  /** `UserReaction::from_str`: a number is a turn, "q" or "Q" quits, anything else is an error. */
  function ReactionFromStr(line: string): (r: Result<UserReaction, ()>)
    ensures r == Ok(Quit) <==> line == "q" || line == "Q"
    ensures forall n: nat :: r == Ok(Turn(n)) <==> ParseUsize(line) == Some(n)
  {
    match ParseUsize(line)
    case Some(turn) => Ok(Turn(turn))
    case None => if line == "q" || line == "Q" then Ok(Quit) else Err(())
  }

  /** The validator in `ask_user_turn`: quitting is always accepted, a turn only for a
      key 1 to 9 whose cell is empty. The key is looked up only once it is known to be
      in range. */
  function AcceptsReaction(board: Board, reaction: UserReaction): (ok: bool)
    ensures ok <==> (reaction.Quit? ||
      (1 <= reaction.n <= 9 && exists idx :: 0 <= idx < 9 && Numpad[idx] == reaction.n && board[idx] == None))
  {
    match reaction
    case Quit => true
    case Turn(turn) => turn > 0 && turn <= 9 && board[NumpadToIdx(turn)] == None
  }

  /** The in-place rewrite in `ask_user_turn` of an accepted key into a cell index.
      The index it yields is on the board and empty, as `Game::make_turn` demands. */
  function KeyToCell(board: Board, reaction: UserReaction): (r: UserReaction)
    requires AcceptsReaction(board, reaction)
    ensures r.Quit? <==> reaction.Quit?
    ensures r.Turn? ==> r.n < 9 && board[r.n] == None && Numpad[r.n] == reaction.n
  {
    match reaction
    case Quit => Quit
    case Turn(key) => Turn(NumpadToIdx(key))
  }

  /** `ask_user_mark` on one trimmed answer line: an empty answer takes `Mark::default`,
      any other answer is parsed as a mark, and an error makes the prompt ask again. */
  function MarkAnswer(line: string): (r: Result<Mark, ()>)
    ensures r == Ok(X) <==> line in {"", "x", "X"}
    ensures r == Ok(O) <==> line in {"o", "O"}
    ensures r.Err? <==> line !in {"", "x", "X", "o", "O"}
  {
    if line == "" then Ok(DefaultMark) else MarkFromStr(line)
  }

  /** The mark of the first player in `new_session`: the user's own mark when the user
      moves first, the other one otherwise, so the user always plays `userMark`. */
  function FirstPlayerMark(userPlayer: Player, userMark: Mark): (m: Mark)
    ensures PlayerMark(m, userPlayer) == userMark
    ensures PlayerMark(m, userPlayer.Next()) == userMark.Opposite()
  {
    match userPlayer
    case First => userMark
    case Second => userMark.Opposite()
  }

  datatype GameResult = Win | Lose | Draw

  datatype SessionResult = Finished(result: GameResult) | Aborted

  /** The user's result for a turn result: a win of the user's player is a win, a win of
      the other player a loss, a draw a draw. */
  function GameResultOf(userPlayer: Player, outcome: TurnResult): (r: GameResult)
    ensures r == Win <==> outcome == WinOf(userPlayer)
    ensures r == Lose <==> outcome == WinOf(userPlayer.Next())
    ensures r == GameResult.Draw <==> outcome == TurnResult.Draw
  {
    match outcome
    case WinOf(player) => if player == userPlayer then Win else Lose
    case Draw => GameResult.Draw
  }

  /** `make_turn`'s answer: no result while the round goes on, otherwise the user's result
      for the turn result. A finished round is never reported as aborted. */
  function SessionOutcome(userPlayer: Player, result: Option<TurnResult>): (r: Option<SessionResult>)
    ensures r.None? <==> result.None?
    ensures result.Some? ==> r == Some(Finished(GameResultOf(userPlayer, result.value)))
  {
    match result
    case None => None
    case Some(outcome) => Some(Finished(GameResultOf(userPlayer, outcome)))
  }

  class GameSession {
    const userPlayer: Player
    const game: Game
    const ai: Otherwise

    ghost predicate Valid()
      reads this, game, game.board, game.boardRepr, ai, ai.strategy
    {
      game.Valid() && ai.Valid() && ai.heuristic == DefaultHeuristic
    }

    /** `GameSession::new_session`, with the user's two answers as parameters. */
    constructor NewSession(makesFirstTurn: bool, userMark: Mark)
      ensures Valid() && fresh(game) && fresh(game.board) && fresh(game.boardRepr)
      ensures fresh(ai) && fresh(ai.strategy)
      ensures game.board[..] == [None, None, None, None, None, None, None, None, None]
      ensures game.boardRepr[..] == EmptyField
      ensures userPlayer == (if makesFirstTurn then First else Second)
      ensures game.firstPlayerMark == FirstPlayerMark(userPlayer, userMark)
      ensures game.currentPlayer == First && game.freeCells == 9
    {
      var user := if makesFirstTurn then First else Second;
      userPlayer := user;
      game := new Game(FirstPlayerMark(user, userMark));
      var strategy := MakeDefaultStrategy();
      ai := strategy;
    }

    /** `GameSession::make_turn` for one turn of a round that is still going. On the user's
        turn `reaction` is what the prompt accepted; quitting aborts and leaves the game as
        it was, a key places the user's mark on its cell. On the computer's turn the default
        strategy picks a cell of the perspective board. The game's turn result becomes the
        user's result. */
    method MakeTurn(reaction: UserReaction) returns (r: Option<SessionResult>)
      requires Valid()
      requires game.freeCells > 0
      requires game.currentPlayer == userPlayer ==> AcceptsReaction(game.board[..], reaction)
      modifies game, game.board, game.boardRepr, ai.strategy
      ensures Valid()
      ensures old(game.currentPlayer) == userPlayer && reaction.Quit? ==>
        r == Some(Aborted) && game.board[..] == old(game.board[..])
        && game.currentPlayer == old(game.currentPlayer) && game.freeCells == old(game.freeCells)
      ensures !(old(game.currentPlayer) == userPlayer && reaction.Quit?) ==>
        && game.currentPlayer == old(game.currentPlayer).Next()
        && game.freeCells == old(game.freeCells) - 1
        && (exists turn :: 0 <= turn < 9 && old(game.board[turn]) == None
              && game.board[..] == old(game.board[..])[turn := Some(PlayerMark(game.firstPlayerMark, old(game.currentPlayer)))]
              && (old(game.currentPlayer) == userPlayer ==> Numpad[turn] == reaction.n))
        && r == SessionOutcome(userPlayer, Outcome(game.board[..], game.freeCells, game.firstPlayerMark))
      ensures old(game.currentPlayer) != userPlayer && Hint(DefaultHeuristic, old(game.boardRepr[..])).Some? ==>
        game.board[..] == old(game.board[..])[Hint(DefaultHeuristic, old(game.boardRepr[..])).value :=
          Some(PlayerMark(game.firstPlayerMark, old(game.currentPlayer)))]
    {
      var result;
      if userPlayer == game.currentPlayer {
        match KeyToCell(game.board[..], reaction)
        case Turn(idx) =>
          result := game.MakeTurn(idx);
        case Quit =>
          return Some(Aborted);
      } else {
        CountPositive(game.board[..], None);
        var free :| 0 <= free < 9 && game.board[free] == None;
        PerspectiveMeaning(game.board[..], game.CurrentMark(), free);
        assert IsFree(game.boardRepr[..], free);
        var turn := ai.Guide(game.boardRepr[..]);
        PerspectiveMeaning(game.board[..], game.CurrentMark(), turn);
        result := game.MakeTurn(turn);
      }
      r := SessionOutcome(userPlayer, result);
    }
  }
}
