# tttxo decision engine and game state machine, in Dafny

A model of the core of tttxo: a console tic-tac-toe game in Rust where a person plays
against the computer. The model covers four parts.

- **The perspective board** (`battlefield.dfy`, module `Battlefield`). The computer
  reasons on nine cells that hold an own figure, an enemy figure or nothing. It reads
  the eight lines off that board, each with the indices of its three cells.
- **The heuristic engine** (`strategy.dfy`, module `Strategy`). Two line predicates find
  the gap of a line holding two own figures, or two enemy figures. Three heuristics sit
  on top of them: close an own line, block an enemy line, take the centre of an empty
  board. `Or` chains two heuristics. `Otherwise` falls back to a strategy that always
  answers. `RandomFree` is that fallback: it picks any free cell.
- **The game state machine** (`game.dfy`, module `Game`). This part keeps the X/O board,
  the perspective board, the player to move and the free-cell count, and it detects
  complete lines. `Game.MakeTurn` writes both boards, reverses the perspective board in
  place for the next mover, passes the turn and reports a draw or a win.
- **The session helpers** (`game_session.dfy`, module `GameSession`). The numeric-keypad
  key table, the parser for the user's input, the validator that guards
  `Game.MakeTurn`, the choice of the first player's mark and the user's result.

`wrappers.dfy` holds `Option`, `Result`, `find_map` over a sequence (`FindMap`) and
counting (`Count`). `scenarios.dfy` states the results of two whole games.

Two behaviours of the program are kept as written:

- `Board::all_lines` lists the cells (0, 4, 5) as its second row instead of the middle
  row (3, 4, 5) (src/game.rs:51). Three marks on the middle row are never a win
  (`Game.MiddleRowIsNotChecked`). Three marks on 0, 4 and 5 are
  (`Game.BentLineWins`). The perspective board's `all_lines` has the right rows.
- `make_turn` checks for a full board before it checks the lines. A move that fills the
  last cell is a draw even when it completes a line (`Game.LastMoveWinIsDraw`).

The comments `//rows`, `//cols` and `//diagonals` at src/game.rs:49-59 label the lines,
but the second "row" is (0, 4, 5). The model follows the code, not the labels.

The class invariant `Game.Game.Valid` keeps three facts about the two boards and the
free-cell count. `freeCells` is the number of empty cells. The perspective board is the
X/O board seen by the mark about to move: an empty cell stays empty, the mover's mark
becomes an own figure and the other mark an enemy figure. The first player has made one
move more than the second exactly when the second player is to move.

## Model

| member | source | states |
|---|---|---|
| Battlefield.Reverse | src/battlefield.rs:9-16 | reversing a figure always yields the other figure |
| Battlefield.ReverseInvolution | src/battlefield.rs:19-30 | reversing twice gives back the figure |
| Battlefield.Index | src/battlefield.rs:40-43 | the line's indices are `[i, j, k]` and each of its figures is the field's cell at the paired index |
| Battlefield.AllLines | src/battlefield.rs:46-74 | eight lines with the index triples 012, 345, 678, 036, 147, 258, 048, 246 in that order; each line's figures are read off the field; every index is below 9 and the three indices of a line are distinct |
| Battlefield.Reversed | src/game.rs:145-149 | reversing the whole board keeps the empty cells empty and reverses every figure |
| Wrappers.FindMap | strategy.rs:58 | `find_map` yields nothing exactly when the function declines every element; otherwise it yields the function's answer for an element before which every element was declined |
| Strategy.ClosingOwnCell | strategy.rs:25-32 | there is a hint exactly when the line holds two own figures and one empty cell, in any order; the hint is the index paired with the empty cell |
| Strategy.ClosingEnemyCell | strategy.rs:34-41 | the same with enemy figures |
| Strategy.ClosingLineExamples | strategy.rs:44-52 | the six cases of the program's own test, with the gap's index 0 as the answer for the diagonal 0-4-8 whose gap comes first |
| Strategy.DiagonalTestExpectation | strategy.rs:46 | for the diagonal 0-4-8 with its gap at cell 0, the function does not answer 4; cell 0 is the gap |
| Strategy.Hint | strategy.rs:5-10 | every heuristic, chained or not, only ever suggests an empty cell of the field |
| Strategy.CloseOwnLineHint | strategy.rs:56-60 | `CloseOwnLine` declines exactly when no line has two own figures and a gap; otherwise it names the gap of the first such line in `AllLines` order |
| Strategy.CloseEnemyLineHint | strategy.rs:64-68 | the same for `CloseEnemyLine` and enemy figures |
| Strategy.TakeCenterHint | strategy.rs:72-80 | `TakeCenterOnEmptyBoard` suggests 4 exactly when the field is empty, and declines otherwise |
| Strategy.OrPrefersFirst | strategy.rs:91-93 | `Or` returns the first hint whenever there is one, and the second hint only when the first declines |
| Strategy.DefaultHintPriority | strategy.rs:146-151 | the default chain closes an own line if it can; otherwise it blocks the first enemy line; otherwise it takes 4 on an empty board; otherwise it declines |
| Strategy.DefaultOpensInCentre | strategy.rs:146-151 | on an empty board the default chain suggests the centre, cell 4 |
| Strategy.RandomFree.constructor | strategy.rs:119-124 | a new fallback has an empty scratch list |
| Strategy.RandomFree.Guide | strategy.rs:128-143 | needs a free cell; returns an index below 9 whose cell is empty; the scratch list is empty again afterwards |
| Strategy.Otherwise.constructor | strategy.rs:20-22 | pairs a heuristic with the fallback |
| Strategy.Otherwise.Guide | strategy.rs:107-111 | returns the heuristic's hint when there is one, else the fallback's pick; either way the cell is empty |
| Strategy.MakeDefaultStrategy | strategy.rs:146-151 | builds own line, then enemy line, then centre, then the random fallback |
| Game.Mark.Opposite | src/game.rs:28-35 | the opposite mark is always the other mark |
| Game.OppositeInvolution | src/game.rs:28-35 | `opposite` twice gives back the mark |
| Game.MarkFromStr | src/game.rs:12-18 | "x", "X", "o" and "O" parse, "x"/"X" to X and "o"/"O" to O; every other string is an error |
| Game.PlayerMark | src/game.rs:121-126 | a player plays the first mark exactly when it is the first player; the second player plays the opposite mark |
| Game.Game.CurrentMark | src/game.rs:121-126 | the current mark is the mark the player to move plays |
| Game.Player.Next | src/game.rs:85-92 | the next player is always the other player |
| Game.NextInvolution | src/game.rs:85-92 | `next` twice gives back the player |
| Game.BoardLines | src/game.rs:42-64 | the eight lines read the cells 012, 045, 678, 036, 147, 258, 048, 246 of the board, in that order |
| Game.CompleteLine | src/game.rs:67-76 | yields mark m exactly when all three cells hold m |
| Game.MarkOwner | src/game.rs:128-134 | the owner of a mark is the player who plays it |
| Game.OwnerOfPlayerMark | src/game.rs:121-134 | `owner_of` undoes `current_mark`, and the two players play opposite marks |
| Game.OutcomeMeaning | src/game.rs:152-159 | the result is a draw exactly when no cell is free; with cells free there is no result exactly when no line is complete; a win names the owner of the first complete line |
| Game.LastMoveWinIsDraw | src/game.rs:152-155 | a full board whose first line is three X is reported as a draw |
| Game.MiddleRowIsNotChecked | src/game.rs:51 | three X on cells 3, 4, 5 give no result |
| Game.BentLineWins | src/game.rs:51 | three X on cells 0, 4, 5 win for the first player |
| Game.PerspectiveMeaning | src/game.rs:143-149 | a perspective cell is empty exactly when the X/O cell is; it is an own figure exactly when the cell holds the mover's mark, and an enemy figure exactly when it holds the other mark |
| Game.ReversedPerspective | src/game.rs:145-149 | reversing the mover's view gives the view of the other mark |
| Game.PerspectiveOfMove | src/game.rs:143-144 | placing the mover's mark shows up as an own figure in the mover's view |
| Game.Game.constructor | src/game.rs:109-119 | both boards empty, the first player to move, nine free cells, the chosen first mark; the invariant holds |
| Game.Game.OwnerOf | src/game.rs:128-134 | names the player who plays the mark; that is the player to move exactly when the mark is the current mark |
| Game.Game.MakeTurn | src/game.rs:136-160 | needs an index below 9 whose cell is empty; only that cell of the X/O board changes, and it gets the mover's mark; the perspective board gets an own figure there and is then reversed; the turn passes; one cell fewer is free; the invariant is kept; the result is `Outcome` of the new board |
| GameSession.NumpadToIdx | src/game_session.rs:12-17 | for a key from 1 to 9, the one cell whose keypad key it is |
| GameSession.ParseUsize | src/game_session.rs:24 | a parsed number fits in 64 bits and comes from a line of digits, with at most a leading '+' |
| GameSession.DigitsValueOfDecimal | src/game_session.rs:24 | the digits of a number read back as that number |
| GameSession.ParseDecimal | src/game_session.rs:24 | every number below 2^64 is parsed from its numeral, with or without a leading '+' |
| GameSession.ReactionFromStr | src/game_session.rs:23-29 | "q" and "Q" quit; a line that parses as a number n is the turn n; everything else is an error |
| GameSession.AcceptsReaction | src/game_session.rs:37-40 | quitting is accepted; a key is accepted exactly when it is from 1 to 9 and the cell it labels is empty |
| GameSession.KeyToCell | src/game_session.rs:43-45 | an accepted key becomes the index of its cell, which is below 9 and empty, as `make_turn` demands |
| GameSession.MarkAnswer | src/game_session.rs:49-55 | an empty answer is X, the default mark of src/game.rs:21-25; "x"/"X" is X, "o"/"O" is O; anything else is an error |
| GameSession.FirstPlayerMark | src/game_session.rs:124-128 | the user's player plays the user's mark and the other player the opposite mark |
| GameSession.GameResultOf | src/game_session.rs:153-160 | a win of the user's player is `Win`, a win of the other player is `Lose`, a draw is `Draw` |
| GameSession.GameSession.NewSession | src/game_session.rs:117-138 | the user's player comes from the first-turn answer; the game starts empty, with the mark from `FirstPlayerMark`; the computer uses the default strategy; the game, its boards, the strategy and its fallback are new objects owned by the session, so the session can make turns |
| GameSession.SessionOutcome | src/game_session.rs:151-161 | no session result exactly while the game has no turn result; a turn result becomes `Finished` with the user's result from `GameResultOf`, never `Aborted` |
| GameSession.GameSession.MakeTurn | src/game_session.rs:140-162 | quitting aborts and leaves the game unchanged; otherwise one empty cell gets the mover's mark (on the user's turn, the cell of the user's key; on the computer's turn, the default chain's hint on the perspective board whenever there is one), the turn passes and the game's result becomes the user's result |
| Scenarios.NoResultYet | src/game.rs:157-159 | with cells free and no line of the table filled by one mark, a move has no result |
| Scenarios.ColumnGameBoards | src/game.rs:143-144 | X at 0, 3, 6 against O at 1, 4: each board follows from the one before by one move |
| Scenarios.ColumnGameOutcomes | src/game.rs:152-159 | in that game no move has a result until the third X, which wins for the first player |
| Scenarios.DrawnGameBoards | src/game.rs:143-144 | the nine boards of a drawn game follow each other by one move each |
| Scenarios.DrawnGameOutcomes | src/game.rs:152-159 | in that game no move has a result until the ninth, which is a draw |
| Scenarios.CornerOpeningGoesOn | src/game.rs:152-159 | one O in the top-left corner decides nothing |
| Scenarios.CentreOpeningGoesOn | src/game.rs:152-159 | one X in the centre decides nothing |
| Scenarios.UserOpensTopLeft | src/main.rs:20-25 | a new session where the user moves first with O, then one turn with key 7: the top-left cell holds O and the round goes on |
| Scenarios.ComputerOpensInCentre | src/main.rs:20-25 | a new session where the user moves second with O, then one turn: the computer plays X in the centre and the round goes on |

## Findings

| source | as written | input that shows it | evidently intended | confidence | as-written member | corrected member |
|---|---|---|---|---|---|---|
| strategy.rs:46 | the test expects `close_own_line` to answer `Some(4)` | the line `([0, 4, 8], [__, O_, O_])`: the first match arm binds the index paired with the gap, 0 | `Some(0)`, the index of the empty cell, as the match arms and the `Heuristic::hint` contract say | high; not executed | Strategy.DiagonalTestExpectation | Strategy.ClosingLineExamples |

## Left out

- Console input and output: src/ask.rs (prompt and retry loops, the yes/no answer), src/main.rs (the replay loop), `print_game_board` and the `Display` text of `GameResult`. The user's answers (who moves first, which mark, the accepted reaction) are parameters of the session; how one answer line becomes a mark is `GameSession.MarkAnswer`.
- Strategy.RandomFree.Guide: the random draw is a nondeterministic choice of any collected free index. Uniformity and the `ThreadRng` state are not modelled.
- Trait objects and generics: heuristics are a datatype interpreted by `Strategy.Hint`. `Otherwise` holds a `RandomFree` as its fallback, the only strategy the program puts there. The builder methods `or` and `otherwise` are the datatype constructor `Or` and the `Otherwise` constructor.
- Figure::reverse works through `&mut self`. The model applies `Battlefield.Reverse` to each slot of the perspective array inside `Game.Game.MakeTurn`, which is where the program calls it.
- GameSession.ParseUsize: assumes a 64-bit `usize` and accepts what Rust's unsigned parser accepts (an optional '+', then decimal digits). The trimming of the input line belongs to src/ask.rs.
- GameSession.GameSession.MakeTurn: requires a game that is not over (a free cell left). The replay loop in src/main.rs stops at the first result, so it never calls a finished game. On the user's turn, the reaction is one the validator accepted, as the prompt loop guarantees.
- Scenarios.ColumnGameOutcomes: states the results on the successive boards that `Game.Game.MakeTurn` produces. It does not drive one `Game` object through the moves. The session objects are driven through the first turn only (`Scenarios.UserOpensTopLeft`, `Scenarios.ComputerOpensInCentre`).
- The `input_buf` string of `GameSession` is only I/O scratch space.
