/** The computer player's decision engine: heuristics that may suggest a cell,
    combinators that chain them, and the random fallback that always answers. */
module Strategy {
  import opened Wrappers
  import opened Battlefield

  /** How many of the line's three cells hold `c`. */
  function Occurrences(line: IndexedLine, c: Cell): (n: nat)
    ensures n <= 3
  {
    (if line.figures.0 == c then 1 else 0)
    + (if line.figures.1 == c then 1 else 0)
    + (if line.figures.2 == c then 1 else 0)
  }

  /** The line holds two figures `fig` and one empty cell, in any arrangement. */
  ghost predicate ClosableBy(line: IndexedLine, fig: Figure)
  {
    Occurrences(line, Some(fig)) == 2 && Occurrences(line, None) == 1
  }

  /** `idx` is the index paired with an empty cell of the line. */
  ghost predicate GapAt(line: IndexedLine, idx: nat)
  {
    || (line.figures.0 == None && line.indices.0 == idx)
    || (line.figures.1 == None && line.indices.1 == idx)
    || (line.figures.2 == None && line.indices.2 == idx)
  }

  /** `close_own_line`: the empty cell of a line holding two own figures. */
  function ClosingOwnCell(line: IndexedLine): (hint: Option<nat>)
    ensures hint.Some? <==> ClosableBy(line, Own)
    ensures hint.Some? ==> GapAt(line, hint.value)
  {
    match line
    case IndexedLine((i, _, _), (None, Some(Own), Some(Own))) => Some(i)
    case IndexedLine((_, i, _), (Some(Own), None, Some(Own))) => Some(i)
    case IndexedLine((_, _, i), (Some(Own), Some(Own), None)) => Some(i)
    case _ => None
  }

  /** `close_enemy_line`: the empty cell of a line holding two enemy figures. */
  function ClosingEnemyCell(line: IndexedLine): (hint: Option<nat>)
    ensures hint.Some? <==> ClosableBy(line, Enemy)
    ensures hint.Some? ==> GapAt(line, hint.value)
  {
    match line
    case IndexedLine((i, _, _), (None, Some(Enemy), Some(Enemy))) => Some(i)
    case IndexedLine((_, i, _), (Some(Enemy), None, Some(Enemy))) => Some(i)
    case IndexedLine((_, _, i), (Some(Enemy), Some(Enemy), None)) => Some(i)
    case _ => None
  }

  /** The cases the program's own test checks. For the diagonal with its gap first the
      answer is the gap's index 0, which is what the match arms compute. */
  lemma ClosingLineExamples()
    ensures ClosingOwnCell(IndexedLine((0, 1, 2), (O_, None, O_))) == Some(1)
    ensures ClosingOwnCell(IndexedLine((0, 4, 8), (None, O_, O_))) == Some(0)
    ensures ClosingOwnCell(IndexedLine((2, 5, 8), (O_, E_, None))) == None
    ensures ClosingEnemyCell(IndexedLine((2, 4, 6), (E_, E_, None))) == Some(6)
    ensures ClosingEnemyCell(IndexedLine((1, 4, 7), (None, E_, E_))) == Some(1)
    ensures ClosingEnemyCell(IndexedLine((2, 4, 6), (E_, None, O_))) == None
  {
  }

  /** The program's test expects index 4 for the diagonal 0-4-8 with its gap at cell 0;
      the function answers with the gap, so that expectation does not hold. */
  lemma DiagonalTestExpectation()
    ensures ClosingOwnCell(IndexedLine((0, 4, 8), (None, O_, O_))) != Some(4)
    ensures GapAt(IndexedLine((0, 4, 8), (None, O_, O_)), 0)
  {
  }

  /** The heuristics of the program and the `Or` combinator over them. */
  datatype Heuristic =
    | CloseOwnLine
    | CloseEnemyLine
    | TakeCenterOnEmptyBoard
    | Or(first: Heuristic, second: Heuristic)

  /** `Heuristic::hint`. Whatever index a heuristic suggests names an empty cell. */
  function Hint(h: Heuristic, field: Battlefield): (hint: Option<nat>)
    ensures hint.Some? ==> IsFree(field, hint.value)
  {
    match h
    case CloseOwnLine =>
      var lines := AllLines(field);
      var r := FindMap(lines, ClosingOwnCell);
      assert r.Some? ==> IsFree(field, r.value) by {
        if r.Some? {
          var n :| 0 <= n < |lines| && ClosingOwnCell(lines[n]) == r && FirstHit(lines, ClosingOwnCell, n);
          assert ReadFrom(lines[n], field);
        }
      }
      r
    case CloseEnemyLine =>
      var lines := AllLines(field);
      var r := FindMap(lines, ClosingEnemyCell);
      assert r.Some? ==> IsFree(field, r.value) by {
        if r.Some? {
          var n :| 0 <= n < |lines| && ClosingEnemyCell(lines[n]) == r && FirstHit(lines, ClosingEnemyCell, n);
          assert ReadFrom(lines[n], field);
        }
      }
      r
    case TakeCenterOnEmptyBoard =>
      if forall i :: 0 <= i < 9 ==> field[i] == None then Some(4) else None
    case Or(first, second) =>
      var h1 := Hint(first, field);
      if h1.Some? then h1 else Hint(second, field)
  }

  /** Line `n` is the first line, in `AllLines` order, that two figures `fig` and a gap make closable. */
  ghost predicate FirstClosable(field: Battlefield, fig: Figure, n: nat)
  {
    n < 8 && ClosableBy(AllLines(field)[n], fig)
    && forall m :: 0 <= m < n ==> !ClosableBy(AllLines(field)[m], fig)
  }

  ghost predicate AnyClosable(field: Battlefield, fig: Figure)
  {
    exists n :: 0 <= n < 8 && ClosableBy(AllLines(field)[n], fig)
  }

  /** `idx` is the gap of the first line that `fig` can close. */
  ghost predicate ClosesFirst(field: Battlefield, fig: Figure, idx: nat)
  {
    exists n: nat :: FirstClosable(field, fig, n) && GapAt(AllLines(field)[n], idx)
  }

  /** `CloseOwnLine` answers exactly when some line has two own figures and a gap,
      and then with the gap of the first such line. */
  lemma CloseOwnLineHint(field: Battlefield)
    ensures Hint(CloseOwnLine, field).None? <==> !AnyClosable(field, Own)
    ensures Hint(CloseOwnLine, field).Some? ==> ClosesFirst(field, Own, Hint(CloseOwnLine, field).value)
  {
    var lines := AllLines(field);
    var r := FindMap(lines, ClosingOwnCell);
    if r.Some? {
      var n :| 0 <= n < |lines| && ClosingOwnCell(lines[n]) == r && FirstHit(lines, ClosingOwnCell, n);
      assert FirstClosable(field, Own, n);
    }
  }

  /** `CloseEnemyLine` answers exactly when some line has two enemy figures and a gap,
      and then with the gap of the first such line. */
  lemma CloseEnemyLineHint(field: Battlefield)
    ensures Hint(CloseEnemyLine, field).None? <==> !AnyClosable(field, Enemy)
    ensures Hint(CloseEnemyLine, field).Some? ==> ClosesFirst(field, Enemy, Hint(CloseEnemyLine, field).value)
  {
    var lines := AllLines(field);
    var r := FindMap(lines, ClosingEnemyCell);
    if r.Some? {
      var n :| 0 <= n < |lines| && ClosingEnemyCell(lines[n]) == r && FirstHit(lines, ClosingEnemyCell, n);
      assert FirstClosable(field, Enemy, n);
    }
  }

  /** `TakeCenterOnEmptyBoard` suggests the centre on an empty board and declines otherwise. */
  lemma TakeCenterHint(field: Battlefield)
    ensures Hint(TakeCenterOnEmptyBoard, field) == (if field == EmptyField then Some(4) else None)
  {
    if forall i :: 0 <= i < 9 ==> field[i] == None {
      assert field == EmptyField;
    }
  }

  /** `Or` keeps the first heuristic's hint whenever there is one, whatever the second says. */
  lemma OrPrefersFirst(h1: Heuristic, h2: Heuristic, field: Battlefield)
    ensures Hint(h1, field).Some? ==> Hint(Or(h1, h2), field) == Hint(h1, field)
    ensures Hint(h1, field).None? ==> Hint(Or(h1, h2), field) == Hint(h2, field)
  {
  }

  /** The chain built by `make_default_strategy` before its random fallback. */
  const DefaultHeuristic: Heuristic := Or(Or(CloseOwnLine, CloseEnemyLine), TakeCenterOnEmptyBoard)

  /** Priorities of the default chain: complete an own line, else block an enemy line,
      else open in the centre of an empty board, else decline. */
  lemma DefaultHintPriority(field: Battlefield)
    ensures AnyClosable(field, Own) ==>
      Hint(DefaultHeuristic, field).Some? && ClosesFirst(field, Own, Hint(DefaultHeuristic, field).value)
    ensures !AnyClosable(field, Own) && AnyClosable(field, Enemy) ==>
      Hint(DefaultHeuristic, field).Some? && ClosesFirst(field, Enemy, Hint(DefaultHeuristic, field).value)
    ensures !AnyClosable(field, Own) && !AnyClosable(field, Enemy) ==>
      Hint(DefaultHeuristic, field) == (if field == EmptyField then Some(4) else None)
  {
    CloseOwnLineHint(field);
    CloseEnemyLineHint(field);
    TakeCenterHint(field);
  }

  /** On an empty board the default chain opens in the centre. */
  lemma DefaultOpensInCentre()
    ensures Hint(DefaultHeuristic, EmptyField) == Some(4)
  {
    DefaultHintPriority(EmptyField);
  }

  /** The random fallback: `places` is the scratch list of free indices, empty between calls. */
  class RandomFree {
    var places: seq<nat>

    ghost predicate Valid()
      reads this
    {
      places == []
    }

    constructor ()
      ensures Valid()
    {
      places := [];
    }

    /** `RandomFree::guide`: collect the free indices, pick any one of them (the random
        draw is a nondeterministic choice), clear the scratch list. There must be a free cell. */
    method Guide(field: Battlefield) returns (turn: nat)
      requires Valid()
      requires HasFree(field)
      modifies this
      ensures Valid()
      ensures IsFree(field, turn)
    {
      var i := 0;
      while i < 9
        invariant 0 <= i <= 9
        invariant forall x: nat :: x in places <==> x < i && field[x] == None
      {
        if field[i] == None {
          places := places + [i];
        }
        i := i + 1;
      }
      var free :| IsFree(field, free);
      assert free in places;
      turn :| turn in places;
      places := [];
    }
  }

  /** `Otherwise`: the heuristic's hint when there is one, else the fallback's guidance. */
  class Otherwise {
    const heuristic: Heuristic
    const strategy: RandomFree

    ghost predicate Valid()
      reads this, strategy
    {
      strategy.Valid()
    }

    constructor (heuristic: Heuristic, strategy: RandomFree)
      requires strategy.Valid()
      ensures this.heuristic == heuristic && this.strategy == strategy
      ensures Valid()
    {
      this.heuristic := heuristic;
      this.strategy := strategy;
    }

    /** `Otherwise::guide`. The fallback runs, and needs a free cell, only when the heuristic declines. */
    method Guide(field: Battlefield) returns (turn: nat)
      requires Valid()
      requires Hint(heuristic, field).Some? || HasFree(field)
      modifies strategy
      ensures Valid()
      ensures IsFree(field, turn)
      ensures Hint(heuristic, field).Some? ==> turn == Hint(heuristic, field).value
    {
      var hint := Hint(heuristic, field);
      if hint.Some? {
        turn := hint.value;
      } else {
        turn := strategy.Guide(field);
      }
    }
  }

  /** `make_default_strategy`: own line, then enemy line, then centre, then random. */
  method MakeDefaultStrategy() returns (s: Otherwise)
    ensures fresh(s) && fresh(s.strategy) && s.Valid()
    ensures s.heuristic == DefaultHeuristic
  {
    var fallback := new RandomFree();
    s := new Otherwise(DefaultHeuristic, fallback);
  }
}
