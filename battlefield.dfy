/** The board as seen by the player about to move: every occupied cell is
    either that player's own figure or the enemy's. */
module Battlefield {
  import opened Wrappers

  datatype Figure = Own | Enemy

  /** `Figure::reverse`: own figures become enemy figures and vice versa. */
  function Reverse(f: Figure): (r: Figure)
    ensures r != f
  {
    match f
    case Own => Enemy
    case Enemy => Own
  }

  /** Reversing twice gives back the figure. */
  lemma ReverseInvolution(f: Figure)
    ensures Reverse(Reverse(f)) == f
  {
  }

  type Cell = Option<Figure>

  const O_: Cell := Some(Own)
  const E_: Cell := Some(Enemy)

  /** Nine cells in row-major order, indices 0 to 8. */
  type Battlefield = cells: seq<Cell> | |cells| == 9
    witness [None, None, None, None, None, None, None, None, None]

  const EmptyField: Battlefield := [None, None, None, None, None, None, None, None, None]

  predicate IsFree(field: Battlefield, i: nat)
  {
    i < 9 && field[i] == None
  }

  ghost predicate HasFree(field: Battlefield)
  {
    exists i :: IsFree(field, i)
  }

  /** A line of three cells together with the absolute index of each cell. */
  datatype IndexedLine = IndexedLine(indices: (nat, nat, nat), figures: (Cell, Cell, Cell))

  function Indices(line: IndexedLine): (t: seq<nat>)
    ensures |t| == 3
  {
    [line.indices.0, line.indices.1, line.indices.2]
  }

  function Figures(line: IndexedLine): (t: seq<Cell>)
    ensures |t| == 3
  {
    [line.figures.0, line.figures.1, line.figures.2]
  }

  /** Each figure of `line` is the content of `field` at the index paired with it. */
  ghost predicate ReadFrom(line: IndexedLine, field: Battlefield)
  {
    forall k :: 0 <= k < 3 ==> Indices(line)[k] < 9 && Figures(line)[k] == field[Indices(line)[k]]
  }

  /** `Battlefield::index`. */
  function Index(field: Battlefield, i: nat, j: nat, k: nat): (line: IndexedLine)
    requires i < 9 && j < 9 && k < 9
    ensures Indices(line) == [i, j, k]
    ensures ReadFrom(line, field)
  {
    IndexedLine((i, j, k), (field[i], field[j], field[k]))
  }

  function Rows(field: Battlefield): (rows: seq<IndexedLine>)
    ensures |rows| == 3
  {
    [Index(field, 0, 1, 2), Index(field, 3, 4, 5), Index(field, 6, 7, 8)]
  }

  function Cols(field: Battlefield): (cols: seq<IndexedLine>)
    ensures |cols| == 3
  {
    [Index(field, 0, 3, 6), Index(field, 1, 4, 7), Index(field, 2, 5, 8)]
  }

  function Diags(field: Battlefield): (diags: seq<IndexedLine>)
    ensures |diags| == 2
  {
    [Index(field, 0, 4, 8), Index(field, 2, 4, 6)]
  }

  /** The index triples of the eight lines, rows first, then columns, then diagonals. */
  const LineTable: seq<seq<nat>> :=
    [[0, 1, 2], [3, 4, 5], [6, 7, 8],
     [0, 3, 6], [1, 4, 7], [2, 5, 8],
     [0, 4, 8], [2, 4, 6]]

  predicate Distinct3(t: seq<nat>)
    requires |t| == 3
  {
    t[0] != t[1] && t[0] != t[2] && t[1] != t[2]
  }

  /** `Battlefield::all_lines`: every line is read off the field, the lines come in
      the order of `LineTable`, and each names three distinct cells. */
  function AllLines(field: Battlefield): (lines: seq<IndexedLine>)
    ensures |lines| == 8
    ensures forall n :: 0 <= n < 8 ==> Indices(lines[n]) == LineTable[n]
    ensures forall n :: 0 <= n < 8 ==> ReadFrom(lines[n], field)
    ensures forall n :: 0 <= n < 8 ==> Distinct3(Indices(lines[n]))
  {
    Rows(field) + Cols(field) + Diags(field)
  }

  /** Exchange own and enemy figures on every occupied cell; empty cells stay empty. */
  function Reversed(cells: seq<Cell>): (r: seq<Cell>)
    ensures |r| == |cells|
    ensures forall i :: 0 <= i < |cells| ==> (r[i] == None <==> cells[i] == None)
    ensures forall i :: 0 <= i < |cells| && cells[i].Some? ==> r[i] == Some(Reverse(cells[i].value))
  {
    seq(|cells|, i requires 0 <= i < |cells| => if cells[i].Some? then Some(Reverse(cells[i].value)) else None)
  }
}
