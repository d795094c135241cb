/** The `/exploratory` page: one histogram of the whole dataset per stat, laid
    out on a two-row, three-column subplot grid. */
module Grid {
  import opened Table
  import opened Stats

  const GridRows := 2
  const GridCols := 3

  /** `atributos`: the stats plotted, in panel order. */
  const Attributes: seq<string> := ["HP", "Att", "Def", "Spa", "Spd", "Spe"]

  /** `(i // 3 + 1, i % 3 + 1)`: the 1-based (row, column) of panel `i`. */
  function Cell(i: nat): (c: (int, int))
    ensures i < GridRows * GridCols ==> 1 <= c.0 <= GridRows && 1 <= c.1 <= GridCols
  {
    (i / GridCols + 1, i % GridCols + 1)
  }

  /** The panel index of a grid cell, row by row. */
  function Index(row: int, col: int): (i: int)
    ensures 1 <= row <= GridRows && 1 <= col <= GridCols ==> 0 <= i < GridRows * GridCols
  {
    (row - 1) * GridCols + (col - 1)
  }

  /** No two of the six panels share a cell. */
  lemma CellInjective(i: nat, j: nat)
    requires i < GridRows * GridCols && j < GridRows * GridCols
    ensures Cell(i) == Cell(j) ==> i == j
  {
    assert i == GridCols * (i / GridCols) + i % GridCols;
    assert j == GridCols * (j / GridCols) + j % GridCols;
  }

  /** Every cell of the grid holds a panel: `Index` inverts `Cell`. */
  lemma CellOnto(row: int, col: int)
    requires 1 <= row <= GridRows && 1 <= col <= GridCols
    ensures 0 <= Index(row, col) < GridRows * GridCols
    ensures Cell(Index(row, col)) == (row, col)
  {
  }

  /** One histogram panel: its stat, its cell and the values it bins. */
  datatype Panel = Panel(attribute: string, cell: (int, int), values: seq<int>)

  /** The panels `exploratory_analysis` adds: panel `i` shows `attributes[i]`
      over every row of the dataset, at `Cell(i)`. */
  function Layout(rows: seq<Row>, attributes: seq<string>): (panels: seq<Panel>)
    requires HasStats(rows, attributes)
    ensures |panels| == |attributes|
    ensures |attributes| == GridRows * GridCols ==>
      && (forall i, j :: 0 <= i < j < |panels| ==> panels[i].cell != panels[j].cell)
      && (forall row, col :: 1 <= row <= GridRows && 1 <= col <= GridCols ==>
            exists i :: 0 <= i < |panels| && panels[i].cell == (row, col))
  {
    var panels := seq(|attributes|, i requires 0 <= i < |attributes| =>
      Panel(attributes[i], Cell(i), Column(rows, attributes[i])));
    if |attributes| == GridRows * GridCols then
      assert forall i, j :: 0 <= i < j < |panels| ==> panels[i].cell != panels[j].cell by {
        forall i, j | 0 <= i < j < |panels| ensures panels[i].cell != panels[j].cell {
          CellInjective(i, j);
        }
      }
      assert forall row, col :: 1 <= row <= GridRows && 1 <= col <= GridCols ==>
          exists i :: 0 <= i < |panels| && panels[i].cell == (row, col) by {
        forall row, col | 1 <= row <= GridRows && 1 <= col <= GridCols
          ensures exists i :: 0 <= i < |panels| && panels[i].cell == (row, col)
        {
          CellOnto(row, col);
          var i := Index(row, col);
          assert panels[i].cell == (row, col);
        }
      }
      panels
    else
      panels
  }
}
