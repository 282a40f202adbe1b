/** Writing one example into a grid of blank cells, as both arithmetic datasets'
    `make_dataset` do: `np.tile` of the blank element, the operator symbol at the
    first chosen cell, then one digit per remaining chosen cell. Grids are flattened
    row by row and each cell holds one value. */
module Grids {
  import opened Wrappers
  import opened Sorting

  predicate CellsIn(cells: seq<int>, size: nat)
  {
    forall i :: 0 <= i < |cells| ==> 0 <= cells[i] < size
  }

  /** `grid` is blank but at the chosen cells: the symbol (when it is shown) at the
      first one, the values in order at the others. */
  predicate Filled(grid: seq<int>, size: nat, blank: int, cells: seq<int>, symbol: Option<int>, values: seq<int>)
  {
    |grid| == size && |cells| == |values| + 1 && CellsIn(cells, size)
    && (symbol.Some? ==> grid[cells[0]] == symbol.value)
    && (forall j :: 0 <= j < |values| ==> grid[cells[j + 1]] == values[j])
    && (forall c :: 0 <= c < size && c !in cells[1..] && (symbol.None? || c != cells[0]) ==> grid[c] == blank)
  }

  method FillGrid(size: nat, blank: int, cells: seq<int>, symbol: Option<int>, values: seq<int>)
    returns (grid: array<int>)
    requires |cells| == |values| + 1 && Distinct(cells) && CellsIn(cells, size)
    ensures fresh(grid)
    ensures Filled(grid[..], size, blank, cells, symbol, values)
  {
    grid := new int[size](_ => blank);
    if symbol.Some? {
      grid[cells[0]] := symbol.value;
    }
    for k := 0 to |values|
      invariant symbol.Some? ==> grid[cells[0]] == symbol.value
      invariant forall j :: 0 <= j < k ==> grid[cells[j + 1]] == values[j]
      invariant forall c :: 0 <= c < size && c !in cells[1..k + 1] && (symbol.None? || c != cells[0]) ==> grid[c] == blank
    {
      assert cells[1..k + 2] == cells[1..k + 1] + [cells[k + 1]];
      assert cells[k + 1] != cells[0];
      grid[cells[k + 1]] := values[k];
    }
  }
}
