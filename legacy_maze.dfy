/**
 * The repository's older `generate_maze(columns, rows)` (maze.py), written
 * for Python 2. Its `/` on integers is floor division, which for the
 * positive divisors used here is Dafny's `/`; it returns `(row, col)`
 * tuples where the newer generator returns `[row, col]` lists, and it
 * tests `item is '*'`, which CPython's interned one-character strings make
 * the same as `==`. The carving loop and the picture are otherwise those
 * of `_generate`, so the model runs the same carving.
 */
module LegacyMaze {
  import opened Base
  import Maze

  /**
   * `generate_maze(columns, rows)`; `sx`, `sy` and `shuffles` stand for
   * `random.randrange(c)`, `random.randrange(r)` and the `random.shuffle`
   * calls. `randrange(0)` raises `ValueError` below three rows or columns.
   */
  method GenerateMaze(columns: int, rows: int, sx: int, sy: int, shuffles: nat -> Maze.Shuffle)
    returns (res: Result<seq<Pos>>)
    requires columns >= 3 && rows >= 3 ==> 0 <= sx < (columns - 1) / 2 && 0 <= sy < (rows - 1) / 2
    ensures res.Err? <==> columns < 3 || rows < 3
    ensures res.Err? ==> res.error == "ValueError"
    ensures res.Ok? ==> |res.value| == 2 * ((rows - 1) / 2 + 1) * ((columns - 1) / 2 + 1)
    ensures res.Ok? ==> forall k :: 0 <= k < |res.value| ==> 0 <= res.value[k].row < rows && 0 <= res.value[k].col < columns
    ensures res.Ok? ==> forall a, b :: 0 <= a < b < |res.value| ==>
      Maze.RowMajor(res.value[a], columns) < Maze.RowMajor(res.value[b], columns)
    ensures res.Ok? ==> forall a, b :: 0 <= a < b < |res.value| ==> res.value[a] != res.value[b]
  {
    res := Maze.Generate(rows, columns, sx, sy, shuffles);
  }
}
