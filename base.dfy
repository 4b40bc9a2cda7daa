/**
 * Shared vocabulary: optional values, results standing for Python's raised
 * exceptions, grid positions and the Manhattan distance used throughout the
 * game.
 */
module Base {

  datatype Option<T> = None | Some(value: T)

  /** `Err` carries the name of the exception the Python code raises. */
  datatype Result<T> = Ok(value: T) | Err(error: string)

  /** A grid cell as `[row, column]`. */
  datatype Pos = Pos(row: int, col: int)

  function Abs(x: int): (r: nat)
    ensures r == x || r == -x
  {
    if x < 0 then -x else x
  }

  /** `abs(a[0] - b[0]) + abs(a[1] - b[1])`. */
  function Manhattan(a: Pos, b: Pos): (d: nat)
    ensures d == 0 <==> a == b
    ensures d == Abs(b.row - a.row) + Abs(b.col - a.col)
  {
    Abs(a.row - b.row) + Abs(a.col - b.col)
  }

  /** A single orthogonal step changes the distance to any cell by one. */
  lemma StepDistance(a: Pos, b: Pos, goal: Pos)
    requires Manhattan(a, b) == 1
    ensures Manhattan(a, goal) <= Manhattan(b, goal) + 1
    ensures Manhattan(b, goal) <= Manhattan(a, goal) + 1
  {
  }

  /** Python's `s[i]` for `-|s| <= i < |s|`: a negative index counts from the end. */
  function PyIndex<T>(s: seq<T>, i: int): (x: T)
    requires -|s| <= i < |s|
    ensures i >= 0 ==> x == s[i]
    ensures i < 0 ==> x == s[|s| + i]
  {
    if i >= 0 then s[i] else s[|s| + i]
  }
}
