/**
 * Maze generation and pruning (dlgr/griduniverse/maze.py): walls, the
 * randomized depth-first carving of a half-resolution cell grid, the tiered
 * classification of terminal walls, and the two pruning phases. The random
 * choices (`randrange`, `shuffle`, `sample`) are supplied by the caller.
 */
module Maze {
  import opened Base
  import Dicts

  // ---------------------------------------------------------------------
  // Walls
  // ---------------------------------------------------------------------

  const DefaultColor: seq<real> := [0.5, 0.5, 0.5]

  /** A segment of coloured wall occupying one grid position. */
  datatype Wall = Wall(position: Pos, color: seq<real>)

  /** `Wall(position=pos)`: a wall of the default grey. */
  function NewWall(position: Pos): (w: Wall)
    ensures w.position == position && w.color == DefaultColor
  {
    Wall(position, DefaultColor)
  }

  /** The two serialized forms of a wall: its bare position, or `{position, color}`. */
  datatype WallState = BarePosition(position: Pos) | Colored(position: Pos, color: seq<real>)

  /** `Wall.serialize`. */
  function SerializeWall(w: Wall): (s: WallState)
    ensures s.BarePosition? <==> w.color == DefaultColor
    ensures s.position == w.position
    ensures s.Colored? ==> s.color == w.color
  {
    if w.color != DefaultColor then Colored(w.position, w.color) else BarePosition(w.position)
  }

  // ---------------------------------------------------------------------
  // Sums over rows and grids
  // ---------------------------------------------------------------------

  function SumRow<T>(row: seq<T>, f: T -> nat): nat {
    if row == [] then 0 else f(row[0]) + SumRow(row[1..], f)
  }

  function SumGrid<T>(g: seq<seq<T>>, f: T -> nat): nat {
    if g == [] then 0 else SumRow(g[0], f) + SumGrid(g[1..], f)
  }

  lemma {:induction false} SumRowUpdate<T>(row: seq<T>, x: nat, v: T, f: T -> nat)
    requires x < |row|
    ensures SumRow(row[x := v], f) == SumRow(row, f) - f(row[x]) + f(v)
  {
    if x > 0 {
      assert row[x := v][1..] == row[1..][x - 1 := v];
      SumRowUpdate(row[1..], x - 1, v, f);
    } else {
      assert row[x := v][1..] == row[1..];
    }
  }

  lemma {:induction false} SumGridUpdate<T>(g: seq<seq<T>>, y: nat, x: nat, v: T, f: T -> nat)
    requires y < |g| && x < |g[y]|
    ensures SumGrid(g[y := g[y][x := v]], f) == SumGrid(g, f) - f(g[y][x]) + f(v)
  {
    if y > 0 {
      assert g[y := g[y][x := v]][1..] == g[1..][y - 1 := g[1..][y - 1][x := v]];
      SumGridUpdate(g[1..], y - 1, x, v, f);
    } else {
      assert g[y := g[y][x := v]][1..] == g[1..];
      SumRowUpdate(g[0], x, v, f);
    }
  }

  lemma {:induction false} SumRowConcat<T>(a: seq<T>, b: seq<T>, f: T -> nat)
    ensures SumRow(a + b, f) == SumRow(a, f) + SumRow(b, f)
  {
    if a != [] {
      assert (a + b)[1..] == a[1..] + b;
      SumRowConcat(a[1..], b, f);
    } else {
      assert a + b == b;
    }
  }

  lemma {:induction false} SumGridConcat<T>(a: seq<seq<T>>, b: seq<seq<T>>, f: T -> nat)
    ensures SumGrid(a + b, f) == SumGrid(a, f) + SumGrid(b, f)
  {
    if a != [] {
      assert (a + b)[1..] == a[1..] + b;
      SumGridConcat(a[1..], b, f);
    } else {
      assert a + b == b;
    }
  }

  lemma {:induction false} SumRowBound<T>(row: seq<T>, f: T -> nat, m: nat)
    requires forall k :: 0 <= k < |row| ==> f(row[k]) <= m
    ensures SumRow(row, f) <= m * |row|
  {
    if row != [] {
      SumRowBound(row[1..], f, m);
    }
  }

  lemma {:induction false} SumRowExact<T>(row: seq<T>, f: T -> nat, m: nat)
    requires forall k :: 0 <= k < |row| ==> f(row[k]) == m
    ensures SumRow(row, f) == m * |row|
  {
    if row != [] {
      SumRowExact(row[1..], f, m);
    }
  }

  lemma {:induction false} SumGridBound<T>(g: seq<seq<T>>, f: T -> nat, w: nat)
    requires forall y, k :: 0 <= y < |g| && 0 <= k < |g[y]| ==> f(g[y][k]) <= 1
    requires forall y :: 0 <= y < |g| ==> |g[y]| == w
    ensures SumGrid(g, f) <= |g| * w
  {
    if g != [] {
      SumRowBound(g[0], f, 1);
      SumGridBound(g[1..], f, w);
      assert (|g| - 1) * w + w == |g| * w;
    }
  }

  lemma {:induction false} SumGridExact<T>(g: seq<seq<T>>, f: T -> nat, w: nat)
    requires forall y, k :: 0 <= y < |g| && 0 <= k < |g[y]| ==> f(g[y][k]) == 1
    requires forall y :: 0 <= y < |g| ==> |g[y]| == w
    ensures SumGrid(g, f) == |g| * w
  {
    if g != [] {
      SumRowExact(g[0], f, 1);
      SumGridExact(g[1..], f, w);
      assert (|g| - 1) * w + w == |g| * w;
    }
  }

  // ---------------------------------------------------------------------
  // The carving grids
  // ---------------------------------------------------------------------

  function Mark(b: bool): nat { if b then 1 else 0 }

  /** The number of `'*'` characters in a string. */
  function Stars(s: string): nat {
    if s == [] then 0 else (if s[0] == '*' then 1 else 0) + Stars(s[1..])
  }

  function Len(s: string): nat { |s| }

  lemma {:induction false} StarsConcat(a: string, b: string)
    ensures Stars(a + b) == Stars(a) + Stars(b)
  {
    if a != [] {
      assert (a + b)[1..] == a[1..] + b;
      StarsConcat(a[1..], b);
    } else {
      assert a + b == b;
    }
  }

  /** `"".join(cells)`. */
  function Join(cells: seq<string>): string {
    if cells == [] then "" else cells[0] + Join(cells[1..])
  }

  lemma {:induction false} JoinSums(cells: seq<string>)
    ensures Stars(Join(cells)) == SumRow(cells, Stars)
    ensures |Join(cells)| == SumRow(cells, Len)
  {
    if cells != [] {
      JoinSums(cells[1..]);
      StarsConcat(cells[0], Join(cells[1..]));
    }
  }

  /**
   * The maze picture: the rows of `hor` and `ver` interleaved, each joined,
   * and all their characters in one sequence.
   */
  function Picture(hor: seq<seq<string>>, ver: seq<seq<string>>): string
    requires |hor| == |ver|
  {
    if hor == [] then "" else Join(hor[0]) + Join(ver[0]) + Picture(hor[1..], ver[1..])
  }

  lemma {:induction false} PictureSums(hor: seq<seq<string>>, ver: seq<seq<string>>)
    requires |hor| == |ver|
    ensures Stars(Picture(hor, ver)) == SumGrid(hor, Stars) + SumGrid(ver, Stars)
    ensures |Picture(hor, ver)| == SumGrid(hor, Len) + SumGrid(ver, Len)
  {
    if hor != [] {
      PictureSums(hor[1..], ver[1..]);
      JoinSums(hor[0]);
      JoinSums(ver[0]);
      StarsConcat(Join(hor[0]), Join(ver[0]));
      StarsConcat(Join(hor[0]) + Join(ver[0]), Picture(hor[1..], ver[1..]));
    }
  }

  /** A half-resolution cell `(x, y)`: column `x`, row `y`. */
  datatype Cell = Cell(x: int, y: int)

  /** `random.shuffle` of a four-element list, as the permutation it applies. */
  type Shuffle = p: seq<nat> | multiset(p) == multiset([0, 1, 2, 3]) witness [0, 1, 2, 3]

  lemma ShuffleFacts(p: Shuffle)
    ensures |p| == 4 && forall k :: 0 <= k < 4 ==> p[k] < 4
    ensures forall m :: 0 <= m < 4 ==> m in p
  {
    assert |multiset(p)| == 4;
    forall k | 0 <= k < 4 ensures p[k] < 4 {
      assert p[k] in multiset(p);
    }
    forall m | 0 <= m < 4 ensures m in p {
      assert m in multiset([0, 1, 2, 3]);
      assert m in multiset(p);
    }
  }

  /** The cells of the carving grids: `hor` walls are `Solid` or, once carved, `Half`; `ver` walls are `Half` or, once carved, `Blank`; each row ends in a `Post`. */
  const Solid: string := "**"
  const Half: string := "* "
  const Blank: string := "  "
  const Post: string := "*"

  /** A row of `visited`: the sentinel last column is set, and all of the sentinel last row. */
  ghost predicate VisitedRowOk(row: seq<bool>, y: nat, r: nat, c: nat) {
    |row| == c + 1 && row[c] && (y == r ==> forall x :: 0 <= x < c ==> row[x])
  }

  /** A row of `hor`: `Solid` (wall) or `Half` (carved) per cell, then `Post`. */
  ghost predicate HorRowOk(row: seq<string>, c: nat) {
    |row| == c + 1 && row[c] == Post && forall x :: 0 <= x < c ==> row[x] == Solid || row[x] == Half
  }

  /** A row of `ver`: `Half` (wall) or `Blank` (carved, never in the first column) per cell, then `Post`. */
  ghost predicate VerRowOk(row: seq<string>, c: nat) {
    |row| == c + 1 && row[c] == Post && forall x :: 0 <= x < c ==> row[x] == Half || (x > 0 && row[x] == Blank)
  }

  /** The outer rows of `hor` are never carved. */
  ghost predicate EdgeRow(row: seq<string>, c: nat) {
    |row| == c + 1 && forall x :: 0 <= x < c ==> row[x] == Solid
  }

  /** The grids' shapes. */
  ghost predicate Shape(v: seq<seq<bool>>, hor: seq<seq<string>>, ver: seq<seq<string>>, r: nat, c: nat) {
    |v| == r + 1 && |hor| == r + 1 && |ver| == r + 1 && ver[r] == [] &&
    (forall y :: 0 <= y <= r ==> VisitedRowOk(v[y], y, r, c) && HorRowOk(hor[y], c) && (y < r ==> VerRowOk(ver[y], c))) &&
    EdgeRow(hor[0], c) && EdgeRow(hor[r], c)
  }

  /** A carved wall lies between two visited cells. */
  ghost predicate CarvedVisited(v: seq<seq<bool>>, hor: seq<seq<string>>, ver: seq<seq<string>>, r: nat, c: nat)
    requires Shape(v, hor, ver, r, c)
  {
    (forall y, x :: 1 <= y < r && 0 <= x < c && hor[y][x] == Half ==> v[y - 1][x] && v[y][x]) &&
    (forall y, x :: 0 <= y < r && 1 <= x < c && ver[y][x] == Blank ==> v[y][x - 1] && v[y][x])
  }

  predicate Interior(p: Cell, r: int, c: int) {
    0 <= p.x < c && 0 <= p.y < r
  }

  /** Every in-range orthogonal neighbour of `p` is visited. */
  ghost predicate NbrsVisited(v: seq<seq<bool>>, p: Cell, r: nat, c: nat)
    requires |v| == r + 1 && (forall y :: 0 <= y <= r ==> |v[y]| == c + 1) && Interior(p, r, c)
  {
    (p.x > 0 ==> v[p.y][p.x - 1]) && (p.x + 1 < c ==> v[p.y][p.x + 1]) &&
    (p.y > 0 ==> v[p.y - 1][p.x]) && (p.y + 1 < r ==> v[p.y + 1][p.x])
  }

  /** Cell `p` is visited. */
  ghost predicate At(v: seq<seq<bool>>, p: Cell) {
    0 <= p.y < |v| && 0 <= p.x < |v[p.y]| && v[p.y][p.x]
  }

  /** Visited cells off the stack (and other than `cur`) have all their neighbours visited. */
  ghost predicate Closed(v: seq<seq<bool>>, stack: seq<Cell>, r: nat, c: nat, cur: Option<Cell>)
    requires |v| == r + 1 && (forall y :: 0 <= y <= r ==> |v[y]| == c + 1)
  {
    forall p {:trigger At(v, p)} :: Interior(p, r, c) && At(v, p) && p !in stack && Some(p) != cur ==> NbrsVisited(v, p, r, c)
  }

  ghost predicate StackOk(v: seq<seq<bool>>, stack: seq<Cell>, r: nat, c: nat)
    requires |v| == r + 1 && (forall y :: 0 <= y <= r ==> |v[y]| == c + 1)
  {
    (forall k :: 0 <= k < |stack| ==> Interior(stack[k], r, c) && v[stack[k].y][stack[k].x]) &&
    (forall a, b :: 0 <= a < b < |stack| ==> stack[a] != stack[b])
  }

  /** The number of stars in the untouched grids of an `r` by `c` maze. */
  function BaseStars(r: nat, c: nat): nat {
    (r + 1) * (2 * c + 1) + r * (c + 1)
  }

  /**
   * The carving loop's invariant: `marks` cells have been marked (beyond the
   * `r + c + 1` sentinels), one carving per mark after the first, and each
   * carving removed one star.
   */
  ghost predicate DfsInv(v: seq<seq<bool>>, hor: seq<seq<string>>, ver: seq<seq<string>>, stack: seq<Cell>,
                         r: nat, c: nat, marks: nat, carvings: nat, cur: Option<Cell>) {
    Shape(v, hor, ver, r, c) && CarvedVisited(v, hor, ver, r, c) &&
    StackOk(v, stack, r, c) && Closed(v, stack, r, c, cur) &&
    (cur.Some? ==> Interior(cur.value, r, c) && v[cur.value.y][cur.value.x] && cur.value !in stack) &&
    SumGrid(v, Mark) == marks + r + c + 1 && carvings + 1 == marks &&
    SumGrid(hor, Stars) + SumGrid(ver, Stars) + carvings == BaseStars(r, c)
  }

  lemma {:induction false} MarksBound(v: seq<seq<bool>>, hor: seq<seq<string>>, ver: seq<seq<string>>, r: nat, c: nat, marks: nat)
    requires Shape(v, hor, ver, r, c) && SumGrid(v, Mark) == marks + r + c + 1
    ensures marks <= r * c
  {
    SumGridBound(v, Mark, c + 1);
    assert (r + 1) * (c + 1) == r * c + r + c + 1;
  }

  /** A cell the sentinels do not catch is inside the grid. */
  lemma {:induction false} UnvisitedInterior(v: seq<seq<bool>>, hor: seq<seq<string>>, ver: seq<seq<string>>, r: nat, c: nat, q: Cell)
    requires Shape(v, hor, ver, r, c)
    requires -1 <= q.x <= c && -1 <= q.y <= r
    requires !PyIndex(PyIndex(v, q.y), q.x)
    ensures Interior(q, r, c) && !v[q.y][q.x]
  {
  }

  function MarkAt(v: seq<seq<bool>>, q: Cell): seq<seq<bool>>
    requires 0 <= q.y < |v| && 0 <= q.x < |v[q.y]|
  {
    v[q.y := v[q.y][q.x := true]]
  }

  lemma {:induction false} MarkShape(v: seq<seq<bool>>, hor: seq<seq<string>>, ver: seq<seq<string>>, r: nat, c: nat, q: Cell)
    requires Shape(v, hor, ver, r, c) && Interior(q, r, c)
    ensures Shape(MarkAt(v, q), hor, ver, r, c)
  {
  }

  lemma {:induction false} MarkCarved(v: seq<seq<bool>>, hor: seq<seq<string>>, ver: seq<seq<string>>, r: nat, c: nat, q: Cell)
    requires Shape(v, hor, ver, r, c) && CarvedVisited(v, hor, ver, r, c) && Interior(q, r, c)
    ensures Shape(MarkAt(v, q), hor, ver, r, c) && CarvedVisited(MarkAt(v, q), hor, ver, r, c)
  {
    MarkShape(v, hor, ver, r, c, q);
  }

  lemma {:induction false} MarkStack(v: seq<seq<bool>>, stack: seq<Cell>, r: nat, c: nat, q: Cell)
    requires |v| == r + 1 && (forall y :: 0 <= y <= r ==> |v[y]| == c + 1)
    requires StackOk(v, stack, r, c) && Interior(q, r, c) && !v[q.y][q.x]
    ensures StackOk(MarkAt(v, q), stack + [q], r, c)
  {
    var v' := MarkAt(v, q);
    var stack' := stack + [q];
    forall k | 0 <= k < |stack'| ensures Interior(stack'[k], r, c) && v'[stack'[k].y][stack'[k].x] {
      if k < |stack| { assert stack'[k] == stack[k]; }
    }
    forall a, b | 0 <= a < b < |stack'| ensures stack'[a] != stack'[b] {
      if b < |stack| {
        assert stack'[a] == stack[a] && stack'[b] == stack[b];
      } else {
        assert stack'[a] == stack[a];
        assert v[stack[a].y][stack[a].x];
      }
    }
  }

  lemma {:induction false} MarkClosed(v: seq<seq<bool>>, stack: seq<Cell>, r: nat, c: nat, q: Cell, cur: Option<Cell>)
    requires |v| == r + 1 && (forall y :: 0 <= y <= r ==> |v[y]| == c + 1)
    requires Closed(v, stack, r, c, cur) && Interior(q, r, c)
    ensures Closed(MarkAt(v, q), stack + [q], r, c, cur)
  {
    var v' := MarkAt(v, q);
    forall p | Interior(p, r, c) && At(v', p) && p !in stack + [q] && Some(p) != cur
      ensures NbrsVisited(v', p, r, c)
    {
      assert p !in stack;
      assert At(v, p);
    }
  }

  /** Carving the wall in row `yy` of `hor` above cell `(x, yy)`. */
  lemma {:induction false} CarveHor(v: seq<seq<bool>>, hor: seq<seq<string>>, ver: seq<seq<string>>, r: nat, c: nat, yy: int, x: int)
    requires Shape(v, hor, ver, r, c) && CarvedVisited(v, hor, ver, r, c)
    requires 1 <= yy < r && 0 <= x < c && v[yy - 1][x] && v[yy][x] && hor[yy][x] == Solid
    ensures Shape(v, hor[yy := hor[yy][x := Half]], ver, r, c)
    ensures CarvedVisited(v, hor[yy := hor[yy][x := Half]], ver, r, c)
    ensures SumGrid(hor[yy := hor[yy][x := Half]], Stars) + 1 == SumGrid(hor, Stars)
  {
    SumGridUpdate(hor, yy, x, Half, Stars);
  }

  /** Carving the wall in column `xx` of `ver` left of cell `(xx, y)`. */
  lemma {:induction false} CarveVer(v: seq<seq<bool>>, hor: seq<seq<string>>, ver: seq<seq<string>>, r: nat, c: nat, y: int, xx: int)
    requires Shape(v, hor, ver, r, c) && CarvedVisited(v, hor, ver, r, c)
    requires 0 <= y < r && 1 <= xx < c && v[y][xx - 1] && v[y][xx] && ver[y][xx] == Half
    ensures Shape(v, hor, ver[y := ver[y][xx := Blank]], r, c)
    ensures CarvedVisited(v, hor, ver[y := ver[y][xx := Blank]], r, c)
    ensures SumGrid(ver[y := ver[y][xx := Blank]], Stars) + 1 == SumGrid(ver, Stars)
  {
    SumGridUpdate(ver, y, xx, Blank, Stars);
  }

  /** Visiting the unvisited neighbour `q` above or below `cur`: carve `hor[yy][x]`, push and mark `q`. */
  lemma {:induction false} VisitVertical(v: seq<seq<bool>>, hor: seq<seq<string>>, ver: seq<seq<string>>, stack: seq<Cell>,
                  r: nat, c: nat, marks: nat, carvings: nat, cur: Cell, q: Cell, yy: int)
    requires DfsInv(v, hor, ver, stack, r, c, marks, carvings, Some(cur))
    requires Interior(q, r, c) && !v[q.y][q.x]
    requires q.x == cur.x && (q.y == cur.y + 1 || q.y == cur.y - 1) && yy == (if cur.y < q.y then q.y else cur.y)
    ensures DfsInv(MarkAt(v, q), hor[yy := hor[yy][cur.x := Half]], ver, stack + [q], r, c, marks + 1, carvings + 1, Some(cur))
  {
    var v' := MarkAt(v, q);
    SumGridUpdate(v, q.y, q.x, true, Mark);
    MarkCarved(v, hor, ver, r, c, q);
    MarkStack(v, stack, r, c, q);
    MarkClosed(v, stack, r, c, q, Some(cur));
    assert hor[yy][cur.x] == Solid;
    CarveHor(v', hor, ver, r, c, yy, cur.x);
  }

  /** Visiting the unvisited neighbour `q` left or right of `cur`: carve `ver[y][xx]`, push and mark `q`. */
  lemma {:induction false} VisitHorizontal(v: seq<seq<bool>>, hor: seq<seq<string>>, ver: seq<seq<string>>, stack: seq<Cell>,
                  r: nat, c: nat, marks: nat, carvings: nat, cur: Cell, q: Cell, xx: int)
    requires DfsInv(v, hor, ver, stack, r, c, marks, carvings, Some(cur))
    requires Interior(q, r, c) && !v[q.y][q.x]
    requires q.y == cur.y && (q.x == cur.x + 1 || q.x == cur.x - 1) && xx == (if cur.x < q.x then q.x else cur.x)
    ensures DfsInv(MarkAt(v, q), hor, ver[cur.y := ver[cur.y][xx := Blank]], stack + [q], r, c, marks + 1, carvings + 1, Some(cur))
  {
    var v' := MarkAt(v, q);
    SumGridUpdate(v, q.y, q.x, true, Mark);
    MarkCarved(v, hor, ver, r, c, q);
    MarkStack(v, stack, r, c, q);
    MarkClosed(v, stack, r, c, q, Some(cur));
    assert ver[cur.y][xx] == Half;
    CarveVer(v', hor, ver, r, c, cur.y, xx);
  }

  /** Once all four neighbours of the popped cell are visited, it is closed too. */
  lemma {:induction false} CloseCurrent(v: seq<seq<bool>>, hor: seq<seq<string>>, ver: seq<seq<string>>, stack: seq<Cell>,
                     r: nat, c: nat, marks: nat, carvings: nat, cur: Cell, d: seq<Cell>)
    requires DfsInv(v, hor, ver, stack, r, c, marks, carvings, Some(cur))
    requires d == [Cell(cur.x - 1, cur.y), Cell(cur.x, cur.y + 1), Cell(cur.x + 1, cur.y), Cell(cur.x, cur.y - 1)]
    requires forall m :: 0 <= m < 4 ==> PyIndex(PyIndex(v, d[m].y), d[m].x)
    ensures DfsInv(v, hor, ver, stack, r, c, marks, carvings, None)
  {
    assert NbrsVisited(v, cur, r, c) by {
      assert PyIndex(PyIndex(v, d[0].y), d[0].x);
      assert PyIndex(PyIndex(v, d[1].y), d[1].x);
      assert PyIndex(PyIndex(v, d[2].y), d[2].x);
      assert PyIndex(PyIndex(v, d[3].y), d[3].x);
    }
  }

  /** With the stack empty and the grid closed, every cell is reached from the start. */
  lemma {:induction false} AllVisited(v: seq<seq<bool>>, hor: seq<seq<string>>, ver: seq<seq<string>>,
                                      r: nat, c: nat, marks: nat, carvings: nat, start: Cell, p: Cell)
    requires DfsInv(v, hor, ver, [], r, c, marks, carvings, None)
    requires Interior(start, r, c) && v[start.y][start.x] && Interior(p, r, c)
    ensures v[p.y][p.x]
    decreases Abs(p.x - start.x) + Abs(p.y - start.y)
  {
    if p != start {
      var n := if p.x < start.x then Cell(p.x + 1, p.y)
        else if p.x > start.x then Cell(p.x - 1, p.y)
        else if p.y < start.y then Cell(p.x, p.y + 1)
        else Cell(p.x, p.y - 1);
      AllVisited(v, hor, ver, r, c, marks, carvings, start, n);
      assert At(v, n);
    }
  }

  /** Once every cell is visited, the marks account for the whole visited grid. */
  lemma {:induction false} AllMarked(v: seq<seq<bool>>, hor: seq<seq<string>>, ver: seq<seq<string>>, r: nat, c: nat)
    requires Shape(v, hor, ver, r, c)
    requires forall p :: Interior(p, r, c) ==> At(v, p)
    ensures SumGrid(v, Mark) == r * c + r + c + 1
  {
    forall y, x | 0 <= y < |v| && 0 <= x < |v[y]| ensures Mark(v[y][x]) == 1 {
      if y < r && x < c {
        assert At(v, Cell(x, y));
      }
    }
    SumGridExact(v, Mark, c + 1);
    assert (r + 1) * (c + 1) == r * c + r + c + 1;
  }

  lemma {:induction false} SumRowConst<T>(n: nat, x: T, f: T -> nat)
    ensures SumRow(seq(n, _ => x), f) == n * f(x)
  {
    if n > 0 {
      assert seq(n, _ => x)[1..] == seq(n - 1, _ => x);
      SumRowConst(n - 1, x, f);
    }
  }

  lemma {:induction false} SumGridConst<T>(n: nat, row: seq<T>, f: T -> nat)
    ensures SumGrid(seq(n, _ => row), f) == n * SumRow(row, f)
  {
    if n > 0 {
      assert seq(n, _ => row)[1..] == seq(n - 1, _ => row);
      SumGridConst(n - 1, row, f);
    }
  }

  /** `[[0] * c + [1] for _ in range(r)] + [[1] * (c + 1)]`. */
  function VisitedInit(r: nat, c: nat): seq<seq<bool>> {
    seq(r, _ => seq(c, _ => false) + [true]) + [seq(c + 1, _ => true)]
  }

  /** `[[Solid] * c + [Post] for _ in range(r + 1)]`. */
  function HorInit(r: nat, c: nat): seq<seq<string>> {
    seq(r + 1, _ => seq(c, _ => Solid) + [Post])
  }

  /** `[[Half] * c + [Post] for _ in range(r)] + [[]]`. */
  function VerInit(r: nat, c: nat): seq<seq<string>> {
    seq(r, _ => seq(c, _ => Half) + [Post]) + [[]]
  }

  lemma {:induction false} VisitedInitSum(r: nat, c: nat)
    ensures SumGrid(VisitedInit(r, c), Mark) == r + c + 1
  {
    var vrow := seq(c, _ => false) + [true];
    SumRowConcat(seq(c, _ => false), [true], Mark);
    SumRowConst(c, false, Mark);
    SumGridConst(r, vrow, Mark);
    SumRowConst(c + 1, true, Mark);
    SumGridConcat(seq(r, _ => vrow), [seq(c + 1, _ => true)], Mark);
  }

  lemma {:induction false} HorInitSum(r: nat, c: nat)
    ensures SumGrid(HorInit(r, c), Stars) == (r + 1) * (2 * c + 1)
  {
    var hrow := seq(c, _ => Solid) + [Post];
    SumRowConcat(seq(c, _ => Solid), [Post], Stars);
    SumRowConst(c, Solid, Stars);
    SumGridConst(r + 1, hrow, Stars);
  }

  lemma {:induction false} VerInitSum(r: nat, c: nat)
    ensures SumGrid(VerInit(r, c), Stars) == r * (c + 1)
  {
    var wrow := seq(c, _ => Half) + [Post];
    SumRowConcat(seq(c, _ => Half), [Post], Stars);
    SumRowConst(c, Half, Stars);
    SumGridConst(r, wrow, Stars);
    SumGridConcat(seq(r, _ => wrow), [[]], Stars);
  }

  /** The state right after the start cell is marked and pushed. */
  lemma {:induction false} InitInv(r: nat, c: nat, start: Cell)
    requires Interior(start, r, c)
    ensures DfsInv(MarkAt(VisitedInit(r, c), start), HorInit(r, c), VerInit(r, c), [start], r, c, 1, 0, None)
  {
    var v := VisitedInit(r, c);
    VisitedInitSum(r, c);
    HorInitSum(r, c);
    VerInitSum(r, c);
    assert !v[start.y][start.x];
    SumGridUpdate(v, start.y, start.x, true, Mark);
    var v' := MarkAt(v, start);
    assert Shape(v', HorInit(r, c), VerInit(r, c), r, c);
    forall p | Interior(p, r, c) && p != start ensures !At(v', p) {
      assert !v[p.y][p.x];
    }
  }

  /** Popping the top of the stack makes it the current cell. */
  lemma {:induction false} PopInv(v: seq<seq<bool>>, hor: seq<seq<string>>, ver: seq<seq<string>>, stack: seq<Cell>,
                                  r: nat, c: nat, marks: nat, carvings: nat)
    requires DfsInv(v, hor, ver, stack, r, c, marks, carvings, None) && |stack| > 0
    ensures DfsInv(v, hor, ver, stack[..|stack| - 1], r, c, marks, carvings, Some(stack[|stack| - 1]))
  {
    var s' := stack[..|stack| - 1];
    var top := stack[|stack| - 1];
    assert top !in s' by {
      forall k | 0 <= k < |s'| ensures s'[k] != top { assert s'[k] == stack[k]; }
    }
    assert StackOk(v, s', r, c) by {
      forall k | 0 <= k < |s'| ensures s'[k] == stack[k] { }
    }
    assert Closed(v, s', r, c, Some(top)) by {
      forall p | Interior(p, r, c) && At(v, p) && p !in s' && Some(p) != Some(top)
        ensures NbrsVisited(v, p, r, c)
      {
        assert p !in stack;
      }
    }
  }

  /** `visited[yy][xx]` holds for the neighbour `q`, with Python's wrap-around of index -1. */
  ghost predicate Seen(v: seq<seq<bool>>, q: Cell, r: nat, c: nat) {
    |v| == r + 1 && -1 <= q.x <= c && -1 <= q.y <= r &&
    |PyIndex(v, q.y)| == c + 1 && PyIndex(PyIndex(v, q.y), q.x)
  }

  function Neighbours(cur: Cell): seq<Cell> {
    [Cell(cur.x - 1, cur.y), Cell(cur.x, cur.y + 1), Cell(cur.x + 1, cur.y), Cell(cur.x, cur.y - 1)]
  }

  lemma {:induction false} MarkSeen(v: seq<seq<bool>>, r: nat, c: nat, q: Cell)
    requires |v| == r + 1 && (forall y :: 0 <= y <= r ==> |v[y]| == c + 1) && Interior(q, r, c)
    ensures Seen(MarkAt(v, q), q, r, c)
    ensures forall q' :: Seen(v, q', r, c) ==> Seen(MarkAt(v, q), q', r, c)
  {
  }

  /** The neighbours seen before a visit are still seen after it, and so is the one just visited. */
  lemma SeenStill(v: seq<seq<bool>>, v': seq<seq<bool>>, r: nat, c: nat, d: seq<Cell>, p: seq<nat>, k: nat)
    requires |d| == 4 && |p| == 4 && k < 4 && (forall m :: 0 <= m < 4 ==> p[m] < 4)
    requires forall m {:trigger Seen(v, d[p[m]], r, c)} :: 0 <= m < k ==> Seen(v, d[p[m]], r, c)
    requires forall q :: Seen(v, q, r, c) ==> Seen(v', q, r, c)
    requires Seen(v', d[p[k]], r, c)
    ensures forall m {:trigger Seen(v', d[p[m]], r, c)} :: 0 <= m < k + 1 ==> Seen(v', d[p[m]], r, c)
  {
    forall m | 0 <= m < k + 1 ensures Seen(v', d[p[m]], r, c) {
      if m < k {
        assert Seen(v, d[p[m]], r, c);
      }
    }
  }

  /** Having seen every entry of the shuffled list is having seen every neighbour. */
  lemma {:induction false} ShuffledSeen(v: seq<seq<bool>>, r: nat, c: nat, d: seq<Cell>, p: Shuffle)
    requires |d| == 4 && |p| == 4 && (forall k :: 0 <= k < 4 ==> p[k] < 4)
    requires forall m :: 0 <= m < 4 ==> Seen(v, d[p[m]], r, c)
    ensures forall m :: 0 <= m < 4 ==> Seen(v, d[m], r, c)
  {
    forall m | 0 <= m < 4 ensures Seen(v, d[m], r, c) {
      ShuffleFacts(p);
      var j :| 0 <= j < |p| && p[j] == m;
      assert Seen(v, d[p[j]], r, c);
    }
  }

  /** One step of the inner `for` loop: visit the neighbour `q` of `cur` unless it is already visited. */
  method VisitNeighbour(v: seq<seq<bool>>, hor: seq<seq<string>>, ver: seq<seq<string>>, stack: seq<Cell>,
                        r: nat, c: nat, cur: Cell, q: Cell, start: Cell, ghost marks: nat, ghost carvings: nat)
    returns (v': seq<seq<bool>>, hor': seq<seq<string>>, ver': seq<seq<string>>, stack': seq<Cell>,
             ghost marks': nat, ghost carvings': nat)
    requires DfsInv(v, hor, ver, stack, r, c, marks, carvings, Some(cur)) && q in Neighbours(cur)
    requires Interior(start, r, c) && v[start.y][start.x]
    ensures DfsInv(v', hor', ver', stack', r, c, marks', carvings', Some(cur))
    ensures Seen(v', q, r, c) && v'[start.y][start.x]
    ensures forall q' :: Seen(v, q', r, c) ==> Seen(v', q', r, c)
    ensures marks <= marks' && |stack'| - |stack| == marks' - marks
  {
    v', hor', ver', stack', marks', carvings' := v, hor, ver, stack, marks, carvings;
    if PyIndex(PyIndex(v, q.y), q.x) {
      return;
    }
    UnvisitedInterior(v, hor, ver, r, c, q);
    if q.x == cur.x {
      var yy := if cur.y < q.y then q.y else cur.y;
      hor' := hor[yy := hor[yy][cur.x := Half]];
      VisitVertical(v, hor, ver, stack, r, c, marks, carvings, cur, q, yy);
    }
    if q.y == cur.y {
      var xx := if cur.x < q.x then q.x else cur.x;
      ver' := ver[cur.y := ver[cur.y][xx := Blank]];
      VisitHorizontal(v, hor, ver, stack, r, c, marks, carvings, cur, q, xx);
    }
    stack' := stack + [q];
    v' := MarkAt(v, q);
    marks' := marks + 1;
    carvings' := carvings + 1;
    MarkSeen(v, r, c, q);
  }

  /**
   * One pass of the carving loop's body after `cur` is popped: its
   * neighbours, permuted by `p`, are visited in turn.
   */
  method Expand(v: seq<seq<bool>>, hor: seq<seq<string>>, ver: seq<seq<string>>, stack: seq<Cell>,
                r: nat, c: nat, cur: Cell, p: Shuffle, start: Cell, ghost marks: nat, ghost carvings: nat)
    returns (v': seq<seq<bool>>, hor': seq<seq<string>>, ver': seq<seq<string>>, stack': seq<Cell>,
             ghost marks': nat, ghost carvings': nat)
    requires DfsInv(v, hor, ver, stack, r, c, marks, carvings, Some(cur))
    requires Interior(start, r, c) && v[start.y][start.x]
    ensures DfsInv(v', hor', ver', stack', r, c, marks', carvings', None)
    ensures v'[start.y][start.x] && marks <= marks' && |stack'| - |stack| == marks' - marks
  {
    v', hor', ver', stack', marks', carvings' := v, hor, ver, stack, marks, carvings;
    var d := Neighbours(cur);
    ShuffleFacts(p);
    var k := 0;
    while k < 4
      invariant 0 <= k <= 4
      invariant DfsInv(v', hor', ver', stack', r, c, marks', carvings', Some(cur))
      invariant forall m {:trigger Seen(v', d[p[m]], r, c)} :: 0 <= m < k ==> Seen(v', d[p[m]], r, c)
      invariant v'[start.y][start.x] && marks <= marks' && |stack'| - |stack| == marks' - marks
    {
      ghost var seen := v';
      v', hor', ver', stack', marks', carvings' :=
        VisitNeighbour(v', hor', ver', stack', r, c, cur, d[p[k]], start, marks', carvings');
      SeenStill(seen, v', r, c, d, p, k);
      k := k + 1;
    }
    ShuffledSeen(v', r, c, d, p);
    CloseCurrent(v', hor', ver', stack', r, c, marks', carvings', cur, d);
  }

  /**
   * The depth-first carving of `_generate` on an `r` by `c` grid of cells
   * from the start cell `(sx, sy)`; the `t`-th popped cell's neighbour
   * list is permuted by `shuffles(t)`. Every cell ends up visited, and
   * exactly `r * c - 1` walls are carved, one per cell beyond the first, so
   * the carved walls join the cells into a spanning tree.
   */
  method Carve(r: nat, c: nat, sx: int, sy: int, shuffles: nat -> Shuffle)
    returns (hor: seq<seq<string>>, ver: seq<seq<string>>, ghost visitedOut: seq<seq<bool>>, ghost carvings: nat)
    requires Interior(Cell(sx, sy), r, c)
    ensures Shape(visitedOut, hor, ver, r, c)
    ensures forall p :: Interior(p, r, c) ==> At(visitedOut, p)
    ensures carvings == r * c - 1
    ensures SumGrid(hor, Stars) + SumGrid(ver, Stars) + r * c == BaseStars(r, c) + 1
  {
    var start := Cell(sx, sy);
    var v := MarkAt(VisitedInit(r, c), start);
    hor := HorInit(r, c);
    ver := VerInit(r, c);
    InitInv(r, c, start);
    var stack := [start];
    ghost var marks: nat := 1;
    carvings := 0;
    var t: nat := 0;
    while |stack| > 0
      invariant DfsInv(v, hor, ver, stack, r, c, marks, carvings, None)
      invariant v[sy][sx] && marks <= r * c
      decreases r * c - marks, |stack|
    {
      PopInv(v, hor, ver, stack, r, c, marks, carvings);
      var cur := stack[|stack| - 1];
      stack := stack[..|stack| - 1];
      var p := shuffles(t);
      t := t + 1;
      v, hor, ver, stack, marks, carvings := Expand(v, hor, ver, stack, r, c, cur, p, start, marks, carvings);
      MarksBound(v, hor, ver, r, c, marks);
    }
    forall q | Interior(q, r, c) ensures At(v, q) {
      AllVisited(v, hor, ver, r, c, marks, carvings, start, q);
    }
    AllMarked(v, hor, ver, r, c);
    visitedOut := v;
  }

  lemma {:induction false} SumGridRows<T>(g: seq<seq<T>>, f: T -> nat, w: nat)
    requires forall y :: 0 <= y < |g| ==> SumRow(g[y], f) == w
    ensures SumGrid(g, f) == |g| * w
  {
    if g != [] {
      SumGridRows(g[1..], f, w);
    }
  }

  lemma {:induction false} RowLen(row: seq<string>, c: nat)
    requires |row| == c + 1 && |row[c]| == 1 && forall x :: 0 <= x < c ==> |row[x]| == 2
    ensures SumRow(row, Len) == 2 * c + 1
  {
    assert row == row[..c] + [row[c]];
    SumRowConcat(row[..c], [row[c]], Len);
    SumRowExact(row[..c], Len, 2);
  }

  lemma {:induction false} HorLen(hor: seq<seq<string>>, c: nat)
    requires forall y :: 0 <= y < |hor| ==> HorRowOk(hor[y], c)
    ensures SumGrid(hor, Len) == |hor| * (2 * c + 1)
  {
    forall y | 0 <= y < |hor| ensures SumRow(hor[y], Len) == 2 * c + 1 {
      RowLen(hor[y], c);
    }
    SumGridRows(hor, Len, 2 * c + 1);
  }

  lemma {:induction false} VerLen(ver: seq<seq<string>>, r: nat, c: nat)
    requires |ver| == r + 1 && ver[r] == [] && forall y :: 0 <= y < r ==> VerRowOk(ver[y], c)
    ensures SumGrid(ver, Len) == r * (2 * c + 1)
  {
    var rows := ver[..r];
    forall y | 0 <= y < r ensures SumRow(rows[y], Len) == 2 * c + 1 {
      RowLen(rows[y], c);
    }
    SumGridRows(rows, Len, 2 * c + 1);
    assert ver == rows + [[]];
    SumGridConcat(rows, [[]], Len);
  }

  /** The picture of a carved `r` by `c` maze is `2r + 1` by `2c + 1` characters. */
  lemma {:induction false} PictureSize(v: seq<seq<bool>>, hor: seq<seq<string>>, ver: seq<seq<string>>, r: nat, c: nat)
    requires Shape(v, hor, ver, r, c)
    ensures |Picture(hor, ver)| == (2 * r + 1) * (2 * c + 1)
  {
    HorLen(hor, c);
    VerLen(ver, r, c);
    PictureSums(hor, ver);
    RowsTotal(r, 2 * c + 1);
  }

  lemma RowsTotal(r: nat, w: nat)
    ensures (r + 1) * w + r * w == (2 * r + 1) * w
  {
  }

  /** The index of a position in row-major order over rows of `columns` cells. */
  function RowMajor(p: Pos, columns: int): int {
    p.row * columns + p.col
  }

  /**
   * `[idx // columns, idx % columns]` for each index of the picture holding
   * a `'*'`, in order.
   */
  function StarPositions(s: string, columns: int): seq<Pos>
    requires columns > 0
  {
    if s == [] then []
    else (StarPositions(s[..|s| - 1], columns)
      + (if s[|s| - 1] == '*' then [Pos((|s| - 1) / columns, (|s| - 1) % columns)] else []))
  }

  /** `StarPositions` of a picture extended by one character. */
  lemma StarPositionsSnoc(s: string, columns: int)
    requires columns > 0 && s != []
    ensures StarPositions(s, columns) == StarPositions(s[..|s| - 1], columns)
      + (if s[|s| - 1] == '*' then [Pos((|s| - 1) / columns, (|s| - 1) % columns)] else [])
  {
  }

  /** Each star of the picture gives one position. */
  lemma {:induction false} StarPositionsCount(s: string, columns: int)
    requires columns > 0
    ensures |StarPositions(s, columns)| == Stars(s)
    decreases |s|
  {
    if s != [] {
      var n := |s| - 1;
      StarPositionsCount(s[..n], columns);
      assert s == s[..n] + [s[n]];
      StarsConcat(s[..n], [s[n]]);
    }
  }

  lemma DivModRowMajor(n: nat, columns: int)
    requires columns > 0
    ensures RowMajor(Pos(n / columns, n % columns), columns) == n && 0 <= n % columns < columns
  {
  }

  /** Each position is the row and column of a star of the picture. */
  lemma {:induction false} StarPositionsAt(s: string, columns: int)
    requires columns > 0
    ensures forall k :: 0 <= k < |StarPositions(s, columns)| ==>
      var p := StarPositions(s, columns)[k];
      0 <= p.col < columns && 0 <= RowMajor(p, columns) < |s| && s[RowMajor(p, columns)] == '*'
    decreases |s|
  {
    if s != [] {
      var n := |s| - 1;
      var init := s[..n];
      StarPositionsAt(init, columns);
      var ps := StarPositions(init, columns);
      StarPositionsSnoc(s, columns);
      forall k | 0 <= k < |ps| ensures s[RowMajor(ps[k], columns)] == '*' {
        assert s[RowMajor(ps[k], columns)] == init[RowMajor(ps[k], columns)];
      }
      if s[n] == '*' {
        DivModRowMajor(n, columns);
        assert StarPositions(s, columns) == ps + [Pos(n / columns, n % columns)];
      } else {
        assert StarPositions(s, columns) == ps;
      }
    }
  }

  /** The positions come in strictly increasing row-major order. */
  lemma {:induction false} StarPositionsSorted(s: string, columns: int)
    requires columns > 0
    ensures forall a, b :: 0 <= a < b < |StarPositions(s, columns)| ==>
      RowMajor(StarPositions(s, columns)[a], columns) < RowMajor(StarPositions(s, columns)[b], columns)
    decreases |s|
  {
    if s != [] {
      var n := |s| - 1;
      var init := s[..n];
      StarPositionsSorted(init, columns);
      StarPositionsAt(init, columns);
      var ps := StarPositions(init, columns);
      StarPositionsSnoc(s, columns);
      if s[n] == '*' {
        DivModRowMajor(n, columns);
        assert StarPositions(s, columns) == ps + [Pos(n / columns, n % columns)];
      } else {
        assert StarPositions(s, columns) == ps;
      }
    }
  }

  /** Each position is the row and column of a star of the picture, in strictly increasing row-major order. */
  lemma StarPositionsOrder(s: string, columns: int)
    requires columns > 0
    ensures forall k :: 0 <= k < |StarPositions(s, columns)| ==>
      var p := StarPositions(s, columns)[k];
      0 <= p.col < columns && 0 <= RowMajor(p, columns) < |s| && s[RowMajor(p, columns)] == '*'
    ensures forall a, b :: 0 <= a < b < |StarPositions(s, columns)| ==>
      RowMajor(StarPositions(s, columns)[a], columns) < RowMajor(StarPositions(s, columns)[b], columns)
  {
    StarPositionsAt(s, columns);
    StarPositionsSorted(s, columns);
  }

  /** Every star of the picture is among the positions. */
  lemma {:induction false} StarPositionsComplete(s: string, columns: int, i: nat)
    requires columns > 0 && i < |s| && s[i] == '*'
    ensures Pos(i / columns, i % columns) in StarPositions(s, columns)
    decreases |s|
  {
    var n := |s| - 1;
    StarPositionsSnoc(s, columns);
    if i < n {
      assert s[..n][i] == s[i];
      StarPositionsComplete(s[..n], columns, i);
    }
  }

  lemma RowMajorRow(p: Pos, rows: int, columns: int)
    requires 0 <= p.col < columns && 0 <= RowMajor(p, columns) < rows * columns
    ensures 0 <= p.row < rows
  {
  }

  /** The positions read off a picture that fits in `rows` by `columns` lie inside the grid. */
  lemma {:induction false} PositionsInBounds(s: string, rows: int, columns: int)
    requires columns > 0 && |s| <= rows * columns
    ensures forall k :: 0 <= k < |StarPositions(s, columns)| ==>
      0 <= StarPositions(s, columns)[k].row < rows && 0 <= StarPositions(s, columns)[k].col < columns
  {
    StarPositionsOrder(s, columns);
    var ps := StarPositions(s, columns);
    forall k | 0 <= k < |ps| ensures 0 <= ps[k].row < rows && 0 <= ps[k].col < columns {
      RowMajorRow(ps[k], rows, columns);
    }
  }

  /** The picture of an `r` by `c` maze fits in the grid it was made for. */
  lemma PictureFits(rows: int, columns: int, r: nat, c: nat)
    requires r == (rows - 1) / 2 && c == (columns - 1) / 2
    ensures (2 * r + 1) * (2 * c + 1) <= rows * columns
  {
    assert 2 * r + 1 <= rows && 2 * c + 1 <= columns;
    assert (2 * r + 1) * (2 * c + 1) <= rows * (2 * c + 1);
  }

  /** Stars left in the picture of a fully carved `r` by `c` maze. */
  lemma StarTotal(r: nat, c: nat, stars: nat)
    requires stars + r * c == BaseStars(r, c) + 1
    ensures stars == 2 * (r + 1) * (c + 1)
  {
  }

  /** The wall positions of a fully carved maze: their number, bounds and order. */
  lemma {:induction false} PositionsFacts(v: seq<seq<bool>>, hor: seq<seq<string>>, ver: seq<seq<string>>, rows: int, columns: int)
    requires (columns - 1) / 2 >= 1 && (rows - 1) / 2 >= 1
    requires Shape(v, hor, ver, (rows - 1) / 2, (columns - 1) / 2)
    requires SumGrid(hor, Stars) + SumGrid(ver, Stars) + ((rows - 1) / 2) * ((columns - 1) / 2)
      == BaseStars((rows - 1) / 2, (columns - 1) / 2) + 1
    ensures |StarPositions(Picture(hor, ver), columns)| == 2 * ((rows - 1) / 2 + 1) * ((columns - 1) / 2 + 1)
    ensures forall k :: 0 <= k < |StarPositions(Picture(hor, ver), columns)| ==>
      0 <= StarPositions(Picture(hor, ver), columns)[k].row < rows && 0 <= StarPositions(Picture(hor, ver), columns)[k].col < columns
    ensures forall a, b :: 0 <= a < b < |StarPositions(Picture(hor, ver), columns)| ==>
      RowMajor(StarPositions(Picture(hor, ver), columns)[a], columns) < RowMajor(StarPositions(Picture(hor, ver), columns)[b], columns)
  {
    var r, c := (rows - 1) / 2, (columns - 1) / 2;
    PositionsCount(v, hor, ver, r, c, columns);
    PositionsFit(v, hor, ver, r, c, rows, columns);
    StarPositionsOrder(Picture(hor, ver), columns);
  }

  lemma PositionsCount(v: seq<seq<bool>>, hor: seq<seq<string>>, ver: seq<seq<string>>, r: nat, c: nat, columns: int)
    requires columns > 0 && Shape(v, hor, ver, r, c)
    requires SumGrid(hor, Stars) + SumGrid(ver, Stars) + r * c == BaseStars(r, c) + 1
    ensures |StarPositions(Picture(hor, ver), columns)| == 2 * (r + 1) * (c + 1)
  {
    var pic := Picture(hor, ver);
    PictureSums(hor, ver);
    StarTotal(r, c, Stars(pic));
    StarPositionsCount(pic, columns);
  }

  lemma PositionsFit(v: seq<seq<bool>>, hor: seq<seq<string>>, ver: seq<seq<string>>, r: nat, c: nat, rows: int, columns: int)
    requires columns > 0 && r == (rows - 1) / 2 && c == (columns - 1) / 2 && Shape(v, hor, ver, r, c)
    ensures forall k :: 0 <= k < |StarPositions(Picture(hor, ver), columns)| ==>
      0 <= StarPositions(Picture(hor, ver), columns)[k].row < rows && 0 <= StarPositions(Picture(hor, ver), columns)[k].col < columns
  {
    var pic := Picture(hor, ver);
    PictureSize(v, hor, ver, r, c);
    PictureFits(rows, columns, r, c);
    PositionsInBounds(pic, rows, columns);
  }

  /** The loop of `_generate` that reads wall positions off the flattened picture. */
  method WallPositions(pic: string, columns: int) returns (positions: seq<Pos>)
    requires columns > 0
    ensures positions == StarPositions(pic, columns)
  {
    positions := [];
    var idx := 0;
    while idx < |pic|
      invariant 0 <= idx <= |pic|
      invariant positions == StarPositions(pic[..idx], columns)
    {
      assert pic[..idx + 1][..idx] == pic[..idx];
      if pic[idx] == '*' {
        positions := positions + [Pos(idx / columns, idx % columns)];
      }
      idx := idx + 1;
    }
    assert pic[..idx] == pic;
  }

  /**
   * `_generate(rows, columns)`: the wall positions of a random maze that
   * fills a `rows` by `columns` grid, cells and walls alternating. `sx` and
   * `sy` are the values of `random.randrange(c)` and `random.randrange(r)`;
   * `shuffles(t)` is the permutation `random.shuffle` applies at the `t`-th
   * popped cell. The positions come from the picture read in rows of
   * `columns` characters.
   */
  method Generate(rows: int, columns: int, sx: int, sy: int, shuffles: nat -> Shuffle)
    returns (res: Result<seq<Pos>>)
    requires (columns - 1) / 2 >= 1 && (rows - 1) / 2 >= 1 ==> 0 <= sx < (columns - 1) / 2 && 0 <= sy < (rows - 1) / 2
    ensures res.Err? <==> (columns - 1) / 2 < 1 || (rows - 1) / 2 < 1
    ensures res.Err? ==> res.error == "ValueError"
    ensures res.Ok? ==> |res.value| == 2 * ((rows - 1) / 2 + 1) * ((columns - 1) / 2 + 1)
    ensures res.Ok? ==> forall k :: 0 <= k < |res.value| ==> 0 <= res.value[k].row < rows && 0 <= res.value[k].col < columns
    ensures res.Ok? ==> forall a, b :: 0 <= a < b < |res.value| ==>
      RowMajor(res.value[a], columns) < RowMajor(res.value[b], columns)
  {
    var c := (columns - 1) / 2;
    var r := (rows - 1) / 2;
    if c < 1 || r < 1 {
      // `random.randrange` of an empty range
      return Err("ValueError");
    }
    var hor, ver, v, carvings := Carve(r, c, sx, sy, shuffles);
    var pic := Picture(hor, ver);
    var positions := WallPositions(pic, columns);
    PositionsFacts(v, hor, ver, rows, columns);
    return Ok(positions);
  }

  // ---------------------------------------------------------------------
  // Terminal walls
  // ---------------------------------------------------------------------

  /** The four orthogonal offsets, in the order `_classify_terminals` tries them. */
  function Adjacent(p: Pos): seq<Pos> {
    [Pos(p.row + 1, p.col), Pos(p.row - 1, p.col), Pos(p.row, p.col + 1), Pos(p.row, p.col - 1)]
  }

  /** `{tuple(w.position): i for i, w in enumerate(walls)}`: the last wall at a position wins. */
  function PositionMap(walls: seq<Wall>): map<Pos, nat>
  {
    if walls == [] then map[]
    else PositionMap(walls[..|walls| - 1])[walls[|walls| - 1].position := |walls| - 1]
  }

  /** The map's keys are exactly the wall positions, each mapped to the last wall there. */
  lemma {:induction false} PositionMapFacts(walls: seq<Wall>)
    ensures forall p :: p in PositionMap(walls) ==> PositionMap(walls)[p] < |walls| && walls[PositionMap(walls)[p]].position == p
    ensures forall i :: 0 <= i < |walls| ==> walls[i].position in PositionMap(walls)
    ensures forall p, j :: p in PositionMap(walls) && PositionMap(walls)[p] < j < |walls| ==> walls[j].position != p
  {
    if walls != [] {
      var n := |walls| - 1;
      var w' := walls[..n];
      PositionMapFacts(w');
      assert forall i :: 0 <= i < n ==> w'[i] == walls[i];
    }
  }

  /** The positions next to `p` that hold a wall. */
  function NeighbourPositions(p: Pos, pm: map<Pos, nat>): set<Pos> {
    set q | q in Adjacent(p) && q in pm
  }

  /** The number of orthogonal wall neighbours of wall `i`. */
  function Degree(walls: seq<Wall>, i: nat): nat
    requires i < |walls|
  {
    |NeighbourPositions(walls[i].position, PositionMap(walls))|
  }

  /** The inner `for adj in ...` loop of `_classify_terminals`. */
  method NeighbourSet(p: Pos, pm: map<Pos, nat>) returns (neighbours: set<Pos>)
    ensures neighbours == NeighbourPositions(p, pm)
  {
    neighbours := {};
    var adj := Adjacent(p);
    for k := 0 to 4
      invariant neighbours == set q | q in adj[..k] && q in pm
    {
      if adj[k] in pm {
        neighbours := neighbours + {adj[k]};
      }
      assert adj[..k + 1] == adj[..k] + [adj[k]];
    }
    assert adj[..4] == adj;
  }

  function Elems(s: seq<nat>): set<nat> {
    set x | x in s
  }

  /** The neighbour count of every wall. */
  function Degrees(walls: seq<Wall>): (d: seq<nat>)
    ensures |d| == |walls| && forall i :: 0 <= i < |walls| ==> d[i] == Degree(walls, i)
  {
    seq(|walls|, i requires 0 <= i < |walls| => Degree(walls, i))
  }

  /**
   * The tiers found so far: tier 0 holds walls with at most one neighbour,
   * each later tier walls with exactly two; all are indices below `bound`.
   */
  ghost predicate TiersOk(deg: seq<nat>, found: seq<seq<nat>>, bound: nat) {
    |found| >= 1 && bound <= |deg| &&
    forall t, k :: 0 <= t < |found| && 0 <= k < |found[t]| ==>
      found[t][k] < bound && (if t == 0 then deg[found[t][k]] <= 1 else deg[found[t][k]] == 2)
  }

  /** Tier 0 holds, in increasing order, exactly the walls below `i` with at most one neighbour. */
  ghost predicate FirstTier(deg: seq<nat>, f0: seq<nat>, i: nat)
    requires i <= |deg|
  {
    (forall a, b :: 0 <= a < b < |f0| ==> f0[a] < f0[b]) &&
    (forall e :: 0 <= e < i ==> (deg[e] <= 1 <==> e in f0))
  }

  /** A pending two-neighbour wall with the indices of its neighbours (`unmatched[i] = n_indexes`). */
  datatype Pending = Pending(index: nat, nbrs: set<nat>)

  /** Adding wall `i`, with two neighbours, to tier `j + 1`. */
  lemma {:induction false} TiersAdd(deg: seq<nat>, found: seq<seq<nat>>, j: nat, i: nat, bound: nat, upNext: seq<nat>, found': seq<seq<nat>>)
    requires TiersOk(deg, found, bound) && i < bound && deg[i] == 2 && j < |found|
    requires |found'| == (if |found| < j + 2 then j + 2 else |found|) && found'[j + 1] == upNext
    requires forall t :: 0 <= t < |found'| && t != j + 1 ==> found'[t] == (if t < |found| then found[t] else [])
    requires forall k :: 0 <= k < |upNext| ==> upNext[k] == i || (j + 1 < |found| && upNext[k] in found[j + 1])
    ensures TiersOk(deg, found', bound)
  {
  }

  /**
   * The `while j < len(found)` search shared by both passes: put wall `i`
   * in the tier after the first tier that holds one of its neighbours
   * `nIndexes`, opening that tier if needed; `placed` is false when no
   * tier holds a neighbour.
   */
  method Place(found: seq<seq<nat>>, i: nat, nIndexes: set<nat>, ghost deg: seq<nat>, ghost bound: nat)
    returns (found': seq<seq<nat>>, placed: bool)
    requires TiersOk(deg, found, bound) && i < bound && deg[i] == 2
    ensures TiersOk(deg, found', bound) && found'[0] == found[0]
    ensures !placed ==> found' == found && forall j :: 0 <= j < |found| ==> nIndexes * Elems(found[j]) == {}
    ensures placed ==> exists j :: 0 <= j < |found| && nIndexes * Elems(found[j]) != {} && j + 1 < |found'| && i in found'[j + 1]
  {
    var j := 0;
    while j < |found|
      invariant 0 <= j <= |found|
      invariant forall j' :: 0 <= j' < j ==> nIndexes * Elems(found[j']) == {}
    {
      if nIndexes * Elems(found[j]) != {} {
        found' := found;
        if |found'| < j + 2 {
          found' := found' + [[]];
        }
        var upNext := found'[j + 1];
        if i !in upNext {
          upNext := upNext + [i];
        }
        found' := found'[j + 1 := upNext];
        TiersAdd(deg, found, j, i, bound, upNext, found');
        return found', true;
      }
      j := j + 1;
    }
    return found, false;
  }

  /**
   * `_classify_terminals(walls, limit)`: the indices of walls to prune
   * next, at most `limit` of them, taken from the tier of walls with at
   * most one neighbour first and then from tiers of two-neighbour walls
   * hanging off the previous tier. A `limit` of 0 is Python-false: it
   * never stops the scan early, and nothing is returned. Python sets are
   * modelled as sequences in insertion order, so `islice` takes the
   * earliest-inserted members of a tier.
   */
  method ClassifyTerminals(walls: seq<Wall>, limit: int) returns (toPrune: set<nat>)
    ensures forall e :: e in toPrune ==> e < |walls| && Degree(walls, e) <= 2
    ensures limit <= 0 ==> toPrune == {}
    ensures limit > 0 ==> |toPrune| <= limit
    ensures limit > 0 && (exists e :: 0 <= e < |walls| && Degree(walls, e) <= 1) ==> toPrune != {}
    ensures (exists e :: e in toPrune && Degree(walls, e) == 2) ==>
      forall e :: 0 <= e < |walls| && Degree(walls, e) <= 1 ==> e in toPrune
  {
    ghost var deg := Degrees(walls);
    var found, unmatched, stopped := ScanWalls(walls, limit, deg);
    ghost var f0 := found[0];
    found := PlaceUnmatched(found, unmatched, deg);
    toPrune := TakeTiers(found, limit, deg);
    Conclude(deg, f0, limit, toPrune, stopped);
  }

  /**
   * The `for i, wall in enumerate(walls)` loop: tier 0 collects the walls
   * with at most one neighbour (stopping once it holds `limit` of them),
   * two-neighbour walls are placed after a tier holding a neighbour or
   * set aside as `unmatched`.
   */
  method ScanWalls(walls: seq<Wall>, limit: int, ghost deg: seq<nat>)
    returns (found: seq<seq<nat>>, unmatched: seq<Pending>, ghost stopped: bool)
    requires deg == Degrees(walls)
    ensures TiersOk(deg, found, |walls|)
    ensures forall a, b :: 0 <= a < b < |found[0]| ==> found[0][a] < found[0][b]
    ensures forall k :: 0 <= k < |unmatched| ==> unmatched[k].index < |walls| && deg[unmatched[k].index] == 2
    ensures stopped ==> limit != 0 && |found[0]| >= limit
    ensures !stopped ==> forall e :: 0 <= e < |walls| && deg[e] <= 1 ==> e in found[0]
  {
    found := [[]];
    unmatched := [];
    var pm := PositionMap(walls);
    stopped := false;
    var i := 0;
    while i < |walls|
      invariant 0 <= i <= |walls|
      invariant TiersOk(deg, found, i)
      invariant FirstTier(deg, found[0], i)
      invariant forall k :: 0 <= k < |unmatched| ==> unmatched[k].index < i && deg[unmatched[k].index] == 2
      invariant !stopped
    {
      var neighbours := NeighbourSet(walls[i].position, pm);
      assert |neighbours| == deg[i];
      if |neighbours| <= 1 {
        TerminalStep(deg, found, i);
        found := found[0 := found[0] + [i]];
        if limit != 0 && |found[0]| >= limit {
          TiersWiden(deg, found, i + 1, |walls|);
          stopped := true;
          return;
        }
      } else {
        InnerStep(deg, found, i);
        if |neighbours| == 2 {
          var nIndexes := set q | q in neighbours :: pm[q];
          var placed;
          found, placed := Place(found, i, nIndexes, deg, i + 1);
          if !placed {
            unmatched := unmatched + [Pending(i, nIndexes)];
          }
        }
      }
      i := i + 1;
    }
  }

  lemma TerminalStep(deg: seq<nat>, found: seq<seq<nat>>, i: nat)
    requires i < |deg| && deg[i] <= 1 && TiersOk(deg, found, i) && FirstTier(deg, found[0], i)
    ensures TiersOk(deg, found[0 := found[0] + [i]], i + 1) && FirstTier(deg, found[0] + [i], i + 1)
  {
    var found' := found[0 := found[0] + [i]];
    forall t, k | 0 <= t < |found'| && 0 <= k < |found'[t]|
      ensures found'[t][k] < i + 1 && (if t == 0 then deg[found'[t][k]] <= 1 else deg[found'[t][k]] == 2)
    {
      if t == 0 && k < |found[0]| {
        assert found'[t][k] == found[0][k];
      }
    }
  }

  lemma InnerStep(deg: seq<nat>, found: seq<seq<nat>>, i: nat)
    requires i < |deg| && deg[i] > 1 && TiersOk(deg, found, i) && FirstTier(deg, found[0], i)
    ensures TiersOk(deg, found, i + 1) && FirstTier(deg, found[0], i + 1)
  {
    assert i !in found[0];
  }

  lemma TiersWiden(deg: seq<nat>, found: seq<seq<nat>>, i: nat, bound: nat)
    requires TiersOk(deg, found, i) && i <= bound <= |deg|
    ensures TiersOk(deg, found, bound)
  {
  }

  /** What the collected tier 0 and the final pass give, stated over the degrees. */
  lemma Conclude(deg: seq<nat>, f0: seq<nat>, limit: int, toPrune: set<nat>, stopped: bool)
    requires forall k :: 0 <= k < |f0| ==> f0[k] < |deg| && deg[f0[k]] <= 1
    requires stopped ==> limit != 0 && |f0| >= limit
    requires limit <= 0 ==> toPrune == {}
    requires !stopped ==> forall e :: 0 <= e < |deg| && deg[e] <= 1 ==> e in f0
    requires limit > 0 && |f0| >= limit ==> toPrune == Elems(f0[..limit]) && |toPrune| == limit
    requires limit > 0 && |f0| < limit ==> Elems(f0) <= toPrune
    ensures limit > 0 && (exists e :: 0 <= e < |deg| && deg[e] <= 1) ==> toPrune != {}
    ensures (exists e :: e in toPrune && e < |deg| && deg[e] == 2) ==>
      forall e :: 0 <= e < |deg| && deg[e] <= 1 ==> e in toPrune
  {
    if limit > 0 && (exists e :: 0 <= e < |deg| && deg[e] <= 1) {
      var e :| 0 <= e < |deg| && deg[e] <= 1;
      if !stopped {
        assert e in f0;
        assert f0[0] in Elems(f0);
        if |f0| >= limit {
          assert f0[0] in Elems(f0[..limit]);
        }
      }
    }
  }

  /** The `for index in unmatched` pass: place each pending wall in turn. */
  method PlaceUnmatched(found: seq<seq<nat>>, unmatched: seq<Pending>, ghost deg: seq<nat>) returns (found': seq<seq<nat>>)
    requires TiersOk(deg, found, |deg|)
    requires forall k :: 0 <= k < |unmatched| ==> unmatched[k].index < |deg| && deg[unmatched[k].index] == 2
    ensures TiersOk(deg, found', |deg|) && found'[0] == found[0]
  {
    found' := found;
    for k := 0 to |unmatched|
      invariant TiersOk(deg, found', |deg|) && found'[0] == found[0]
    {
      var placed;
      found', placed := Place(found', unmatched[k].index, unmatched[k].nbrs, deg, |deg|);
    }
  }

  /** The final `for entries in found` loop: fill `to_prune` tier by tier, up to `limit`. */
  method TakeTiers(found: seq<seq<nat>>, limit: int, ghost deg: seq<nat>) returns (toPrune: set<nat>)
    requires TiersOk(deg, found, |deg|)
    requires forall a, b :: 0 <= a < b < |found[0]| ==> found[0][a] < found[0][b]
    ensures forall e :: e in toPrune ==> e < |deg| && deg[e] <= 2
    ensures limit <= 0 ==> toPrune == {}
    ensures limit > 0 ==> |toPrune| <= limit
    ensures limit > 0 && |found[0]| >= limit ==> toPrune == Elems(found[0][..limit]) && |toPrune| == limit
    ensures limit > 0 && |found[0]| < limit ==> Elems(found[0]) <= toPrune
  {
    toPrune := {};
    var f0 := found[0];
    for t := 0 to |found|
      invariant forall e :: e in toPrune ==> e < |deg| && deg[e] <= 2
      invariant limit <= 0 || t == 0 ==> toPrune == {}
      invariant limit > 0 ==> |toPrune| <= limit
      invariant t >= 1 && limit > 0 && |f0| >= limit ==> toPrune == Elems(f0[..limit]) && |toPrune| == limit
      invariant t >= 1 && limit > 0 && |f0| < limit ==> Elems(f0) <= toPrune
    {
      if |toPrune| < limit {
        var take := limit - |toPrune|;
        var entries := found[t];
        var slice := if take < |entries| then entries[..take] else entries;
        ghost var before := toPrune;
        toPrune := toPrune + Elems(slice);
        SliceFacts(deg, found, t, slice);
        if t == 0 {
          FirstSlice(f0, limit, slice);
        }
        ElemsCard(slice);
        CardUnion(before, Elems(slice), |slice|);
      }
    }
  }

  lemma SliceFacts(deg: seq<nat>, found: seq<seq<nat>>, t: nat, slice: seq<nat>)
    requires TiersOk(deg, found, |deg|) && t < |found|
    requires slice == found[t] || (|slice| <= |found[t]| && slice == found[t][..|slice|])
    ensures forall e :: e in Elems(slice) ==> e < |deg| && deg[e] <= 2
  {
    forall e | e in Elems(slice) ensures e < |deg| && deg[e] <= 2 {
      var k :| 0 <= k < |slice| && slice[k] == e;
      assert found[t][k] == e;
    }
  }

  lemma FirstSlice(f0: seq<nat>, limit: int, slice: seq<nat>)
    requires forall a, b :: 0 <= a < b < |f0| ==> f0[a] < f0[b]
    requires limit > 0 && slice == if limit < |f0| then f0[..limit] else f0
    ensures |f0| >= limit ==> Elems(slice) == Elems(f0[..limit]) && |Elems(slice)| == limit
    ensures |f0| < limit ==> Elems(slice) == Elems(f0)
  {
    if |f0| >= limit {
      assert slice == f0[..limit];
      assert Dicts.Distinct(f0[..limit]);
      Dicts.DistinctCard(f0[..limit]);
    }
  }

  lemma CardUnion(a: set<nat>, b: set<nat>, n: nat)
    requires |b| <= n
    ensures |a + b| <= |a| + n
  {
  }

  lemma {:induction false} ElemsCard(s: seq<nat>)
    ensures |Elems(s)| <= |s|
  {
    if s != [] {
      ElemsCard(s[1..]);
      assert Elems(s) == Elems(s[1..]) + {s[0]};
    }
  }

  // ---------------------------------------------------------------------
  // Pruning

  /** Python's `round` on a number: the nearest integer, ties to the even one. */
  function RoundHalfEven(x: real): (r: int)
    ensures x - 0.5 <= r as real <= x + 0.5
    ensures (r as real - x == 0.5 || x - r as real == 0.5) ==> r % 2 == 0
  {
    var f := x.Floor;
    if x - f as real < 0.5 then f
    else if x - f as real > 0.5 then f + 1
    else if f % 2 == 0 then f
    else f + 1
  }

  /** The two properties of `RoundHalfEven` single out one integer. */
  lemma RoundUnique(x: real, n: int)
    requires x - 0.5 <= n as real <= x + 0.5
    requires (n as real - x == 0.5 || x - n as real == 0.5) ==> n % 2 == 0
    ensures n == RoundHalfEven(x)
  {
  }

  /** Rounding a value between 0 and `n` stays between 0 and `n`. */
  lemma RoundBounds(x: real, n: nat)
    requires 0.0 <= x <= n as real
    ensures 0 <= RoundHalfEven(x) <= n
  {
  }

  /** `int(round(len(walls) * (1 - fraction)))`, computed on exact reals. */
  function NumToPrune(n: nat, fraction: real): (k: int)
    ensures 0.0 <= fraction <= 1.0 ==> 0 <= k <= n
    ensures fraction == 1.0 ==> k == 0
  {
    var x := n as real * (1.0 - fraction);
    if 0.0 <= fraction <= 1.0 then
      FractionBound(n, 1.0 - fraction);
      RoundBounds(x, n);
      RoundHalfEven(x)
    else
      RoundHalfEven(x)
  }

  lemma FractionBound(n: nat, f: real)
    requires 0.0 <= f <= 1.0
    ensures 0.0 <= n as real * f <= n as real
  {
  }

  /** `a` is `b` with some elements left out, the rest kept in order. */
  ghost predicate Subseq<T>(a: seq<T>, b: seq<T>)
    decreases |b|
  {
    if a == [] then true
    else if b == [] then false
    else (a[|a| - 1] == b[|b| - 1] && Subseq(a[..|a| - 1], b[..|b| - 1])) || Subseq(a, b[..|b| - 1])
  }

  lemma {:induction false} SubseqRefl<T>(a: seq<T>)
    ensures Subseq(a, a)
    decreases |a|
  {
    if a != [] {
      SubseqRefl(a[..|a| - 1]);
    }
  }

  lemma {:induction false} SubseqTrans<T>(a: seq<T>, b: seq<T>, c: seq<T>)
    requires Subseq(a, b) && Subseq(b, c)
    ensures Subseq(a, c)
    decreases |c|
  {
    if a != [] {
      var c' := c[..|c| - 1];
      if b[|b| - 1] == c[|c| - 1] && Subseq(b[..|b| - 1], c') {
        if a[|a| - 1] == b[|b| - 1] && Subseq(a[..|a| - 1], b[..|b| - 1]) {
          SubseqTrans(a[..|a| - 1], b[..|b| - 1], c');
        } else {
          SubseqTrans(a, b[..|b| - 1], c');
        }
      } else {
        SubseqTrans(a, b, c');
      }
    }
  }

  /** Every element of a subsequence comes from the sequence, at a position no earlier. */
  lemma {:induction false} SubseqIndex<T>(a: seq<T>, b: seq<T>, i: nat)
    requires Subseq(a, b) && i < |a|
    ensures exists j :: i <= j < |b| && a[i] == b[j]
    decreases |b|
  {
    var b' := b[..|b| - 1];
    if a[|a| - 1] == b[|b| - 1] && Subseq(a[..|a| - 1], b') {
      if i < |a| - 1 {
        SubseqIndex(a[..|a| - 1], b', i);
        var j :| i <= j < |b'| && a[..|a| - 1][i] == b'[j];
        assert a[i] == b[j];
      } else {
        SubseqLen(a[..|a| - 1], b');
        assert a[i] == b[|b| - 1];
      }
    } else {
      SubseqIndex(a, b', i);
      var j :| i <= j < |b'| && a[i] == b'[j];
      assert a[i] == b[j];
    }
  }

  lemma {:induction false} SubseqLen<T>(a: seq<T>, b: seq<T>)
    requires Subseq(a, b)
    ensures |a| <= |b|
    decreases |b|
  {
    if a != [] {
      if a[|a| - 1] == b[|b| - 1] && Subseq(a[..|a| - 1], b[..|b| - 1]) {
        SubseqLen(a[..|a| - 1], b[..|b| - 1]);
      } else {
        SubseqLen(a, b[..|b| - 1]);
      }
    }
  }

  /** Leaving elements out keeps a strictly increasing order strictly increasing. */
  lemma {:induction false} SubseqOrdered(a: seq<Wall>, b: seq<Wall>, columns: int)
    requires Subseq(a, b)
    requires forall i, j :: 0 <= i < j < |b| ==> RowMajor(b[i].position, columns) < RowMajor(b[j].position, columns)
    ensures forall i, j :: 0 <= i < j < |a| ==> RowMajor(a[i].position, columns) < RowMajor(a[j].position, columns)
    decreases |b|
  {
    if a != [] {
      var a', b' := a[..|a| - 1], b[..|b| - 1];
      if a[|a| - 1] == b[|b| - 1] && Subseq(a', b') {
        SubseqOrdered(a', b', columns);
        forall i | 0 <= i < |a'|
          ensures RowMajor(a[i].position, columns) < RowMajor(a[|a| - 1].position, columns)
        {
          SubseqIndex(a', b', i);
          var j :| i <= j < |b'| && a'[i] == b'[j];
          assert b[j] == a[i];
        }
        forall i, j | 0 <= i < j < |a|
          ensures RowMajor(a[i].position, columns) < RowMajor(a[j].position, columns)
        {
          if j < |a| - 1 {
            assert a[i] == a'[i] && a[j] == a'[j];
          }
        }
      } else {
        SubseqOrdered(a, b', columns);
      }
    }
  }

  /** `[w for i, w in enumerate(walls) if i not in to_prune]` */
  function FilterOut(walls: seq<Wall>, s: set<nat>): seq<Wall>
    decreases |walls|
  {
    if walls == [] then []
    else
      var n := |walls| - 1;
      FilterOut(walls[..n], s) + (if n in s then [] else [walls[n]])
  }

  /** The members of `s` that index into a sequence of length `n`. */
  function Below(s: set<nat>, n: nat): set<nat> {
    set e | e in s && e < n
  }

  /** Filtering keeps exactly the walls whose index is not in `s`, so it is a subsequence of the right length. */
  lemma {:induction false} FilterOutFacts(walls: seq<Wall>, s: set<nat>)
    ensures Subseq(FilterOut(walls, s), walls)
    ensures |FilterOut(walls, s)| == |walls| - |Below(s, |walls|)|
    decreases |walls|
  {
    if walls != [] {
      var n := |walls| - 1;
      var w' := walls[..n];
      FilterOutFacts(w', s);
      var f' := FilterOut(w', s);
      if n in s {
        assert Below(s, |walls|) == Below(s, n) + {n};
        assert FilterOut(walls, s) == f';
        if f' != [] {
          assert Subseq(f', walls);
        }
      } else {
        assert Below(s, |walls|) == Below(s, n);
        var f := f' + [walls[n]];
        assert f[..|f| - 1] == f';
      }
    }
  }

  lemma BelowAll(s: set<nat>, n: nat)
    requires forall e :: e in s ==> e < n
    ensures Below(s, n) == s
  {
  }

  /** Filtering with an empty set keeps every wall. */
  lemma {:induction false} FilterOutNone(walls: seq<Wall>)
    ensures FilterOut(walls, {}) == walls
    decreases |walls|
  {
    if walls != [] {
      FilterOutNone(walls[..|walls| - 1]);
    }
  }

  /**
   * The first loop of `_prune`: remove terminal walls, in rounds of
   * `_classify_terminals`, until `NumToPrune(len(walls), density)` are gone;
   * stop early when a round finds nothing to remove.
   */
  method PruneTerminals(walls: seq<Wall>, density: real) returns (kept: seq<Wall>)
    ensures Subseq(kept, walls)
    ensures NumToPrune(|walls|, density) <= 0 ==> kept == walls
    ensures NumToPrune(|walls|, density) > 0 ==> |walls| - |kept| <= NumToPrune(|walls|, density)
    ensures |walls| - |kept| < NumToPrune(|walls|, density) ==>
      forall e :: 0 <= e < |kept| ==> Degree(kept, e) >= 2
  {
    var numToPrune := NumToPrune(|walls|, density);
    var numPruned := 0;
    kept := walls;
    SubseqRefl(walls);
    while numPruned < numToPrune
      invariant 0 <= numPruned <= numToPrune || (numPruned == 0 && kept == walls)
      invariant Subseq(kept, walls) && |walls| - |kept| == numPruned
      invariant numToPrune <= 0 ==> kept == walls
      decreases numToPrune - numPruned
    {
      var toPrune := ClassifyTerminals(kept, numToPrune - numPruned);
      ghost var before := kept;
      kept := FilterOut(kept, toPrune);
      FilterOutFacts(before, toPrune);
      BelowAll(toPrune, |before|);
      SubseqTrans(kept, before, walls);
      if |toPrune| == 0 {
        FilterOutNone(before);
        return;
      }
      numPruned := numPruned + |toPrune|;
    }
  }

  /** A result of `random.sample(range(n), k)`: `k` distinct indices below `n`. */
  ghost predicate IsSample(s: seq<nat>, n: nat, k: nat) {
    |s| == k && Dicts.Distinct(s) && forall i :: 0 <= i < |s| ==> s[i] < n
  }

  /** `random.sample(range(n), k)` as a parameter of the model; only called with `k <= n`. */
  type Sampler = f: (nat, nat) -> seq<nat> | forall n: nat, k: nat :: k <= n ==> IsSample(f(n, k), n, k)
    witness (n: nat, k: nat) => seq(k, i => i)

  /**
   * The second step of `_prune`: drop `NumToPrune(len(walls), contiguity)`
   * walls chosen by `sample`; `random.sample` raises `ValueError` when that
   * number is negative or more than there are walls.
   */
  function PruneRandom(walls: seq<Wall>, contiguity: real, sample: Sampler): (res: Result<seq<Wall>>)
    ensures var k := NumToPrune(|walls|, contiguity);
      (res.Err? <==> k < 0 || k > |walls|) &&
      (res.Err? ==> res.error == "ValueError") &&
      (res.Ok? ==> Subseq(res.value, walls) && |res.value| == |walls| - k)
    ensures 0.0 <= contiguity <= 1.0 ==> res.Ok?
    ensures contiguity == 1.0 ==> res == Ok(walls)
  {
    var k := NumToPrune(|walls|, contiguity);
    if k < 0 || k > |walls| then Err("ValueError")
    else
      var chosen := sample(|walls|, k);
      SampleChosen(walls, chosen, k);
      Ok(FilterOut(walls, Elems(chosen)))
  }

  lemma SampleChosen(walls: seq<Wall>, chosen: seq<nat>, k: nat)
    requires IsSample(chosen, |walls|, k)
    ensures Subseq(FilterOut(walls, Elems(chosen)), walls)
    ensures |FilterOut(walls, Elems(chosen))| == |walls| - k
    ensures k == 0 ==> FilterOut(walls, Elems(chosen)) == walls
  {
    FilterOutFacts(walls, Elems(chosen));
    BelowAll(Elems(chosen), |walls|);
    Dicts.DistinctCard(chosen);
    if k == 0 {
      assert Elems(chosen) == {};
      FilterOutNone(walls);
    }
  }

  /** `_prune(walls, density, contiguity)` */
  method Prune(walls: seq<Wall>, density: real, contiguity: real, sample: Sampler) returns (res: Result<seq<Wall>>)
    ensures res.Ok? ==> Subseq(res.value, walls)
    ensures res.Err? ==> res.error == "ValueError"
    ensures 0.0 <= contiguity <= 1.0 ==> res.Ok?
    ensures density == 1.0 && contiguity == 1.0 ==> res == Ok(walls)
  {
    var kept := PruneTerminals(walls, density);
    res := PruneRandom(kept, contiguity, sample);
    if res.Ok? {
      SubseqTrans(res.value, kept, walls);
    }
  }

  /**
   * `labyrinth(columns, rows, density, contiguity)`: a density of 0 gives no
   * walls; otherwise the generated maze's wall cells, in the default colour,
   * pruned. The start cell and the shuffles of `_generate` and the sample of
   * `_prune` are parameters.
   */
  method Labyrinth(columns: int, rows: int, density: real, contiguity: real,
                   sx: int, sy: int, shuffles: nat -> Shuffle, sample: Sampler)
    returns (res: Result<seq<Wall>>)
    requires (columns - 1) / 2 >= 1 && (rows - 1) / 2 >= 1 ==> 0 <= sx < (columns - 1) / 2 && 0 <= sy < (rows - 1) / 2
    ensures density == 0.0 ==> res == Ok([])
    ensures density != 0.0 && ((columns - 1) / 2 < 1 || (rows - 1) / 2 < 1) ==> res == Err("ValueError")
    ensures res.Err? ==> res.error == "ValueError"
    ensures density != 0.0 && (columns - 1) / 2 >= 1 && (rows - 1) / 2 >= 1 && 0.0 <= contiguity <= 1.0 ==> res.Ok?
    ensures res.Ok? ==> forall k :: 0 <= k < |res.value| ==>
      0 <= res.value[k].position.row < rows && 0 <= res.value[k].position.col < columns &&
      res.value[k].color == DefaultColor
    ensures res.Ok? ==> forall a, b :: 0 <= a < b < |res.value| ==>
      RowMajor(res.value[a].position, columns) < RowMajor(res.value[b].position, columns)
    ensures res.Ok? && density == 1.0 && contiguity == 1.0 ==>
      |res.value| == 2 * ((rows - 1) / 2 + 1) * ((columns - 1) / 2 + 1)
  {
    if density == 0.0 {
      return Ok([]);
    }
    var positions := Generate(rows, columns, sx, sy, shuffles);
    if positions.Err? {
      return Err(positions.error);
    }
    var walls := seq(|positions.value|, k requires 0 <= k < |positions.value| => NewWall(positions.value[k]));
    res := Prune(walls, density, contiguity, sample);
    if res.Ok? {
      SubseqOrdered(res.value, walls, columns);
      forall k | 0 <= k < |res.value|
        ensures 0 <= res.value[k].position.row < rows && 0 <= res.value[k].position.col < columns &&
          res.value[k].color == DefaultColor
      {
        SubseqIndex(res.value, walls, k);
      }
    }
  }
}
