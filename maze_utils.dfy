/**
 * Path finding over a wall maze (dlgr/griduniverse/maze_utils.py): the maze
 * as a 0/1 matrix, its adjacency graph, and the A* search the bots use to
 * measure walking distances.
 */
module MazeUtils {
  import opened Base
  import Labyrinths = Maze

  /** `maze[row][col]` is 1 for a wall and 0 for an open cell. */
  type Maze = seq<seq<int>>

  function Width(maze: Maze): nat {
    if |maze| == 0 then 0 else |maze[0]|
  }

  ghost predicate Rectangular(maze: Maze) {
    forall i :: 0 <= i < |maze| ==> |maze[i]| == Width(maze)
  }

  ghost predicate Binary(maze: Maze) {
    forall i, j :: 0 <= i < |maze| && 0 <= j < |maze[i]| ==> maze[i][j] == 0 || maze[i][j] == 1
  }

  predicate InBounds(maze: Maze, p: Pos) {
    0 <= p.row < |maze| && 0 <= p.col < Width(maze)
  }

  /** `not maze[row][col]` for an in-bounds cell. */
  predicate IsOpen(maze: Maze, p: Pos) {
    InBounds(maze, p) && p.col < |maze[p.row]| && maze[p.row][p.col] == 0
  }

  const Directions: seq<char> := ['N', 'S', 'E', 'W']

  /** The cell one step away in a compass direction (rows grow southwards). */
  function Step(p: Pos, d: char): Pos {
    match d
    case 'N' => Pos(p.row - 1, p.col)
    case 'S' => Pos(p.row + 1, p.col)
    case 'E' => Pos(p.row, p.col + 1)
    case 'W' => Pos(p.row, p.col - 1)
    case _ => p
  }

  function Opposite(d: char): char {
    match d
    case 'N' => 'S'
    case 'S' => 'N'
    case 'E' => 'W'
    case 'W' => 'E'
    case _ => d
  }

  lemma StepBack(p: Pos, d: char)
    requires d in Directions
    ensures Opposite(d) in Directions && Step(Step(p, d), Opposite(d)) == p
    ensures Manhattan(p, Step(p, d)) == 1
  {
  }

  /** An adjacency entry `(direction, neighbour)`. */
  datatype Edge = Edge(dir: char, to: Pos)

  type Graph = map<Pos, seq<Edge>>

  function OpenCells(maze: Maze): set<Pos> {
    set i, j | 0 <= i < |maze| && 0 <= j < Width(maze) && IsOpen(maze, Pos(i, j)) :: Pos(i, j)
  }

  ghost function OpenDirs(maze: Maze, u: Pos): set<char> {
    set d | d in Directions && IsOpen(maze, Step(u, d))
  }

  ghost function Labels(es: seq<Edge>): set<char> {
    set k | 0 <= k < |es| :: es[k].dir
  }

  ghost predicate DistinctLabels(es: seq<Edge>) {
    forall a, b :: 0 <= a < b < |es| ==> es[a].dir != es[b].dir
  }

  ghost predicate Geometric(u: Pos, es: seq<Edge>) {
    forall k :: 0 <= k < |es| ==> es[k].to == Step(u, es[k].dir)
  }

  /**
   * The graph of a maze: its nodes are exactly the open cells, and each node
   * has one edge, labelled by its direction, to every open orthogonal neighbour.
   */
  ghost predicate IsMazeGraph(maze: Maze, g: Graph) {
    g.Keys == OpenCells(maze) &&
    forall u :: u in g ==> DistinctLabels(g[u]) && Geometric(u, g[u]) && Labels(g[u]) == OpenDirs(maze, u)
  }

  lemma EdgeFacts(maze: Maze, g: Graph, u: Pos, k: nat)
    requires IsMazeGraph(maze, g) && u in g && k < |g[u]|
    ensures g[u][k].dir in Directions && g[u][k].to == Step(u, g[u][k].dir)
    ensures IsOpen(maze, g[u][k].to) && g[u][k].to in g
  {
    assert g[u][k].dir in Labels(g[u]);
    var v := g[u][k].to;
    assert v in OpenCells(maze);
  }

  lemma EdgeFor(maze: Maze, g: Graph, u: Pos, d: char) returns (k: nat)
    requires IsMazeGraph(maze, g) && u in g && d in Directions && IsOpen(maze, Step(u, d))
    ensures k < |g[u]| && g[u][k].dir == d && g[u][k].to == Step(u, d)
  {
    assert d in OpenDirs(maze, u);
    assert d in Labels(g[u]);
    var j :| 0 <= j < |g[u]| && g[u][j].dir == d;
    k := j;
  }

  /** Edges are symmetric: every edge has its reverse, with the opposite label. */
  lemma GraphSymmetric(maze: Maze, g: Graph, u: Pos, k: nat) returns (k': nat)
    requires IsMazeGraph(maze, g) && u in g && k < |g[u]|
    ensures g[u][k].to in g
    ensures k' < |g[g[u][k].to]|
    ensures g[g[u][k].to][k'] == Edge(Opposite(g[u][k].dir), u)
  {
    EdgeFacts(maze, g, u, k);
    var d := g[u][k].dir;
    var v := g[u][k].to;
    StepBack(u, d);
    k' := EdgeFor(maze, g, v, Opposite(d));
  }

  /** Cell `p` has been visited by the scan once the scan is at column `j`, row `i`. */
  predicate Done(p: Pos, j: int, i: int) {
    p.col < j || (p.col == j && p.row < i)
  }

  /**
   * The labels a node carries while the scan's south/north edges have reached
   * `(jS, iS)` and its east/west edges `(jE, iE)`.
   */
  ghost function Expected(maze: Maze, u: Pos, jS: int, iS: int, jE: int, iE: int): set<char> {
    (if Done(u, jS, iS) && IsOpen(maze, Step(u, 'S')) then {'S'} else {}) +
    (if Done(Step(u, 'N'), jS, iS) && IsOpen(maze, Step(u, 'N')) then {'N'} else {}) +
    (if Done(u, jE, iE) && IsOpen(maze, Step(u, 'E')) then {'E'} else {}) +
    (if Done(Step(u, 'W'), jE, iE) && IsOpen(maze, Step(u, 'W')) then {'W'} else {})
  }

  ghost predicate NodeOk(maze: Maze, u: Pos, es: seq<Edge>, jS: int, iS: int, jE: int, iE: int) {
    DistinctLabels(es) && Geometric(u, es) && Labels(es) == Expected(maze, u, jS, iS, jE, iE)
  }

  ghost predicate ScanInv(maze: Maze, g: Graph, jS: int, iS: int, jE: int, iE: int) {
    g.Keys == OpenCells(maze) &&
    forall u :: u in g ==> NodeOk(maze, u, g[u], jS, iS, jE, iE)
  }

  lemma LabelsAppend(es: seq<Edge>, e: Edge)
    ensures Labels(es + [e]) == Labels(es) + {e.dir}
  {
    var r := es + [e];
    assert r[|es|].dir == e.dir;
    forall x | x in Labels(es) ensures x in Labels(r) {
      var k :| 0 <= k < |es| && es[k].dir == x;
      assert r[k].dir == x;
    }
  }

  /** Appending an edge with a new label keeps the labels distinct. */
  lemma AppendFacts(u: Pos, es: seq<Edge>, d: char)
    requires DistinctLabels(es) && Geometric(u, es) && d !in Labels(es)
    ensures DistinctLabels(es + [Edge(d, Step(u, d))]) && Geometric(u, es + [Edge(d, Step(u, d))])
    ensures Labels(es + [Edge(d, Step(u, d))]) == Labels(es) + {d}
  {
    LabelsAppend(es, Edge(d, Step(u, d)));
    forall k | 0 <= k < |es| ensures es[k].dir != d {
      assert es[k].dir in Labels(es);
    }
  }

  /** Adds edge `(d, v)` at `u` and the reverse edge `(d', u)` at `v`. */
  function AddPair(g: Graph, u: Pos, d: char, v: Pos, d': char): Graph
    requires u in g && v in g
  {
    g[u := g[u] + [Edge(d, v)]][v := g[v] + [Edge(d', u)]]
  }

  /** Once the scan has passed every cell, each node carries all its open directions. */
  lemma ExpectedFinal(maze: Maze, u: Pos)
    requires IsOpen(maze, u)
    ensures Expected(maze, u, Width(maze), 0, Width(maze), 0) == OpenDirs(maze, u)
  {
  }

  /** How the expected labels grow when the south/north scan passes cell `(i, j)`. */
  lemma ExpectedSouth(maze: Maze, w: Pos, j: int, i: int, jE: int, iE: int)
    ensures Expected(maze, w, j, i + 1, jE, iE) ==
      Expected(maze, w, j, i, jE, iE)
      + (if w == Pos(i, j) && IsOpen(maze, Pos(i + 1, j)) then {'S'} else {})
      + (if w == Pos(i + 1, j) && IsOpen(maze, Pos(i, j)) then {'N'} else {})
  {
  }

  /** How the expected labels grow when the east/west scan passes cell `(i, j)`. */
  lemma ExpectedEast(maze: Maze, w: Pos, jS: int, iS: int, j: int, i: int)
    ensures Expected(maze, w, jS, iS, j, i + 1) ==
      Expected(maze, w, jS, iS, j, i)
      + (if w == Pos(i, j) && IsOpen(maze, Pos(i, j + 1)) then {'E'} else {})
      + (if w == Pos(i, j + 1) && IsOpen(maze, Pos(i, j)) then {'W'} else {})
  {
  }

  /** Appending one edge at node `u` whose label the next scan position expects there. */
  lemma AppendNode(maze: Maze, u: Pos, es: seq<Edge>, d: char, before: set<char>, after: set<char>)
    requires DistinctLabels(es) && Geometric(u, es) && Labels(es) == before
    requires d !in before && after == before + {d}
    ensures NodeOk'(u, es + [Edge(d, Step(u, d))], after)
  {
    AppendFacts(u, es, d);
  }

  ghost predicate NodeOk'(u: Pos, es: seq<Edge>, labels: set<char>) {
    DistinctLabels(es) && Geometric(u, es) && Labels(es) == labels
  }

  /** One node after the south/north scan passes open cell `(i, j)`. */
  lemma SouthNode(maze: Maze, g: Graph, j: int, i: int, jE: int, iE: int, g': Graph, w: Pos)
    requires IsOpen(maze, Pos(i, j)) && w in g && Pos(i, j) in g
    requires IsOpen(maze, Pos(i + 1, j)) ==> Pos(i + 1, j) in g && Pos(i + 1, j) != Pos(i, j)
    requires NodeOk(maze, w, g[w], j, i, jE, iE)
    requires IsOpen(maze, w)
    requires g' == (if IsOpen(maze, Pos(i + 1, j))
      then AddPair(g, Pos(i, j), 'S', Pos(i + 1, j), 'N')
      else g)
    ensures w in g' && NodeOk(maze, w, g'[w], j, i + 1, jE, iE)
  {
    var u, s := Pos(i, j), Pos(i + 1, j);
    ExpectedSouth(maze, w, j, i, jE, iE);
    if w == u && IsOpen(maze, s) {
      AppendNode(maze, u, g[u], 'S', Expected(maze, w, j, i, jE, iE), Expected(maze, w, j, i + 1, jE, iE));
    } else if w == s {
      AppendNode(maze, s, g[s], 'N', Expected(maze, w, j, i, jE, iE), Expected(maze, w, j, i + 1, jE, iE));
    } else {
      assert g'[w] == g[w];
    }
  }

  /** The south edge of `u = (i, j)` and its northern reverse. */
  lemma ScanSouth(maze: Maze, g: Graph, j: int, i: int, jE: int, iE: int, g': Graph)
    requires ScanInv(maze, g, j, i, jE, iE) && IsOpen(maze, Pos(i, j))
    requires g' == (if IsOpen(maze, Pos(i + 1, j))
      then AddPair(g, Pos(i, j), 'S', Pos(i + 1, j), 'N')
      else g)
    ensures ScanInv(maze, g', j, i + 1, jE, iE)
  {
    var u, s := Pos(i, j), Pos(i + 1, j);
    assert u in OpenCells(maze);
    assert IsOpen(maze, s) ==> s in OpenCells(maze);
    assert g'.Keys == g.Keys;
    forall w | w in g' ensures NodeOk(maze, w, g'[w], j, i + 1, jE, iE) {
      SouthNode(maze, g, j, i, jE, iE, g', w);
    }
  }

  /** One node after the east/west scan passes open cell `(i, j)`. */
  lemma EastNode(maze: Maze, g: Graph, jS: int, iS: int, j: int, i: int, g': Graph, w: Pos)
    requires IsOpen(maze, Pos(i, j)) && w in g && Pos(i, j) in g
    requires IsOpen(maze, Pos(i, j + 1)) ==> Pos(i, j + 1) in g && Pos(i, j + 1) != Pos(i, j)
    requires NodeOk(maze, w, g[w], jS, iS, j, i)
    requires IsOpen(maze, w)
    requires g' == (if IsOpen(maze, Pos(i, j + 1))
      then AddPair(g, Pos(i, j), 'E', Pos(i, j + 1), 'W')
      else g)
    ensures w in g' && NodeOk(maze, w, g'[w], jS, iS, j, i + 1)
  {
    var u, e := Pos(i, j), Pos(i, j + 1);
    ExpectedEast(maze, w, jS, iS, j, i);
    if w == u && IsOpen(maze, e) {
      AppendNode(maze, u, g[u], 'E', Expected(maze, w, jS, iS, j, i), Expected(maze, w, jS, iS, j, i + 1));
    } else if w == e {
      AppendNode(maze, e, g[e], 'W', Expected(maze, w, jS, iS, j, i), Expected(maze, w, jS, iS, j, i + 1));
    } else {
      assert g'[w] == g[w];
    }
  }

  /** The east edge of `u = (i, j)` and its western reverse. */
  lemma ScanEast(maze: Maze, g: Graph, jS: int, iS: int, j: int, i: int, g': Graph)
    requires ScanInv(maze, g, jS, iS, j, i) && IsOpen(maze, Pos(i, j))
    requires g' == (if IsOpen(maze, Pos(i, j + 1))
      then AddPair(g, Pos(i, j), 'E', Pos(i, j + 1), 'W')
      else g)
    ensures ScanInv(maze, g', jS, iS, j, i + 1)
  {
    var u, e := Pos(i, j), Pos(i, j + 1);
    assert u in OpenCells(maze);
    assert IsOpen(maze, e) ==> e in OpenCells(maze);
    assert g'.Keys == g.Keys;
    forall w | w in g' ensures NodeOk(maze, w, g'[w], jS, iS, j, i + 1) {
      EastNode(maze, g, jS, iS, j, i, g', w);
    }
  }

  /** Skipping a wall cell, or moving from the bottom of a column to the next, changes nothing. */
  lemma ScanMove(maze: Maze, g: Graph, j: int, i: int, j': int, i': int)
    requires ScanInv(maze, g, j, i, j, i)
    requires forall p :: IsOpen(maze, p) ==> (Done(p, j, i) <==> Done(p, j', i'))
    ensures ScanInv(maze, g, j', i', j', i')
  {
    forall w | w in g ensures NodeOk(maze, w, g[w], j', i', j', i') {
      assert NodeOk(maze, w, g[w], j, i, j, i);
      assert w in OpenCells(maze);
      assert Expected(maze, w, j', i', j', i') == Expected(maze, w, j, i, j, i);
    }
  }

  /** The scan's visit of cell `(i, j)`: an open cell gets its south and east edges and their reverses. */
  method ScanCell(maze: Maze, g: Graph, j: nat, i: nat) returns (g': Graph)
    requires Rectangular(maze) && i < |maze| && j < Width(maze)
    requires ScanInv(maze, g, j, i, j, i)
    ensures ScanInv(maze, g', j, i + 1, j, i + 1)
  {
    if maze[i][j] == 0 {
      var g1 := LinkSouth(maze, g, j, i);
      g' := LinkEast(maze, g1, j, i);
    } else {
      g' := g;
      ScanMove(maze, g, j, i, j, i + 1);
    }
  }

  /** The south edge of open cell `(i, j)` and its reverse, when the cell below is open. */
  method LinkSouth(maze: Maze, g: Graph, j: nat, i: nat) returns (g': Graph)
    requires Rectangular(maze) && i < |maze| && j < Width(maze) && maze[i][j] == 0
    requires ScanInv(maze, g, j, i, j, i)
    ensures ScanInv(maze, g', j, i + 1, j, i)
  {
    var u := Pos(i, j);
    Neighbours(maze, i, j);
    g' := g;
    if i < |maze| - 1 && maze[i + 1][j] == 0 {
      g' := AddPair(g', u, 'S', Pos(i + 1, j), 'N');
    }
    ScanSouth(maze, g, j, i, j, i, g');
  }

  /** The east edge of open cell `(i, j)` and its reverse, when the cell to the right is open. */
  method LinkEast(maze: Maze, g: Graph, j: nat, i: nat) returns (g': Graph)
    requires Rectangular(maze) && i < |maze| && j < Width(maze) && maze[i][j] == 0
    requires ScanInv(maze, g, j, i + 1, j, i)
    ensures ScanInv(maze, g', j, i + 1, j, i + 1)
  {
    var u := Pos(i, j);
    Neighbours(maze, i, j);
    g' := g;
    if j < Width(maze) - 1 && maze[i][j + 1] == 0 {
      g' := AddPair(g', u, 'E', Pos(i, j + 1), 'W');
    }
    ScanEast(maze, g, j, i + 1, j, i, g');
  }

  /** `maze_to_graph`: scans the open cells column by column, row by row. */
  method MazeToGraph(maze: Maze) returns (g: Graph)
    requires Rectangular(maze)
    ensures IsMazeGraph(maze, g)
  {
    var height := |maze|;
    var width := Width(maze);
    g := map p | p in OpenCells(maze) :: [];
    ScanStart(maze, g);
    var j := 0;
    while j < width
      invariant 0 <= j <= width
      invariant ScanInv(maze, g, j, 0, j, 0)
    {
      var i := 0;
      while i < height
        invariant 0 <= i <= height
        invariant ScanInv(maze, g, j, i, j, i)
      {
        g := ScanCell(maze, g, j, i);
        i := i + 1;
      }
      ScanMove(maze, g, j, height, j + 1, 0);
      j := j + 1;
    }
    ScanDone(maze, g);
  }

  /** Before the scan every open cell is a node without edges, which is what nothing scanned expects. */
  lemma ScanStart(maze: Maze, g: Graph)
    requires g == map p | p in OpenCells(maze) :: []
    ensures ScanInv(maze, g, 0, 0, 0, 0)
  {
    forall u | u in g ensures NodeOk(maze, u, g[u], 0, 0, 0, 0) {
      assert u in OpenCells(maze);
      assert Labels(g[u]) == {};
    }
  }

  /** After the last column every node has all its open directions. */
  lemma ScanDone(maze: Maze, g: Graph)
    requires Rectangular(maze) && ScanInv(maze, g, Width(maze), 0, Width(maze), 0)
    ensures IsMazeGraph(maze, g)
  {
    forall u | u in g ensures Labels(g[u]) == OpenDirs(maze, u) {
      assert NodeOk(maze, u, g[u], Width(maze), 0, Width(maze), 0);
      assert u in OpenCells(maze);
      ExpectedFinal(maze, u);
    }
  }

  /** The scan's tests for open cell `(i, j)` and the cells below and to the right of it. */
  lemma Neighbours(maze: Maze, i: nat, j: nat)
    requires Rectangular(maze) && i < |maze| && j < Width(maze) && maze[i][j] == 0
    ensures IsOpen(maze, Pos(i, j)) && Pos(i, j) in OpenCells(maze)
    ensures (i < |maze| - 1 && maze[i + 1][j] == 0) == IsOpen(maze, Pos(i + 1, j))
    ensures IsOpen(maze, Pos(i + 1, j)) ==> Pos(i + 1, j) in OpenCells(maze)
    ensures (j < Width(maze) - 1 && maze[i][j + 1] == 0) == IsOpen(maze, Pos(i, j + 1))
    ensures IsOpen(maze, Pos(i, j + 1)) ==> Pos(i, j + 1) in OpenCells(maze)
  {
    OpenIn(maze, Pos(i, j));
    if IsOpen(maze, Pos(i + 1, j)) {
      OpenIn(maze, Pos(i + 1, j));
    }
    if IsOpen(maze, Pos(i, j + 1)) {
      OpenIn(maze, Pos(i, j + 1));
    }
  }

  /** The convenient form of `x in OpenCells(maze)`. */
  lemma OpenIn(maze: Maze, p: Pos)
    requires IsOpen(maze, p)
    ensures p in OpenCells(maze)
  {
    assert p == Pos(p.row, p.col);
  }

  // ---------------------------------------------------------------------
  // Walks: the meaning of an A* path string.
  // ---------------------------------------------------------------------

  /** The cell reached from `s` by following the compass letters of `path` through open cells. */
  ghost function MazeWalk(maze: Maze, s: Pos, path: string): Option<Pos>
    decreases |path|
  {
    if path == [] then Some(s)
    else match MazeWalk(maze, s, path[..|path| - 1])
      case None => None
      case Some(v) =>
        var d := path[|path| - 1];
        if d in Directions && IsOpen(maze, Step(v, d)) then Some(Step(v, d)) else None
  }

  lemma WalkSnoc(maze: Maze, s: Pos, p: string, d: char)
    ensures MazeWalk(maze, s, p + [d]) ==
      match MazeWalk(maze, s, p)
      case None => None
      case Some(v) => if d in Directions && IsOpen(maze, Step(v, d)) then Some(Step(v, d)) else None
  {
    assert (p + [d])[..|p|] == p;
  }

  /** A walk is at least as long as the Manhattan distance it covers. */
  lemma {:induction false} WalkLength(maze: Maze, s: Pos, p: string)
    requires MazeWalk(maze, s, p).Some?
    ensures |p| >= Manhattan(s, MazeWalk(maze, s, p).value)
    decreases |p|
  {
    if p != [] {
      var q, d := p[..|p| - 1], p[|p| - 1];
      assert p == q + [d];
      WalkSnoc(maze, s, q, d);
      WalkLength(maze, s, q);
      StepBack(MazeWalk(maze, s, q).value, d);
    }
  }

  // ---------------------------------------------------------------------
  // The priority queue's order: Python tuple comparison of (f, g, path, node).
  // ---------------------------------------------------------------------

  /** Python's `<` on strings: lexicographic by code point, a proper prefix first. */
  predicate StrLess(a: string, b: string)
    decreases |a|
  {
    if |b| == 0 then false
    else if |a| == 0 then true
    else if a[0] != b[0] then a[0] < b[0]
    else StrLess(a[1..], b[1..])
  }

  lemma {:induction false} StrLessTrans(a: string, b: string, c: string)
    requires StrLess(a, b) && StrLess(b, c)
    ensures StrLess(a, c)
    decreases |a|
  {
    if |a| > 0 && a[0] == b[0] && b[0] == c[0] {
      StrLessTrans(a[1..], b[1..], c[1..]);
    }
  }

  lemma {:induction false} StrLessIrreflexive(a: string)
    ensures !StrLess(a, a)
    decreases |a|
  {
    if |a| > 0 {
      StrLessIrreflexive(a[1..]);
    }
  }

  /** A queue entry `(f, g, path, node)`: priority, cost so far, path string, cell. */
  datatype Entry = Entry(f: int, g: int, path: string, node: Pos)

  predicate PosLess(a: Pos, b: Pos) {
    a.row < b.row || (a.row == b.row && a.col < b.col)
  }

  predicate EntryLess(a: Entry, b: Entry) {
    a.f < b.f || (a.f == b.f &&
      (a.g < b.g || (a.g == b.g &&
        (StrLess(a.path, b.path) || (a.path == b.path && PosLess(a.node, b.node))))))
  }

  lemma EntryLessTrans(a: Entry, b: Entry, c: Entry)
    requires EntryLess(a, b) && EntryLess(b, c)
    ensures EntryLess(a, c)
  {
    if a.f == b.f == c.f && a.g == b.g == c.g {
      if StrLess(a.path, b.path) && StrLess(b.path, c.path) {
        StrLessTrans(a.path, b.path, c.path);
      }
    }
  }

  /** `heappop`'s choice: the index of a least entry of the queue. */
  function LeastIndex(q: seq<Entry>): (k: nat)
    requires |q| > 0
    ensures k < |q|
    ensures forall j :: 0 <= j < |q| ==> !EntryLess(q[j], q[k])
    ensures forall j :: 0 <= j < |q| ==> q[k].f <= q[j].f
  {
    if |q| == 1 then
      StrLessIrreflexive(q[0].path);
      0
    else
      var m := LeastIndex(q[..|q| - 1]);
      var last := |q| - 1;
      if EntryLess(q[last], q[m]) then
        assert forall j :: 0 <= j < last ==> !EntryLess(q[j], q[last]) by {
          forall j | 0 <= j < last ensures !EntryLess(q[j], q[last]) {
            assert q[j] == q[..last][j];
            if EntryLess(q[j], q[last]) { EntryLessTrans(q[j], q[last], q[m]); }
          }
        }
        StrLessIrreflexive(q[last].path);
        last
      else
        assert forall j :: 0 <= j < last ==> q[j] == q[..last][j];
        m
  }

  /** `sorted(queue, key=f)[0]`: the first entry, in queue order, whose priority is least. */
  function FirstLeastF(q: seq<Entry>): (k: nat)
    requires |q| > 0
    ensures k < |q|
    ensures forall j :: 0 <= j < |q| ==> q[k].f <= q[j].f
    ensures forall j :: 0 <= j < k ==> q[j].f > q[k].f
  {
    if |q| == 1 then 0
    else
      var m := FirstLeastF(q[..|q| - 1]);
      assert forall j :: 0 <= j < |q| - 1 ==> q[j] == q[..|q| - 1][j];
      if q[|q| - 1].f < q[m].f then |q| - 1 else m
  }

  // ---------------------------------------------------------------------
  // The search and the invariants that make it optimal.
  // ---------------------------------------------------------------------

  /** `heuristic`: the Manhattan distance to the goal. */
  function Heuristic(cell: Pos, goal: Pos): (h: nat)
    ensures h == 0 <==> cell == goal
  {
    Manhattan(cell, goal)
  }

  /**
   * An entry's path leads from the start to its cell, its cost is the path's
   * length, and its priority is the parent's cost plus the cell's heuristic
   * (one less than cost plus heuristic, except for the start entry).
   */
  ghost predicate EntryOk(maze: Maze, start: Pos, goal: Pos, e: Entry) {
    MazeWalk(maze, start, e.path) == Some(e.node) && IsOpen(maze, e.node) && e.g == |e.path| &&
    e.f == e.g + Heuristic(e.node, goal) - (if e.path == [] then 0 else 1)
  }

  ghost predicate QueueOk(maze: Maze, start: Pos, goal: Pos, q: seq<Entry>) {
    forall k :: 0 <= k < |q| ==> EntryOk(maze, start, goal, q[k])
  }

  ghost predicate HasEntry(q: seq<Entry>, w: Pos, bound: int) {
    exists k :: 0 <= k < |q| && q[k].node == w && q[k].g <= bound
  }

  /** Every visited cell was reached by a shortest walk. */
  ghost predicate Settled(maze: Maze, start: Pos, visited: set<Pos>, cost: map<Pos, int>) {
    visited == cost.Keys &&
    forall p :: MazeWalk(maze, start, p).Some? && MazeWalk(maze, start, p).value in visited ==>
      cost[MazeWalk(maze, start, p).value] <= |p|
  }

  /** Every unvisited neighbour of a visited cell is queued no more expensively than through it. */
  ghost predicate Closed(g: Graph, visited: set<Pos>, cost: map<Pos, int>, q: seq<Entry>) {
    forall v :: v in visited ==> (v in g && v in cost &&
      forall k :: 0 <= k < |g[v]| && g[v][k].to !in visited ==> HasEntry(q, g[v][k].to, cost[v] + 1))
  }

  /** The queue's entries once the start has been expanded: none has an empty path. */
  ghost predicate Expanded(q: seq<Entry>) {
    forall k :: 0 <= k < |q| ==> q[k].path != []
  }

  /**
   * Along any walk to an unvisited cell, the first unvisited cell is queued;
   * so the queue holds an entry no costlier than that walk.
   */
  lemma {:induction false} Cover(maze: Maze, g: Graph, start: Pos, goal: Pos, q: seq<Entry>,
                                 visited: set<Pos>, cost: map<Pos, int>, p: string) returns (k: nat)
    requires IsMazeGraph(maze, g) && start in visited
    requires QueueOk(maze, start, goal, q) && Expanded(q)
    requires Settled(maze, start, visited, cost) && Closed(g, visited, cost, q)
    requires MazeWalk(maze, start, p).Some? && MazeWalk(maze, start, p).value !in visited
    ensures k < |q| && q[k].f <= |p| + Heuristic(MazeWalk(maze, start, p).value, goal) - 1
    decreases |p|
  {
    var u := MazeWalk(maze, start, p).value;
    assert p != [];
    var r, d := p[..|p| - 1], p[|p| - 1];
    WalkSnoc(maze, start, r, d);
    var v := MazeWalk(maze, start, r).value;
    assert u == Step(v, d) && d in Directions && IsOpen(maze, u);
    StepBack(v, d);
    StepDistance(v, u, goal);
    if v in visited {
      var e := EdgeFor(maze, g, v, d);
      assert HasEntry(q, u, cost[v] + 1);
      var j :| 0 <= j < |q| && q[j].node == u && q[j].g <= cost[v] + 1;
      assert EntryOk(maze, start, goal, q[j]);
      k := j;
    } else {
      k := Cover(maze, g, start, goal, q, visited, cost, r);
    }
  }

  /** `heappop`'s removal of entry `k`. */
  function RemoveAt(q: seq<Entry>, k: nat): (q': seq<Entry>)
    requires k < |q|
    ensures |q'| == |q| - 1
    ensures forall j :: 0 <= j < |q'| ==> q'[j] == (if j < k then q[j] else q[j + 1])
  {
    q[..k] + q[k + 1..]
  }

  /** The entries pushed when cell `e.node` is expanded, one per edge in graph order. */
  function Pushes(e: Entry, edges: seq<Edge>, goal: Pos): (ps: seq<Entry>)
    ensures |ps| == |edges|
    ensures forall m :: 0 <= m < |edges| ==>
      ps[m] == Entry(e.g + Heuristic(edges[m].to, goal), e.g + 1, e.path + [edges[m].dir], edges[m].to)
  {
    seq(|edges|, m requires 0 <= m < |edges| =>
      Entry(e.g + Heuristic(edges[m].to, goal), e.g + 1, e.path + [edges[m].dir], edges[m].to))
  }

  lemma PushesSnoc(e: Entry, edges: seq<Edge>, n: nat, goal: Pos)
    requires n < |edges|
    ensures Pushes(e, edges[..n + 1], goal) == Pushes(e, edges[..n], goal) +
      [Entry(e.g + Heuristic(edges[n].to, goal), e.g + 1, e.path + [edges[n].dir], edges[n].to)]
  {
  }

  lemma HasEntryRemove(q: seq<Entry>, i: nat, w: Pos, bound: int)
    requires i < |q| && q[i].node != w && HasEntry(q, w, bound)
    ensures HasEntry(RemoveAt(q, i), w, bound)
  {
    var k :| 0 <= k < |q| && q[k].node == w && q[k].g <= bound;
    var q' := RemoveAt(q, i);
    if k < i { assert q'[k] == q[k]; } else { assert q'[k - 1] == q[k]; }
  }

  lemma HasEntryAppend(q: seq<Entry>, more: seq<Entry>, w: Pos, bound: int)
    requires HasEntry(q, w, bound)
    ensures HasEntry(q + more, w, bound)
  {
    var k :| 0 <= k < |q| && q[k].node == w && q[k].g <= bound;
    assert (q + more)[k] == q[k];
  }

  /** The search's state between two iterations; `i` counts the iterations so far. */
  ghost predicate SearchInv(maze: Maze, g: Graph, start: Pos, goal: Pos, queue: seq<Entry>,
                            visited: set<Pos>, cost: map<Pos, int>, i: nat) {
    IsMazeGraph(maze, g) && IsOpen(maze, start) &&
    visited <= g.Keys && goal !in visited &&
    QueueOk(maze, start, goal, queue) &&
    (visited == {}) == (i == 0) &&
    (visited == {} ==> queue == [Entry(Heuristic(start, goal), 0, "", start)]) &&
    (visited != {} ==> start in visited && Expanded(queue)) &&
    Settled(maze, start, visited, cost) &&
    Closed(g, visited, cost, queue)
  }

  lemma EntryAt(maze: Maze, g: Graph, start: Pos, goal: Pos, queue: seq<Entry>,
                visited: set<Pos>, cost: map<Pos, int>, i: nat, k: nat)
    requires SearchInv(maze, g, start, goal, queue, visited, cost, i) && k < |queue|
    ensures EntryOk(maze, start, goal, queue[k]) && queue[k].node in g
    ensures visited == {} ==> queue[k] == Entry(Heuristic(start, goal), 0, "", start)
  {
    assert EntryOk(maze, start, goal, queue[k]);
    OpenIn(maze, queue[k].node);
  }

  /** A least-priority entry is no costlier than any walk to the goal, and strictly cheaper once the start is expanded. */
  lemma LeastBound(maze: Maze, g: Graph, start: Pos, goal: Pos, queue: seq<Entry>,
                   visited: set<Pos>, cost: map<Pos, int>, i: nat, k: nat, p: string, target: Pos)
    requires SearchInv(maze, g, start, goal, queue, visited, cost, i) && k < |queue|
    requires forall j :: 0 <= j < |queue| ==> queue[k].f <= queue[j].f
    requires target !in visited && MazeWalk(maze, start, p) == Some(target)
    ensures visited != {} ==> queue[k].f <= |p| + Heuristic(target, goal) - 1
  {
    if visited != {} {
      var j := Cover(maze, g, start, goal, queue, visited, cost, p);
    }
  }

  /** Popping an entry for a cell already visited keeps the invariant. */
  lemma PopVisited(maze: Maze, g: Graph, start: Pos, goal: Pos, queue: seq<Entry>,
                   visited: set<Pos>, cost: map<Pos, int>, i: nat, k: nat)
    requires SearchInv(maze, g, start, goal, queue, visited, cost, i) && k < |queue|
    requires queue[k].node in visited
    ensures SearchInv(maze, g, start, goal, RemoveAt(queue, k), visited, cost, i + 1)
  {
    var q' := RemoveAt(queue, k);
    assert QueueOk(maze, start, goal, q') by {
      forall j | 0 <= j < |q'| ensures EntryOk(maze, start, goal, q'[j]) {
        assert EntryOk(maze, start, goal, queue[if j < k then j else j + 1]);
      }
    }
    assert Expanded(q') by {
      forall j | 0 <= j < |q'| ensures q'[j].path != [] {
        assert queue[if j < k then j else j + 1].path != [];
      }
    }
    forall v | v in visited ensures
      forall n :: 0 <= n < |g[v]| && g[v][n].to !in visited ==> HasEntry(q', g[v][n].to, cost[v] + 1)
    {
      forall n | 0 <= n < |g[v]| && g[v][n].to !in visited ensures HasEntry(q', g[v][n].to, cost[v] + 1) {
        HasEntryRemove(queue, k, g[v][n].to, cost[v] + 1);
      }
    }
  }

  /** The popped cell, reached first through a least entry, is reached by a shortest walk. */
  lemma SettleNew(maze: Maze, g: Graph, start: Pos, goal: Pos, queue: seq<Entry>,
                  visited: set<Pos>, cost: map<Pos, int>, i: nat, k: nat)
    requires SearchInv(maze, g, start, goal, queue, visited, cost, i) && k < |queue|
    requires forall j :: 0 <= j < |queue| ==> queue[k].f <= queue[j].f
    requires queue[k].node !in visited
    ensures Settled(maze, start, visited + {queue[k].node}, cost[queue[k].node := queue[k].g])
  {
    var e := queue[k];
    EntryAt(maze, g, start, goal, queue, visited, cost, i, k);
    forall p | MazeWalk(maze, start, p).Some? && MazeWalk(maze, start, p).value == e.node
      ensures e.g <= |p|
    {
      LeastBound(maze, g, start, goal, queue, visited, cost, i, k, p, e.node);
    }
  }

  lemma RemoveOk(maze: Maze, start: Pos, goal: Pos, queue: seq<Entry>, k: nat)
    requires QueueOk(maze, start, goal, queue) && k < |queue|
    ensures QueueOk(maze, start, goal, RemoveAt(queue, k))
    ensures Expanded(queue) ==> Expanded(RemoveAt(queue, k))
  {
    var q' := RemoveAt(queue, k);
    forall j | 0 <= j < |q'| ensures EntryOk(maze, start, goal, q'[j]) && (Expanded(queue) ==> q'[j].path != []) {
      assert q'[j] == queue[if j < k then j else j + 1];
    }
  }

  lemma ConcatOk(maze: Maze, start: Pos, goal: Pos, a: seq<Entry>, b: seq<Entry>)
    requires QueueOk(maze, start, goal, a) && QueueOk(maze, start, goal, b) && Expanded(a) && Expanded(b)
    ensures QueueOk(maze, start, goal, a + b) && Expanded(a + b)
  {
    forall j | 0 <= j < |a + b| ensures EntryOk(maze, start, goal, (a + b)[j]) && (a + b)[j].path != [] {
      if j < |a| { assert (a + b)[j] == a[j]; } else { assert (a + b)[j] == b[j - |a|]; }
    }
  }

  /** The entries pushed for a queued cell's edges are consistent and not the start entry. */
  lemma PushesOk(maze: Maze, g: Graph, start: Pos, goal: Pos, e: Entry)
    requires IsMazeGraph(maze, g) && EntryOk(maze, start, goal, e) && e.node in g
    ensures QueueOk(maze, start, goal, Pushes(e, g[e.node], goal)) && Expanded(Pushes(e, g[e.node], goal))
  {
    var ps := Pushes(e, g[e.node], goal);
    forall m | 0 <= m < |ps| ensures EntryOk(maze, start, goal, ps[m]) && ps[m].path != [] {
      EdgeFacts(maze, g, e.node, m);
      WalkSnoc(maze, start, e.path, g[e.node][m].dir);
      StepBack(e.node, g[e.node][m].dir);
    }
  }

  lemma HasEntryPushed(q: seq<Entry>, e: Entry, edges: seq<Edge>, n: nat, goal: Pos)
    requires n < |edges|
    ensures HasEntry(q + Pushes(e, edges, goal), edges[n].to, e.g + 1)
  {
    var ps := Pushes(e, edges, goal);
    assert (q + ps)[|q| + n] == ps[n];
  }

  /** The queue after expanding `queue[k]`: the popped queue followed by one entry per edge. */
  lemma ExpandQueueOk(maze: Maze, g: Graph, start: Pos, goal: Pos, queue: seq<Entry>,
                      visited: set<Pos>, cost: map<Pos, int>, i: nat, k: nat)
    requires SearchInv(maze, g, start, goal, queue, visited, cost, i) && k < |queue|
    requires queue[k].node != goal
    ensures var e := queue[k];
      QueueOk(maze, start, goal, RemoveAt(queue, k) + Pushes(e, g[e.node], goal)) &&
      Expanded(RemoveAt(queue, k) + Pushes(e, g[e.node], goal))
  {
    var e := queue[k];
    EntryAt(maze, g, start, goal, queue, visited, cost, i, k);
    RemoveOk(maze, start, goal, queue, k);
    PushesOk(maze, g, start, goal, e);
    assert Expanded(RemoveAt(queue, k)) by {
      if visited == {} { assert |RemoveAt(queue, k)| == 0; }
    }
    ConcatOk(maze, start, goal, RemoveAt(queue, k), Pushes(e, g[e.node], goal));
  }

  /** Expanding the popped cell: it joins the visited cells and its neighbours are queued. */
  lemma Expand(maze: Maze, g: Graph, start: Pos, goal: Pos, queue: seq<Entry>,
               visited: set<Pos>, cost: map<Pos, int>, i: nat, k: nat)
    requires SearchInv(maze, g, start, goal, queue, visited, cost, i) && k < |queue|
    requires forall j :: 0 <= j < |queue| ==> queue[k].f <= queue[j].f
    requires queue[k].node !in visited && queue[k].node != goal
    ensures var e := queue[k];
      e.node in g &&
      SearchInv(maze, g, start, goal, RemoveAt(queue, k) + Pushes(e, g[e.node], goal),
                visited + {e.node}, cost[e.node := e.g], i + 1)
  {
    var e := queue[k];
    var u := e.node;
    EntryAt(maze, g, start, goal, queue, visited, cost, i, k);
    SettleNew(maze, g, start, goal, queue, visited, cost, i, k);
    ExpandQueueOk(maze, g, start, goal, queue, visited, cost, i, k);
    ExpandClosed(g, visited, cost, queue, k, goal);
  }

  /** Expanding `queue[k]` keeps every unvisited neighbour of a visited cell queued. */
  lemma ExpandClosed(g: Graph, visited: set<Pos>, cost: map<Pos, int>, queue: seq<Entry>, k: nat, goal: Pos)
    requires k < |queue| && queue[k].node in g && Closed(g, visited, cost, queue)
    ensures Closed(g, visited + {queue[k].node}, cost[queue[k].node := queue[k].g],
                   RemoveAt(queue, k) + Pushes(queue[k], g[queue[k].node], goal))
  {
    var e := queue[k];
    var u := e.node;
    var q1 := RemoveAt(queue, k);
    var ps := Pushes(e, g[u], goal);
    var visited', cost' := visited + {u}, cost[u := e.g];
    forall v | v in visited' ensures v in g && v in cost' &&
      forall n :: 0 <= n < |g[v]| && g[v][n].to !in visited' ==> HasEntry(q1 + ps, g[v][n].to, cost'[v] + 1)
    {
      forall n | 0 <= n < |g[v]| && g[v][n].to !in visited' ensures HasEntry(q1 + ps, g[v][n].to, cost'[v] + 1) {
        var w := g[v][n].to;
        if v == u {
          HasEntryPushed(q1, e, g[u], n, goal);
        } else {
          assert HasEntry(queue, w, cost[v] + 1);
          HasEntryRemove(queue, k, w, cost[v] + 1);
          HasEntryAppend(q1, ps, w, cost[v] + 1);
        }
      }
    }
  }

  /** When the queue runs empty, no walk reaches the goal. */
  lemma Exhausted(maze: Maze, g: Graph, start: Pos, goal: Pos, visited: set<Pos>, cost: map<Pos, int>, i: nat, p: string)
    requires SearchInv(maze, g, start, goal, [], visited, cost, i)
    ensures MazeWalk(maze, start, p) != Some(goal)
  {
    if MazeWalk(maze, start, p) == Some(goal) {
      var j := Cover(maze, g, start, goal, [], visited, cost, p);
    }
  }

  /** The `heappush` loop over the expanded cell's edges. */
  method PushNeighbours(queue: seq<Entry>, e: Entry, edges: seq<Edge>, goal: Pos) returns (q': seq<Entry>)
    ensures q' == queue + Pushes(e, edges, goal)
  {
    q' := queue;
    var n := 0;
    while n < |edges|
      invariant 0 <= n <= |edges|
      invariant q' == queue + Pushes(e, edges[..n], goal)
    {
      var edge := edges[n];
      PushesSnoc(e, edges, n, goal);
      q' := q' + [Entry(e.g + Heuristic(edge.to, goal), e.g + 1, e.path + [edge.dir], edge.to)];
      n := n + 1;
    }
    assert edges[..n] == edges;
  }

  /** The entry returned at the iteration cap: a walk to its cell whose priority undercuts every walk to the goal. */
  lemma CappedFacts(maze: Maze, g: Graph, start: Pos, goal: Pos, queue: seq<Entry>,
                    visited: set<Pos>, cost: map<Pos, int>, i: nat, k: nat)
    requires SearchInv(maze, g, start, goal, queue, visited, cost, i) && k < |queue| && i > 0
    requires forall j :: 0 <= j < |queue| ==> queue[k].f <= queue[j].f
    ensures var e := queue[k];
      e.path != [] && MazeWalk(maze, start, e.path) == Some(e.node) &&
      e.f == |e.path| + Heuristic(e.node, goal) - 1
    ensures forall p :: MazeWalk(maze, start, p) == Some(goal) ==> queue[k].f < |p|
  {
    EntryAt(maze, g, start, goal, queue, visited, cost, i, k);
    forall p | MazeWalk(maze, start, p) == Some(goal) ensures queue[k].f < |p| {
      LeastBound(maze, g, start, goal, queue, visited, cost, i, k, p, goal);
    }
  }

  /** A least entry at the goal carries a shortest walk to it. */
  lemma FoundFacts(maze: Maze, g: Graph, start: Pos, goal: Pos, queue: seq<Entry>,
                   visited: set<Pos>, cost: map<Pos, int>, i: nat, k: nat)
    requires SearchInv(maze, g, start, goal, queue, visited, cost, i) && k < |queue|
    requires forall j :: 0 <= j < |queue| ==> queue[k].f <= queue[j].f
    requires queue[k].node == goal
    ensures var e := queue[k];
      e.g == |e.path| && MazeWalk(maze, start, e.path) == Some(goal) && e.g >= Manhattan(start, goal)
    ensures forall p :: MazeWalk(maze, start, p) == Some(goal) ==> queue[k].g <= |p|
  {
    EntryAt(maze, g, start, goal, queue, visited, cost, i, k);
    forall p | MazeWalk(maze, start, p) == Some(goal) ensures queue[k].g <= |p| {
      LeastBound(maze, g, start, goal, queue, visited, cost, i, k, p, goal);
    }
    WalkLength(maze, start, queue[k].path);
  }

  /** How a call of `find_path_astar` ends. */
  datatype AstarResult =
    | Blocked                                     // `None`: the start or the goal is a wall
    | Unreachable                                 // `(None, "")`: the queue ran empty
    | Found(cost: int, path: string, node: Pos)   // `(cost, path, goal)`
    | Capped(expected: int, path: string, node: Pos)  // `(expected, path, current)` after the iteration cap

  /** What `find_path_astar` promises about a result other than `Blocked`. */
  ghost predicate Outcome(maze: Maze, start: Pos, goal: Pos, maxIterations: nat, r: AstarResult) {
    !r.Blocked? &&
    (r.Found? ==>
       r.node == goal && r.cost == |r.path| && MazeWalk(maze, start, r.path) == Some(goal) &&
       (forall p :: MazeWalk(maze, start, p) == Some(goal) ==> r.cost <= |p|) &&
       r.cost >= Manhattan(start, goal)) &&
    (r.Unreachable? ==> forall p :: MazeWalk(maze, start, p) != Some(goal)) &&
    (r.Capped? ==>
       maxIterations > 0 && r.path != [] && MazeWalk(maze, start, r.path) == Some(r.node) &&
       r.expected == |r.path| + Heuristic(r.node, goal) - 1 &&
       forall p :: MazeWalk(maze, start, p) == Some(goal) ==> r.expected < |p|)
  }

  /**
   * One pass of the `while pr_queue` loop: count the iteration, stop at the
   * cap, pop the least entry, stop at the goal, skip a visited cell, or
   * expand the cell. When the search goes on, the invariant holds again and
   * either a new cell is visited or the queue is shorter.
   */
  method SearchStep(maze: Maze, g: Graph, start: Pos, goal: Pos, maxIterations: nat,
                    queue: seq<Entry>, visited: set<Pos>, ghost cost: map<Pos, int>, i: nat)
    returns (out: Option<AstarResult>, queue': seq<Entry>, visited': set<Pos>, ghost cost': map<Pos, int>, i': nat)
    requires SearchInv(maze, g, start, goal, queue, visited, cost, i) && |queue| > 0
    ensures out.Some? ==> Outcome(maze, start, goal, maxIterations, out.value)
    ensures out.None? ==> SearchInv(maze, g, start, goal, queue', visited', cost', i')
    ensures out.None? ==> |g.Keys - visited'| < |g.Keys - visited| || (visited' == visited && |queue'| < |queue|)
  {
    i' := i + 1;
    if maxIterations > 0 && i' > maxIterations {
      var k := FirstLeastF(queue);
      CappedFacts(maze, g, start, goal, queue, visited, cost, i, k);
      return Some(Capped(queue[k].f, queue[k].path, queue[k].node)), queue, visited, cost, i';
    }
    var k := LeastIndex(queue);
    var e := queue[k];
    if e.node == goal {
      FoundFacts(maze, g, start, goal, queue, visited, cost, i, k);
      return Some(Found(e.g, e.path, e.node)), queue, visited, cost, i';
    }
    if e.node in visited {
      PopVisited(maze, g, start, goal, queue, visited, cost, i, k);
      return None, RemoveAt(queue, k), visited, cost, i';
    }
    Expand(maze, g, start, goal, queue, visited, cost, i, k);
    queue' := RemoveAt(queue, k);
    visited' := visited + {e.node};
    cost' := cost[e.node := e.g];
    queue' := PushNeighbours(queue', e, g[e.node], goal);
    out := None;
    assert g.Keys - visited' < g.Keys - visited;
  }

  /**
   * `find_path_astar`. A cap of 0 stands for Python's `None` (no cap). The
   * queue is kept as a sequence from which the least tuple is popped.
   */
  method FindPathAstar(maze: Maze, start: Pos, goal: Pos, maxIterations: nat, graph: Option<Graph>)
    returns (r: AstarResult)
    requires Rectangular(maze) && Binary(maze)
    requires InBounds(maze, start) && InBounds(maze, goal)
    requires graph.Some? ==> IsMazeGraph(maze, graph.value)
    ensures r.Blocked? <==> maze[start.row][start.col] == 1 || maze[goal.row][goal.col] == 1
    ensures r.Found? ==> r.node == goal && r.cost == |r.path| && MazeWalk(maze, start, r.path) == Some(goal)
    ensures r.Found? ==> forall p :: MazeWalk(maze, start, p) == Some(goal) ==> r.cost <= |p|
    ensures r.Found? ==> r.cost >= Manhattan(start, goal)
    ensures r.Unreachable? ==> forall p :: MazeWalk(maze, start, p) != Some(goal)
    ensures r.Capped? ==> maxIterations > 0 && r.path != [] && MazeWalk(maze, start, r.path) == Some(r.node)
    ensures r.Capped? ==> r.expected == |r.path| + Heuristic(r.node, goal) - 1
    ensures r.Capped? ==> forall p :: MazeWalk(maze, start, p) == Some(goal) ==> r.expected < |p|
  {
    var queue := [Entry(0 + Heuristic(start, goal), 0, "", start)];
    var visited: set<Pos> := {};
    ghost var cost: map<Pos, int> := map[];
    if maze[start.row][start.col] == 1 {
      return Blocked;
    }
    if maze[goal.row][goal.col] == 1 {
      return Blocked;
    }
    var g: Graph;
    if graph.None? {
      g := MazeToGraph(maze);
    } else {
      g := graph.value;
    }
    var i: nat := 0;
    assert EntryOk(maze, start, goal, queue[0]);
    while |queue| > 0
      invariant SearchInv(maze, g, start, goal, queue, visited, cost, i)
      decreases |g.Keys - visited|, |queue|
    {
      var out;
      out, queue, visited, cost, i := SearchStep(maze, g, start, goal, maxIterations, queue, visited, cost, i);
      if out.Some? {
        return out.value;
      }
    }
    forall p ensures MazeWalk(maze, start, p) != Some(goal) {
      Exhausted(maze, g, start, goal, visited, cost, i, p);
    }
    return Unreachable;
  }

  // ---------------------------------------------------------------------
  // From wall positions to a maze matrix

  /** The row `i` of `positions_to_maze`: `int((i, j) in wall_positions)` for each column `j`. */
  method MazeRow(wallPositions: set<Pos>, i: int, columns: int) returns (row: seq<int>)
    ensures |row| == if columns > 0 then columns else 0
    ensures forall j :: 0 <= j < |row| ==> row[j] == if Pos(i, j) in wallPositions then 1 else 0
  {
    row := [];
    var j := 0;
    while j < columns
      invariant 0 <= j <= (if columns > 0 then columns else 0) && |row| == j
      invariant forall j' :: 0 <= j' < j ==> row[j'] == if Pos(i, j') in wallPositions then 1 else 0
    {
      row := row + [if Pos(i, j) in wallPositions then 1 else 0];
      j := j + 1;
    }
  }

  /**
   * `positions_to_maze(wall_positions, rows, columns)`: a `rows` by
   * `columns` matrix with 1 exactly where a wall stands (an empty range for
   * a non-positive count).
   */
  method PositionsToMaze(wallPositions: set<Pos>, rows: int, columns: int) returns (maze: Maze)
    ensures |maze| == if rows > 0 then rows else 0
    ensures forall i :: 0 <= i < |maze| ==> |maze[i]| == if columns > 0 then columns else 0
    ensures forall i, j :: 0 <= i < |maze| && 0 <= j < |maze[i]| ==>
      maze[i][j] == if Pos(i, j) in wallPositions then 1 else 0
  {
    maze := [];
    var i := 0;
    while i < rows
      invariant 0 <= i <= (if rows > 0 then rows else 0) && |maze| == i
      invariant forall i' :: 0 <= i' < i ==> |maze[i']| == if columns > 0 then columns else 0
      invariant forall i', j :: 0 <= i' < i && 0 <= j < |maze[i']| ==>
        maze[i'][j] == if Pos(i', j) in wallPositions then 1 else 0
    {
      var row := MazeRow(wallPositions, i, columns);
      maze := maze + [row];
      i := i + 1;
    }
  }

  /**
   * A matrix built from wall positions is a rectangular 0/1 maze whose open
   * cells are exactly the in-range cells without a wall.
   */
  lemma PositionsMazeOpen(wallPositions: set<Pos>, rows: int, columns: int, maze: Maze)
    requires |maze| == if rows > 0 then rows else 0
    requires forall i :: 0 <= i < |maze| ==> |maze[i]| == if columns > 0 then columns else 0
    requires forall i, j :: 0 <= i < |maze| && 0 <= j < |maze[i]| ==>
      maze[i][j] == if Pos(i, j) in wallPositions then 1 else 0
    ensures Rectangular(maze) && Binary(maze)
    ensures forall p :: IsOpen(maze, p) <==> 0 <= p.row < rows && 0 <= p.col < columns && p !in wallPositions
  {
    forall p ensures IsOpen(maze, p) <==> 0 <= p.row < rows && 0 <= p.col < columns && p !in wallPositions {
      if 0 <= p.row < rows && 0 <= p.col < columns {
        assert maze[p.row][p.col] == if Pos(p.row, p.col) in wallPositions then 1 else 0;
      }
    }
  }

  /** The set `{tuple(w.position) for w in labyrinth}`. */
  function WallPositions(labyrinth: seq<Labyrinths.Wall>): (ps: set<Pos>)
    ensures forall p :: p in ps <==> exists k :: 0 <= k < |labyrinth| && labyrinth[k].position == p
  {
    set k | 0 <= k < |labyrinth| :: labyrinth[k].position
  }

  /** `labyrinth_to_maze(labyrinth, rows, columns)` */
  method LabyrinthToMaze(labyrinth: seq<Labyrinths.Wall>, rows: int, columns: int) returns (maze: Maze)
    ensures |maze| == if rows > 0 then rows else 0
    ensures forall i :: 0 <= i < |maze| ==> |maze[i]| == if columns > 0 then columns else 0
    ensures forall i, j :: 0 <= i < |maze| && 0 <= j < |maze[i]| ==>
      (maze[i][j] == 1 <==> exists k :: 0 <= k < |labyrinth| && labyrinth[k].position == Pos(i, j))
    ensures forall i, j :: 0 <= i < |maze| && 0 <= j < |maze[i]| ==> maze[i][j] == 0 || maze[i][j] == 1
  {
    maze := PositionsToMaze(WallPositions(labyrinth), rows, columns);
  }
}
