/**
 * `matrix2gridworld` (dlgr/griduniverse/csv_gridworlds.py): a table of
 * cell tokens read from a CSV map becomes the state that `Gridworld`'s
 * `deserialize` consumes. `"w"` is a wall, `p<id>` or `p<id>c<colour>` a
 * player, anything else an item type, optionally `name|uses`.
 */
module CsvGridworlds {
  import opened Base
  import opened PyStr

  /** `Gridworld.player_color_names`. */
  const ColorNames: seq<string> := ["BLUE", "YELLOW", "ORANGE", "RED", "PURPLE", "TEAL"]

  /** The two groups of `re.match(r"(p\d+)(c\d+)?", cell)`, without their letters. */
  datatype PlayerToken = PlayerToken(id: string, color: Option<string>)

  /** The end of the run of digits starting at `i`. */
  function DigitRunEnd(s: string, i: nat): (j: nat)
    requires i <= |s|
    ensures i <= j <= |s| && (forall k :: i <= k < j ==> IsDigit(s[k])) && (j == |s| || !IsDigit(s[j]))
    decreases |s| - i
  {
    if i < |s| && IsDigit(s[i]) then DigitRunEnd(s, i + 1) else i
  }

  lemma {:induction false} DigitRunEndAt(s: string, i: nat, j: nat)
    requires i <= j <= |s| && (forall k :: i <= k < j ==> IsDigit(s[k])) && (j == |s| || !IsDigit(s[j]))
    ensures DigitRunEnd(s, i) == j
    decreases j - i
  {
    if i < j {
      DigitRunEndAt(s, i + 1, j);
    }
  }

  /** `player_regex.match(cell)`: a prefix match, so anything may follow the token. */
  function MatchPlayer(cell: string): Option<PlayerToken> {
    if |cell| >= 2 && cell[0] == 'p' && IsDigit(cell[1]) then
      var j := DigitRunEnd(cell, 1);
      var color :=
        if j + 1 < |cell| && cell[j] == 'c' && IsDigit(cell[j + 1])
        then Some(cell[j + 1..DigitRunEnd(cell, j + 1)])
        else None;
      Some(PlayerToken(cell[1..j], color))
    else None
  }

  /**
   * `color_names[int(color_str.replace("c", "")) - 1]`: `c0` indexes -1, the
   * last name; an index past the end raises `IndexError`, re-raised as
   * `ValueError`.
   */
  function ColorOf(digits: string): (r: Result<string>)
    requires AllDigits(digits)
    ensures r.Err? <==> DigitsValue(digits) > |ColorNames|
    ensures r.Ok? ==> r.value in ColorNames
  {
    var index := DigitsValue(digits) - 1;
    if index >= |ColorNames| then Err("ValueError") else Ok(PyIndex(ColorNames, index))
  }

  /** What a stripped cell stands for. */
  datatype CellKind =
    | Blank
    | WallCell
    | PlayerCell(id: string, color: Option<string>)
    | ItemCell(itemId: string, uses: Option<int>)
    | Invalid   // raises `ValueError`

  /** The `[s.strip() for s in cell.split("|")]` pieces of an item token. */
  function ItemParts(cell: string): (parts: seq<string>)
    ensures |parts| == |Split(cell, '|')| >= 1
  {
    var pieces := Split(cell, '|');
    seq(|pieces|, k requires 0 <= k < |pieces| => Strip(pieces[k]))
  }

  /** The branches of the loop body of `matrix2gridworld` for one cell. */
  function Classify(raw: string): CellKind {
    ClassifyToken(Strip(raw))
  }

  function ClassifyToken(cell: string): CellKind {
    if cell == [] then Blank
    else if cell == "w" then WallCell
    else match MatchPlayer(cell)
      case Some(token) => PlayerKind(token)
      case None => ItemKind(cell)
  }

  /** A matched player token, with `color` resolved when present. */
  function PlayerKind(token: PlayerToken): CellKind {
    if token.color.None? then PlayerCell(token.id, None)
    else if !AllDigits(token.color.value) then Invalid
    else match ColorOf(token.color.value)
      case Ok(name) => PlayerCell(token.id, Some(name))
      case Err(_) => Invalid
  }

  /** An item token: a type name, then `|uses` when there are exactly two pieces. */
  function ItemKind(cell: string): CellKind {
    var parts := ItemParts(cell);
    if |parts| == 2 then
      match ParseInt(parts[1])
        case Some(n) => ItemCell(parts[0], Some(n))
        case None => Invalid
    else ItemCell(parts[0], None)
  }

  /** Only the token `"w"`, once stripped, is a wall. */
  lemma ClassifyWall(raw: string)
    ensures Classify(raw) == WallCell <==> Strip(raw) == "w"
  {
    var cell := Strip(raw);
    if cell != [] && cell != "w" {
      match MatchPlayer(cell) {
        case Some(token) =>
        case None =>
      }
    }
  }

  datatype PlayerData = PlayerData(id: string, position: Pos, color: Option<string>)
  datatype ItemData = ItemData(id: nat, itemId: string, position: Pos, remainingUses: Option<int>)

  /** The lists collected so far in the `defaultdict(list)`. */
  datatype Lists = Lists(walls: seq<Pos>, players: seq<PlayerData>, items: seq<ItemData>)

  /**
   * The returned dict: `walls`, `players` and `items` are keys only once a
   * cell of that kind was seen (`None` when the key is absent).
   */
  datatype GridState = GridState(
    rows: nat, columns: nat,
    walls: Option<seq<Pos>>, players: Option<seq<PlayerData>>, items: Option<seq<ItemData>>)

  function Present<T>(s: seq<T>): Option<seq<T>> {
    if s == [] then None else Some(s)
  }

  /** One row's cells with their `[row_num, col_num]` positions. */
  function RowCells(r: nat, row: seq<string>): (cs: seq<(Pos, string)>)
    ensures |cs| == |row|
  {
    seq(|row|, j requires 0 <= j < |row| => (Pos(r, j), row[j]))
  }

  /** All cells of the matrix in row-major order. */
  function Cells(matrix: seq<seq<string>>): seq<(Pos, string)> {
    if matrix == [] then []
    else Cells(matrix[..|matrix| - 1]) + RowCells(|matrix| - 1, matrix[|matrix| - 1])
  }

  /** The effect of one cell, of kind `kind`, on the lists. */
  function Step(acc: Lists, position: Pos, kind: CellKind): Result<Lists> {
    match kind
      case Blank => Ok(acc)
      case WallCell => Ok(acc.(walls := acc.walls + [position]))
      case PlayerCell(id, color) => Ok(acc.(players := acc.players + [PlayerData(id, position, color)]))
      case ItemCell(name, uses) =>
        Ok(acc.(items := acc.items + [ItemData(|acc.items| + 1, name, position, uses)]))
      case Invalid => Err("ValueError")
  }

  /**
   * The cells processed in order, each classified by `cls`; the first
   * invalid one stops everything. The parser uses `Classify`.
   */
  function Scan(cs: seq<(Pos, string)>, cls: string -> CellKind): Result<Lists> {
    if cs == [] then Ok(Lists([], [], []))
    else match Scan(cs[..|cs| - 1], cls)
      case Err(e) => Err(e)
      case Ok(acc) => Step(acc, cs[|cs| - 1].0, cls(cs[|cs| - 1].1))
  }

  function Finish(matrix: seq<seq<string>>, r: Result<Lists>): Result<GridState> {
    match r
      case Err(e) => Err(e)
      case Ok(acc) =>
        Ok(GridState(|matrix|, if matrix == [] then 0 else |matrix[0]|,
                     Present(acc.walls), Present(acc.players), Present(acc.items)))
  }

  lemma ScanSnoc(cs: seq<(Pos, string)>, c: (Pos, string), cls: string -> CellKind)
    ensures Scan(cs + [c], cls) == match Scan(cs, cls) case Err(e) => Err(e) case Ok(acc) => Step(acc, c.0, cls(c.1))
  {
    assert (cs + [c])[..|cs|] == cs;
  }

  lemma CellsNext(matrix: seq<seq<string>>, i: nat, j: nat)
    requires i < |matrix| && j < |matrix[i]|
    ensures Cells(matrix[..i]) + RowCells(i, matrix[i][..j + 1]) ==
      (Cells(matrix[..i]) + RowCells(i, matrix[i][..j])) + [(Pos(i, j), matrix[i][j])]
  {
    assert RowCells(i, matrix[i][..j + 1]) == RowCells(i, matrix[i][..j]) + [(Pos(i, j), matrix[i][j])];
  }

  lemma CellsRow(matrix: seq<seq<string>>, i: nat)
    requires i < |matrix|
    ensures Cells(matrix[..i + 1]) == Cells(matrix[..i]) + RowCells(i, matrix[i][..|matrix[i]|])
  {
    assert matrix[..i + 1][..i] == matrix[..i];
    assert matrix[i][..|matrix[i]|] == matrix[i];
  }

  /**
   * The inner `for col_num, cell in enumerate(row)` loop, each cell
   * classified by `cls` (`Classify` in the parser).
   */
  method ScanRow(matrix: seq<seq<string>>, i: nat, acc: Lists, cls: string -> CellKind) returns (r: Result<Lists>)
    requires i < |matrix| && Scan(Cells(matrix[..i]), cls) == Ok(acc)
    ensures r == Scan(Cells(matrix[..i + 1]), cls)
  {
    var row := matrix[i];
    var walls, players, items := acc.walls, acc.players, acc.items;
    assert Cells(matrix[..i]) + RowCells(i, row[..0]) == Cells(matrix[..i]);
    for j := 0 to |row|
      invariant Scan(Cells(matrix[..i]) + RowCells(i, row[..j]), cls) == Ok(Lists(walls, players, items))
    {
      RowNext(matrix, i, j, Lists(walls, players, items), cls);
      var position := Pos(i, j);
      match cls(row[j]) {
        case Blank =>
        case WallCell =>
          walls := walls + [position];
        case PlayerCell(id, color) =>
          players := players + [PlayerData(id, position, color)];
        case ItemCell(name, uses) =>
          items := items + [ItemData(|items| + 1, name, position, uses)];
        case Invalid =>
          RowStops(matrix, i, j, cls);
          return Err("ValueError");
      }
    }
    CellsRow(matrix, i);
    r := Ok(Lists(walls, players, items));
  }

  /** One more cell of row `i` is one more `Step`. */
  lemma RowNext(matrix: seq<seq<string>>, i: nat, j: nat, acc: Lists, cls: string -> CellKind)
    requires i < |matrix| && j < |matrix[i]|
    requires Scan(Cells(matrix[..i]) + RowCells(i, matrix[i][..j]), cls) == Ok(acc)
    ensures Scan(Cells(matrix[..i]) + RowCells(i, matrix[i][..j + 1]), cls) == Step(acc, Pos(i, j), cls(matrix[i][j]))
  {
    CellsNext(matrix, i, j);
    ScanSnoc(Cells(matrix[..i]) + RowCells(i, matrix[i][..j]), (Pos(i, j), matrix[i][j]), cls);
  }

  /** An invalid cell in row `i` decides the scan of the rows up to `i`. */
  lemma RowStops(matrix: seq<seq<string>>, i: nat, j: nat, cls: string -> CellKind)
    requires i < |matrix| && j < |matrix[i]|
    requires Scan(Cells(matrix[..i]) + RowCells(i, matrix[i][..j + 1]), cls).Err?
    ensures Scan(Cells(matrix[..i + 1]), cls) == Scan(Cells(matrix[..i]) + RowCells(i, matrix[i][..j + 1]), cls)
  {
    var row := matrix[i];
    CellsRow(matrix, i);
    ScanStops(Cells(matrix[..i]) + RowCells(i, row[..j + 1]), RowCells(i, row)[j + 1..], cls);
    assert RowCells(i, row[..j + 1]) + RowCells(i, row)[j + 1..] == RowCells(i, row[..|row|]);
    assert Cells(matrix[..i + 1]) ==
      (Cells(matrix[..i]) + RowCells(i, row[..j + 1])) + RowCells(i, row)[j + 1..];
  }

  /** Once a prefix has failed, further cells change nothing. */
  lemma {:induction false} ScanStops(cs: seq<(Pos, string)>, more: seq<(Pos, string)>, cls: string -> CellKind)
    requires Scan(cs, cls).Err?
    ensures Scan(cs + more, cls) == Scan(cs, cls)
    decreases |more|
  {
    if more != [] {
      var init := more[..|more| - 1];
      ScanStops(cs, init, cls);
      assert cs + more == (cs + init) + [more[|more| - 1]];
      ScanSnoc(cs + init, more[|more| - 1], cls);
    } else {
      assert cs + more == cs;
    }
  }

  /** `matrix2gridworld(matrix)` */
  method Matrix2Gridworld(matrix: seq<seq<string>>) returns (res: Result<GridState>)
    ensures res == Finish(matrix, Scan(Cells(matrix), Classify))
  {
    var rows := |matrix|;
    var columns := if |matrix| > 0 then |matrix[0]| else 0;
    var acc := Lists([], [], []);
    var i := 0;
    while i < |matrix|
      invariant 0 <= i <= |matrix|
      invariant Scan(Cells(matrix[..i]), Classify) == Ok(acc)
    {
      var r := ScanRow(matrix, i, acc, Classify);
      if r.Err? {
        assert matrix == matrix[..i + 1] + matrix[i + 1..];
        PrefixStops(matrix, i + 1, Classify);
        return Err(r.error);
      }
      acc := r.value;
      i := i + 1;
    }
    assert matrix[..i] == matrix;
    res := Ok(GridState(rows, columns, Present(acc.walls), Present(acc.players), Present(acc.items)));
  }

  /** The cells of a longer prefix extend those of a shorter one. */
  lemma {:induction false} CellsPrefix(matrix: seq<seq<string>>, i: nat, n: nat)
    requires i <= n <= |matrix|
    ensures exists more :: Cells(matrix[..n]) == Cells(matrix[..i]) + more
    decreases n - i
  {
    if i < n {
      CellsPrefix(matrix, i, n - 1);
      var more :| Cells(matrix[..n - 1]) == Cells(matrix[..i]) + more;
      assert matrix[..n][..n - 1] == matrix[..n - 1] && matrix[..n][n - 1] == matrix[n - 1];
      assert Cells(matrix[..n]) == Cells(matrix[..i]) + (more + RowCells(n - 1, matrix[n - 1]));
    } else {
      assert Cells(matrix[..n]) == Cells(matrix[..i]) + [];
    }
  }

  lemma PrefixStops(matrix: seq<seq<string>>, i: nat, cls: string -> CellKind)
    requires i <= |matrix| && Scan(Cells(matrix[..i]), cls).Err?
    ensures Scan(Cells(matrix), cls) == Scan(Cells(matrix[..i]), cls)
  {
    CellsPrefix(matrix, i, |matrix|);
    var more :| Cells(matrix[..|matrix|]) == Cells(matrix[..i]) + more;
    ScanStops(Cells(matrix[..i]), more, cls);
    assert matrix[..|matrix|] == matrix;
  }

  // ---------------------------------------------------------------------
  // What the parse produces

  /** The parse fails, with `ValueError`, exactly when some cell is invalid. */
  lemma {:induction false} ScanError(cs: seq<(Pos, string)>, cls: string -> CellKind)
    ensures Scan(cs, cls).Err? <==> exists k :: 0 <= k < |cs| && cls(cs[k].1).Invalid?
    ensures Scan(cs, cls).Err? ==> Scan(cs, cls).error == "ValueError"
    decreases |cs|
  {
    if cs != [] {
      var init := cs[..|cs| - 1];
      ScanError(init, cls);
      assert forall k :: 0 <= k < |init| ==> init[k] == cs[k];
    }
  }

  /**
   * The walls are the positions of the wall cells, and the items are
   * numbered 1, 2, 3, ... in order.
   */
  lemma {:induction false} ScanLists(cs: seq<(Pos, string)>, cls: string -> CellKind)
    requires Scan(cs, cls).Ok?
    ensures var acc := Scan(cs, cls).value;
      forall p :: p in acc.walls <==> exists k :: 0 <= k < |cs| && cs[k].0 == p && cls(cs[k].1) == WallCell
    ensures forall k :: 0 <= k < |Scan(cs, cls).value.items| ==> Scan(cs, cls).value.items[k].id == k + 1
    decreases |cs|
  {
    if cs != [] {
      var init := cs[..|cs| - 1];
      assert Scan(init, cls).Ok?;
      ScanLists(init, cls);
      assert forall k :: 0 <= k < |init| ==> init[k] == cs[k];
    }
  }

  predicate PosLess(a: Pos, b: Pos) {
    a.row < b.row || (a.row == b.row && a.col < b.col)
  }

  /** Cells come in strictly increasing row-major order. */
  lemma {:induction false} CellsOrdered(matrix: seq<seq<string>>)
    ensures forall a, b :: 0 <= a < b < |Cells(matrix)| ==> PosLess(Cells(matrix)[a].0, Cells(matrix)[b].0)
    ensures forall k :: 0 <= k < |Cells(matrix)| ==> 0 <= Cells(matrix)[k].0.row < |matrix|
    decreases |matrix|
  {
    if matrix != [] {
      CellsOrdered(matrix[..|matrix| - 1]);
    }
  }

  /** Strictly increasing cells give strictly increasing walls. */
  lemma {:induction false} WallsOrdered(cs: seq<(Pos, string)>, cls: string -> CellKind)
    requires Scan(cs, cls).Ok?
    requires forall a, b :: 0 <= a < b < |cs| ==> PosLess(cs[a].0, cs[b].0)
    ensures var w := Scan(cs, cls).value.walls;
      forall a, b :: 0 <= a < b < |w| ==> PosLess(w[a], w[b])
    decreases |cs|
  {
    if cs != [] {
      var init := cs[..|cs| - 1];
      assert Scan(init, cls).Ok?;
      WallsOrdered(init, cls);
      ScanLists(init, cls);
      var w := Scan(init, cls).value.walls;
      forall a | 0 <= a < |w| ensures PosLess(w[a], cs[|cs| - 1].0) {
        assert w[a] in w;
        var k :| 0 <= k < |init| && init[k].0 == w[a] && cls(init[k].1) == WallCell;
        assert init[k] == cs[k];
      }
    }
  }

  /** Where a position sits in the cell list. */
  lemma {:induction false} CellsAt(matrix: seq<seq<string>>, k: nat)
    requires k < |Cells(matrix)|
    ensures var p := Cells(matrix)[k].0;
      0 <= p.row < |matrix| && 0 <= p.col < |matrix[p.row]| && Cells(matrix)[k].1 == matrix[p.row][p.col]
    decreases |matrix|
  {
    var init := matrix[..|matrix| - 1];
    if k < |Cells(init)| {
      CellsAt(init, k);
    }
  }

  lemma {:induction false} CellsCover(matrix: seq<seq<string>>, p: Pos)
    requires 0 <= p.row < |matrix| && 0 <= p.col < |matrix[p.row]|
    ensures exists k :: 0 <= k < |Cells(matrix)| && Cells(matrix)[k].0 == p
    decreases |matrix|
  {
    var init := matrix[..|matrix| - 1];
    if p.row < |init| {
      CellsCover(init, p);
      var k :| 0 <= k < |Cells(init)| && Cells(init)[k].0 == p;
      assert Cells(matrix)[k] == Cells(init)[k];
    } else {
      assert Cells(matrix)[|Cells(init)| + p.col].0 == p;
    }
  }

  /**
   * A successful parse of a matrix lists, in row-major order, exactly the
   * positions of the cells whose stripped token is `"w"`.
   */
  lemma MatrixWalls(matrix: seq<seq<string>>, p: Pos)
    requires Scan(Cells(matrix), Classify).Ok?
    ensures p in Scan(Cells(matrix), Classify).value.walls <==>
      0 <= p.row < |matrix| && 0 <= p.col < |matrix[p.row]| && Strip(matrix[p.row][p.col]) == "w"
    ensures var w := Scan(Cells(matrix), Classify).value.walls;
      forall a, b :: 0 <= a < b < |w| ==> PosLess(w[a], w[b])
  {
    var cs := Cells(matrix);
    ScanLists(cs, Classify);
    CellsOrdered(matrix);
    WallsOrdered(cs, Classify);
    if p in Scan(cs, Classify).value.walls {
      var k :| 0 <= k < |cs| && cs[k].0 == p && Classify(cs[k].1) == WallCell;
      CellsAt(matrix, k);
      ClassifyWall(cs[k].1);
    }
    if 0 <= p.row < |matrix| && 0 <= p.col < |matrix[p.row]| && Strip(matrix[p.row][p.col]) == "w" {
      CellsCover(matrix, p);
      var k :| 0 <= k < |cs| && cs[k].0 == p;
      CellsAt(matrix, k);
      ClassifyWall(cs[k].1);
    }
  }

  // ---------------------------------------------------------------------
  // Single tokens

  /** `name|n` is an item of type `name` with `n` remaining uses. */
  lemma ItemWithUses(name: string, n: int)
    requires name != [] && '|' !in name && !IsSpace(name[0]) && !IsSpace(name[|name| - 1])
    requires !(|name| >= 2 && name[0] == 'p' && IsDigit(name[1]))
    ensures Classify(name + "|" + ShowInt(n)) == ItemCell(name, Some(n))
  {
    var shown := ShowInt(n);
    ShownFacts(n);
    var cell := name + "|" + shown;
    ItemCellFacts(name, shown);
    StripNoEnds(name);
    ItemKindOf(cell, name, shown, n);
    assert ClassifyToken(cell) == ItemKind(cell);
  }

  /** A shown integer is a non-empty run of digits after an optional `-`, and parses back. */
  lemma ShownFacts(n: int)
    ensures ShowInt(n) != [] && IsDigit(ShowInt(n)[|ShowInt(n)| - 1]) && !IsSpace(ShowInt(n)[0])
    ensures '|' !in ShowInt(n) && Strip(ShowInt(n)) == ShowInt(n) && ParseInt(ShowInt(n)) == Some(n)
  {
    var shown := ShowInt(n);
    assert shown != [] && IsDigit(shown[|shown| - 1]) by {
      assert Show(if n < 0 then -n else n) != [];
    }
    assert '|' !in shown by {
      assert forall k :: 0 <= k < |shown| ==> shown[k] == '-' || IsDigit(shown[k]);
    }
    assert !IsSpace(shown[0]) by {
      assert shown[0] == '-' || IsDigit(shown[0]);
    }
    StripNoEnds(shown);
    ParseShow(n);
  }

  /** `name|shown` strips to itself, is no wall and no player, and splits into its two pieces. */
  lemma ItemCellFacts(name: string, shown: string)
    requires name != [] && '|' !in name && !IsSpace(name[0])
    requires !(|name| >= 2 && name[0] == 'p' && IsDigit(name[1]))
    requires shown != [] && '|' !in shown && !IsSpace(shown[|shown| - 1])
    ensures Strip(name + "|" + shown) == name + "|" + shown && name + "|" + shown != "w"
    ensures MatchPlayer(name + "|" + shown).None?
    ensures Split(name + "|" + shown, '|') == [name, shown]
  {
    var cell := name + "|" + shown;
    assert !IsSpace(cell[0]) && !IsSpace(cell[|cell| - 1]);
    StripNoEnds(cell);
    assert cell != "w" by {
      assert cell[|name|] == '|';
    }
    assert !(cell[0] == 'p' && IsDigit(cell[1]));
    assert JoinWith([name, shown], '|') == cell;
    JoinSplit([name, shown], '|');
  }

  /** Two stripped pieces, the second an integer, make an item with uses. */
  lemma ItemKindOf(cell: string, name: string, shown: string, n: int)
    requires Split(cell, '|') == [name, shown] && Strip(name) == name && Strip(shown) == shown
    requires ParseInt(shown) == Some(n)
    ensures ItemKind(cell) == ItemCell(name, Some(n))
  {
    var parts := ItemParts(cell);
    assert parts[0] == name && parts[1] == shown;
  }

  /**
   * `p<id>c<k>`: player `id` in colour `k`, the colour names counting from
   * 1, `c0` wrapping round to the last one and anything past the last
   * raising `ValueError`.
   */
  lemma PlayerWithColor(id: nat, k: nat)
    ensures var cell := "p" + Show(id) + "c" + Show(k);
      Classify(cell) == if k > |ColorNames| then Invalid else PlayerCell(Show(id), Some(PyIndex(ColorNames, k - 1)))
  {
    var d, e := Show(id), Show(k);
    PlayerCellKind(d, e);
    ShowValue(k);
    PlayerColorKind(d, e);
  }

  /** `p<digits>c<digits>` is read as a player token with a colour group. */
  lemma PlayerCellKind(d: string, e: string)
    requires d != [] && AllDigits(d) && e != [] && AllDigits(e)
    ensures Classify("p" + d + "c" + e) == PlayerKind(PlayerToken(d, Some(e)))
  {
    var cell := "p" + d + "c" + e;
    PlayerTokenOf(d, e);
    assert !IsSpace(cell[0]) && !IsSpace(cell[|cell| - 1]);
    StripNoEnds(cell);
    assert cell != "w";
  }

  /** A player token with a colour group resolves the colour by `ColorOf`. */
  lemma PlayerColorKind(d: string, e: string)
    requires AllDigits(e)
    ensures PlayerKind(PlayerToken(d, Some(e))) ==
      if DigitsValue(e) > |ColorNames| then Invalid else PlayerCell(d, Some(PyIndex(ColorNames, DigitsValue(e) - 1)))
  {
  }

  /** `p<digits>c<digits>` matches the player pattern with both groups. */
  lemma PlayerTokenOf(d: string, e: string)
    requires d != [] && AllDigits(d) && e != [] && AllDigits(e)
    ensures MatchPlayer("p" + d + "c" + e) == Some(PlayerToken(d, Some(e)))
  {
    var cell := "p" + d + "c" + e;
    var j := 1 + |d|;
    assert cell[1..j] == d by {
      assert forall k :: 1 <= k < j ==> cell[k] == d[k - 1];
    }
    assert cell[j] == 'c';
    assert cell[j + 1..] == e by {
      assert forall k :: j + 1 <= k < |cell| ==> cell[k] == e[k - j - 1];
    }
    assert cell[1] == d[0] && cell[j + 1] == e[0];
    DigitRunEndAt(cell, 1, j);
    DigitRunEndAt(cell, j + 1, |cell|);
    assert cell[j + 1..DigitRunEnd(cell, j + 1)] == e;
  }
}
