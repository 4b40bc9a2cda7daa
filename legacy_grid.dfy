/**
 * The repository's older single-file game (grid.py, Python 2): a
 * `Gridworld` holding lists of players, food and walls, with food
 * consumption, respawning, colour contagion and player movement. Player
 * colours are indices into `Gridworld.colors`, whose four entries are
 * distinct, so `colors.index(color)` is the index itself. Times and scores
 * are exact reals; `time.time()` and the random draws are parameters.
 */
module LegacyGrid {
  import opened Base

  datatype Food = Food(id: int, position: Pos)

  datatype LPlayer = LPlayer(
    id: int, position: Pos, color: nat, score: real,
    motionTimestamp: real, motionDirection: string, speedLimit: real, motionCost: real)

  /** `player.is_neighbor(other, d)`: within Manhattan distance `d`. */
  predicate IsNeighbor(a: LPlayer, b: LPlayer, d: int) {
    Abs(a.position.row - b.position.row) + Abs(a.position.col - b.position.col) <= d
  }

  lemma NeighborDistance(a: LPlayer, b: LPlayer, d: int)
    ensures IsNeighbor(a, b, d) <==> Manhattan(a.position, b.position) <= d
    ensures IsNeighbor(a, b, d) <==> IsNeighbor(b, a, d)
  {
  }

  /** The indices in `from..|players|` of the players that neighbour player `i`, other than `i` itself. */
  function NeighborsFrom(players: seq<LPlayer>, i: nat, d: int, from: nat): (ns: seq<nat>)
    requires i < |players| && from <= |players|
    ensures forall k :: 0 <= k < |ns| ==> from <= ns[k] < |players|
    ensures forall j :: j in ns <==> from <= j < |players| && j != i && IsNeighbor(players[i], players[j], d)
    ensures forall a, b :: 0 <= a < b < |ns| ==> ns[a] < ns[b]
    decreases |players| - from
  {
    if from == |players| then []
    else
      var rest := NeighborsFrom(players, i, d, from + 1);
      if from != i && IsNeighbor(players[i], players[from], d) then [from] + rest else rest
  }

  /** `player.neighbors(d)`: the other players within distance `d`, in list order (by index). */
  function Neighbors(players: seq<LPlayer>, i: nat, d: int): (ns: seq<nat>)
    requires i < |players|
    ensures forall j :: j in ns <==> 0 <= j < |players| && j != i && IsNeighbor(players[i], players[j], d)
    ensures forall a, b :: 0 <= a < b < |ns| ==> ns[a] < ns[b]
  {
    NeighborsFrom(players, i, d, 0)
  }

  // ---------------------------------------------------------------------
  // Contagion

  function Count<T(==)>(cs: seq<T>, c: T): nat
    decreases |cs|
  {
    if cs == [] then 0 else Count(cs[..|cs| - 1], c) + (if cs[|cs| - 1] == c then 1 else 0)
  }

  /** The index of the first entry with the largest count among `cs[..n]`. */
  function BestAt<T(==)>(cs: seq<T>, n: nat): (k: nat)
    requires 0 < n <= |cs|
    ensures k < n
    ensures forall j :: 0 <= j < n ==> Count(cs, cs[j]) <= Count(cs, cs[k])
    ensures forall j :: 0 <= j < k ==> Count(cs, cs[j]) < Count(cs, cs[k])
  {
    if n == 1 then 0
    else
      var k := BestAt(cs, n - 1);
      if Count(cs, cs[n - 1]) > Count(cs, cs[k]) then n - 1 else k
  }

  /** `max(colors, key=colors.count)`: the first colour of largest count. */
  function Plurality<T(==)>(cs: seq<T>): T
    requires cs != []
  {
    cs[BestAt(cs, |cs|)]
  }

  /** Two different values share the list: their counts add up to at most its length. */
  lemma {:induction false} CountsDisjoint<T>(cs: seq<T>, a: T, b: T)
    requires a != b
    ensures Count(cs, a) + Count(cs, b) <= |cs|
    decreases |cs|
  {
    if cs != [] {
      CountsDisjoint(cs[..|cs| - 1], a, b);
    }
  }

  /** A value with a positive count occurs in the list. */
  lemma {:induction false} CountedOccurs<T>(cs: seq<T>, c: T)
    requires Count(cs, c) > 0
    ensures exists j :: 0 <= j < |cs| && cs[j] == c
    decreases |cs|
  {
    var n := |cs| - 1;
    if cs[n] != c {
      CountedOccurs(cs[..n], c);
      var j :| 0 <= j < n && cs[..n][j] == c;
      assert cs[j] == c;
    }
  }

  /** A value holding a strict majority of the list is its plurality, and no other value can be. */
  lemma MajorityIsPlurality<T>(cs: seq<T>, c: T)
    requires 2 * Count(cs, c) > |cs|
    ensures cs != [] && Plurality(cs) == c
  {
    CountedOccurs(cs, c);
    var j :| 0 <= j < |cs| && cs[j] == c;
    var p := Plurality(cs);
    assert Count(cs, c) <= Count(cs, p);
    if p != c {
      CountsDisjoint(cs, c, p);
    }
  }

  /** `rank(color)`: 1 without a hierarchy, else the colour's place in it; `IndexError` past its end. */
  function Rank(hierarchy: seq<int>, color: nat): Result<int> {
    if hierarchy == [] then Ok(1)
    else if color < |hierarchy| then Ok(hierarchy[color])
    else Err("IndexError")
  }

  /** The colours one player sees: its neighbours' in list order, then its own. */
  function SeenColors(players: seq<LPlayer>, i: nat, d: int): seq<nat>
    requires i < |players|
  {
    var ns := Neighbors(players, i, d);
    seq(|ns|, k requires 0 <= k < |ns| => players[ns[k]].color) + [players[i].color]
  }

  /**
   * The update `spread_contagion` collects for player `i`: the plurality
   * colour of what it sees, when that colour holds a strict majority and
   * ranks strictly lower than the player's own. Nothing without neighbours.
   */
  function ContagionUpdate(players: seq<LPlayer>, hierarchy: seq<int>, i: nat, d: int): Result<Option<nat>>
    requires i < |players|
  {
    if Neighbors(players, i, d) == [] then Ok(None)
    else
      var colors := SeenColors(players, i, d);
      var plurality := Plurality(colors);
      if 2 * Count(colors, plurality) <= |colors| then Ok(None)
      else match Rank(hierarchy, plurality)
        case Err(e) => Err(e)
        case Ok(r) =>
          match Rank(hierarchy, players[i].color)
            case Err(e) => Err(e)
            case Ok(own) => Ok(if r < own then Some(plurality) else None)
  }

  /** `ContagionUpdate` for every index; past the last player nothing is updated. */
  function Contagion(players: seq<LPlayer>, hierarchy: seq<int>, d: int): nat -> Result<Option<nat>> {
    (i: nat) => if i < |players| then ContagionUpdate(players, hierarchy, i, d) else Ok(None)
  }

  /** The updates of the first `n` players, in player order; the first error stops the collection. */
  function Collect(upd: nat -> Result<Option<nat>>, n: nat): Result<seq<(nat, nat)>> {
    if n == 0 then Ok([])
    else match Collect(upd, n - 1)
      case Err(e) => Err(e)
      case Ok(us) =>
        match upd(n - 1)
          case Err(e) => Err(e)
          case Ok(None) => Ok(us)
          case Ok(Some(c)) => Ok(us + [(n - 1, c)])
  }

  /** `player.color = color` for each collected pair, in order. */
  function ApplyList(players: seq<LPlayer>, us: seq<(nat, nat)>): (r: seq<LPlayer>)
    ensures |r| == |players|
    decreases |us|
  {
    if us == [] then players
    else
      var ps := ApplyList(players, us[..|us| - 1]);
      var j, c := us[|us| - 1].0, us[|us| - 1].1;
      if j < |ps| then ps[j := ps[j].(color := c)] else ps
  }

  /** The players after `spread_contagion()`: unchanged if a rank raises. */
  function Recolored(players: seq<LPlayer>, hierarchy: seq<int>, d: int): Result<seq<LPlayer>> {
    match Collect(Contagion(players, hierarchy, d), |players|)
      case Err(e) => Err(e)
      case Ok(us) => Ok(ApplyList(players, us))
  }

  /** Without a hierarchy every rank is 1, so the strict comparison never lets a colour spread. */
  lemma NoHierarchyNoChange(players: seq<LPlayer>, d: int)
    ensures Recolored(players, [], d) == Ok(players)
  {
    var upd := Contagion(players, [], d);
    forall i: nat ensures upd(i) == Ok(None) {
      if i < |players| {
        assert upd(i) == ContagionUpdate(players, [], i, d);
        assert forall c :: Rank([], c) == Ok(1);
        assert ContagionUpdate(players, [], i, d) == Ok(None);
      }
    }
    NothingCollected(upd, |players|);
  }

  lemma {:induction false} NothingCollected(upd: nat -> Result<Option<nat>>, n: nat)
    requires forall i: nat :: upd(i) == Ok(None)
    ensures Collect(upd, n) == Ok([])
  {
    if n > 0 {
      NothingCollected(upd, n - 1);
    }
  }

  /** A colour that spreads holds a strict majority of what the player sees and outranks its own. */
  lemma UpdateMeaning(players: seq<LPlayer>, hierarchy: seq<int>, i: nat, d: int, c: nat)
    requires i < |players| && ContagionUpdate(players, hierarchy, i, d) == Ok(Some(c))
    ensures var colors := SeenColors(players, i, d);
      c in colors && 2 * Count(colors, c) > |colors| &&
      Rank(hierarchy, c).Ok? && Rank(hierarchy, players[i].color).Ok? &&
      Rank(hierarchy, c).value < Rank(hierarchy, players[i].color).value
  {
  }

  // ---------------------------------------------------------------------
  // Movement

  /** The cell `move` aims at: one step, unless that would leave the grid. */
  function Target(p: Pos, direction: string, rows: int, columns: int): Pos {
    if direction == "up" then (if p.row > 0 then Pos(p.row - 1, p.col) else p)
    else if direction == "down" then (if p.row < rows - 1 then Pos(p.row + 1, p.col) else p)
    else if direction == "left" then (if p.col > 0 then Pos(p.row, p.col - 1) else p)
    else if direction == "right" then (if p.col < columns - 1 then Pos(p.row, p.col + 1) else p)
    else p
  }

  const Directions: seq<string> := ["up", "down", "left", "right"]

  /** `tremble(direction)`: one of the three other directions, chosen by `choice`; `ValueError` for any other word. */
  function Tremble(direction: string, choice: nat): (r: Result<string>)
    requires choice < 3
    ensures r.Err? <==> direction !in Directions
    ensures r.Ok? ==> r.value in Directions && r.value != direction
  {
    if direction !in Directions then Err("ValueError")
    else
      var k := IndexOf(Directions, direction);
      var rest := Directions[..k] + Directions[k + 1..];
      assert forall m :: 0 <= m < |rest| ==> rest[m] in Directions && rest[m] != direction;
      Ok(rest[choice])
  }

  function IndexOf(s: seq<string>, x: string): (k: nat)
    requires x in s
    ensures k < |s| && s[k] == x && forall j :: 0 <= j < k ==> s[j] != x
  {
    if s[0] == x then 0 else 1 + IndexOf(s[1..], x)
  }

  predicate PlayerAt(players: seq<LPlayer>, p: Pos) {
    exists j :: 0 <= j < |players| && players[j].position == p
  }

  // ---------------------------------------------------------------------
  // The world

  class LegacyGridworld {
    const rows: int
    const columns: int
    const respawnFood: bool
    const foodReward: real
    const playerOverlap: bool
    const startTimestamp: real
    /** `contagion_hierarchy`: empty when off. */
    const hierarchy: seq<int>
    const walls: seq<Pos>
    var players: seq<LPlayer>
    var food: seq<Food>
    var foodConsumed: seq<Food>

    /**
     * `Gridworld(**kwargs)` once the walls are generated; `foodPositions`
     * are the positions of the `num_food` initial `spawn_food()` calls.
     */
    constructor (rows: int, columns: int, respawnFood: bool, foodReward: real, playerOverlap: bool,
                 startTimestamp: real, hierarchy: seq<int>, walls: seq<Pos>, foodPositions: seq<Pos>)
      ensures this.rows == rows && this.columns == columns && this.respawnFood == respawnFood
      ensures this.foodReward == foodReward && this.playerOverlap == playerOverlap
      ensures this.startTimestamp == startTimestamp && this.hierarchy == hierarchy && this.walls == walls
      ensures players == [] && foodConsumed == []
      ensures |food| == |foodPositions| && forall k :: 0 <= k < |food| ==> food[k] == Food(k, foodPositions[k])
    {
      this.rows := rows;
      this.columns := columns;
      this.respawnFood := respawnFood;
      this.foodReward := foodReward;
      this.playerOverlap := playerOverlap;
      this.startTimestamp := startTimestamp;
      this.hierarchy := hierarchy;
      this.walls := walls;
      players := [];
      foodConsumed := [];
      var fs: seq<Food> := [];
      for k := 0 to |foodPositions|
        invariant |fs| == k && forall j :: 0 <= j < k ==> fs[j] == Food(j, foodPositions[j])
      {
        fs := fs + [Food(|fs|, foodPositions[k])];
      }
      food := fs;
    }

    /** `_has_player(position)` */
    method HasPlayer(position: Pos) returns (b: bool)
      ensures b <==> PlayerAt(players, position)
    {
      for j := 0 to |players|
        invariant forall k :: 0 <= k < j ==> players[k].position != position
      {
        if players[j].position == position {
          return true;
        }
      }
      return false;
    }

    /** `_has_food(position)` */
    method HasFood(position: Pos) returns (b: bool)
      ensures b <==> exists j :: 0 <= j < |food| && food[j].position == position
    {
      for j := 0 to |food|
        invariant forall k :: 0 <= k < j ==> food[k].position != position
      {
        if food[j].position == position {
          return true;
        }
      }
      return false;
    }

    /** `_has_wall(position)` */
    method HasWall(position: Pos) returns (b: bool)
      ensures b <==> position in walls
    {
      for j := 0 to |walls|
        invariant forall k :: 0 <= k < j ==> walls[k] != position
      {
        if walls[j] == position {
          return true;
        }
      }
      return false;
    }

    ghost predicate IsEmpty(position: Pos)
      reads this
    {
      !PlayerAt(players, position) && (forall j :: 0 <= j < |food| ==> food[j].position != position) && position !in walls
    }

    /** `_empty(position)`: no player, no food and no wall there. */
    method Empty(position: Pos) returns (b: bool)
      ensures b <==> IsEmpty(position)
    {
      var p := HasPlayer(position);
      if p {
        return false;
      }
      var f := HasFood(position);
      if f {
        return false;
      }
      var w := HasWall(position);
      return !w;
    }

    /**
     * `_random_empty_position()`, `draws` being the successive pairs of
     * `random.randint` values: the first empty one. `None` when the draws
     * run out, where the source keeps drawing.
     */
    method RandomEmptyPosition(draws: seq<Pos>) returns (r: Option<Pos>)
      ensures r.Some? ==> exists k :: (0 <= k < |draws| && draws[k] == r.value && IsEmpty(r.value) &&
        forall j :: 0 <= j < k ==> !IsEmpty(draws[j]))
      ensures r.None? ==> forall j :: 0 <= j < |draws| ==> !IsEmpty(draws[j])
    {
      for k := 0 to |draws|
        invariant forall j :: 0 <= j < k ==> !IsEmpty(draws[j])
      {
        var e := Empty(draws[k]);
        if e {
          return Some(draws[k]);
        }
      }
      return None;
    }

    /** `spawn_food()` at the position `_random_empty_position()` chose. */
    method SpawnFood(position: Pos)
      modifies this
      ensures food == old(food) + [Food(|old(food)| + |foodConsumed|, position)]
      ensures players == old(players) && foodConsumed == old(foodConsumed)
    {
      food := food + [Food(|food| + |foodConsumed|, position)];
    }

    /**
     * `consume()`; `spawnAt(k)` is where the `k`-th respawn of this call
     * lands. The loop runs over list indices while the list changes.
     */
    method Consume(spawnAt: nat -> Pos)
      modifies this
      ensures Feed(players, food, foodConsumed) ==
        ConsumeFrom(Feed(old(players), old(food), old(foodConsumed)), 0, 0, spawnAt, respawnFood, foodReward)
    {
      ghost var goal := ConsumeFrom(Feed(players, food, foodConsumed), 0, 0, spawnAt, respawnFood, foodReward);
      var i := 0;
      var spawned := 0;
      while i < |food|
        invariant ConsumeFrom(Feed(players, food, foodConsumed), i, spawned, spawnAt, respawnFood, foodReward) == goal
        decreases |food| - i
      {
        ghost var st := Feed(players, food, foodConsumed);
        var f := food[i];
        var eaten := false;
        ghost var at: nat := i;
        for j := 0 to |players|
          invariant !eaten ==> at == i && Feed(players, food, foodConsumed) == st && forall k :: 0 <= k < j ==> players[k].position != f.position
          invariant eaten ==> at == i + 1
          invariant ConsumeFrom(Feed(players, food, foodConsumed), at, spawned, spawnAt, respawnFood, foodReward) == goal
        {
          if f.position == players[j].position {
            FirstEaterIs(players, f.position, j);
            ghost var before := spawned;
            spawned := EatFood(i, j, spawnAt, spawned);
            assert ConsumeFrom(st, i, before, spawnAt, respawnFood, foodReward) ==
              ConsumeFrom(Feed(players, food, foodConsumed), i + 1, spawned, spawnAt, respawnFood, foodReward);
            eaten := true;
            at := i + 1;
            break;
          }
        }
        if !eaten {
          NoEater(players, f.position);
        }
        i := i + 1;
      }
    }

    /**
     * The body of `consume`'s inner `if`: `players[j]` eats `food[i]`,
     * and with respawning a new food lands at `spawnAt(spawned)`.
     */
    method EatFood(i: nat, j: nat, spawnAt: nat -> Pos, spawned: nat) returns (spawned': nat)
      requires i < |food| && j < |players|
      modifies this
      ensures Feed(players, food, foodConsumed) ==
        Eat(Feed(old(players), old(food), old(foodConsumed)), i, j, spawned, spawnAt, respawnFood, foodReward)
      ensures spawned' == if respawnFood then spawned + 1 else spawned
    {
      var f := food[i];
      foodConsumed := foodConsumed + [f];
      food := food[..i] + food[i + 1..];
      spawned' := spawned;
      if respawnFood {
        SpawnFood(spawnAt(spawned));
        spawned' := spawned + 1;
      }
      players := players[j := players[j].(score := players[j].score + foodReward)];
    }

    /**
     * `player.move(direction, tremble_rate)` for `players[i]`: `trembled`
     * is the choice of `tremble` when `random.random() < tremble_rate`,
     * `now` is `time.time()`.
     */
    method Move(i: nat, direction: string, trembled: Option<nat>, now: real) returns (err: Option<string>)
      requires i < |players|
      requires trembled.Some? ==> trembled.value < 3
      modifies this
      ensures var r := MoveResult(old(players), i, direction, trembled, now - startTimestamp, rows, columns, playerOverlap, walls);
        players == old(players)[i := r.0] && err == r.1
      ensures food == old(food) && foodConsumed == old(foodConsumed)
    {
      var dir := direction;
      if trembled.Some? {
        var t := Tremble(dir, trembled.value);
        if t.Err? {
          players := players[i := players[i]];
          return Some(t.error);
        }
        dir := t.value;
      }
      var player := players[i];
      player := player.(motionDirection := dir);
      var target := Target(player.position, dir, rows, columns);
      var nowRelative := now - startTimestamp;
      if player.speedLimit == 0.0 {
        players := players[i := player];
        return Some("ZeroDivisionError");
      }
      var canMove := nowRelative > player.motionTimestamp + 1.0 / player.speedLimit;
      var canAfford := player.score >= player.motionCost;
      if canMove && canAfford {
        var occupied := HasPlayer(target);
        var walled := HasWall(target);
        if playerOverlap || (!occupied && !walled) {
          player := player.(position := target, motionTimestamp := nowRelative, score := player.score - player.motionCost);
        }
      }
      players := players[i := player];
      err := None;
    }

    /** `spread_contagion()` with `d = contagion`: every update is collected, then applied. */
    method SpreadContagion(d: int) returns (err: Option<string>)
      modifies this
      ensures Recolored(old(players), hierarchy, d) == if err.Some? then Err(err.value) else Ok(players)
      ensures err.Some? ==> players == old(players)
      ensures food == old(food) && foodConsumed == old(foodConsumed)
    {
      var r := CollectUpdates(Contagion(players, hierarchy, d), |players|);
      match r {
        case Err(e) =>
          return Some(e);
        case Ok(updates) =>
          players := ApplyUpdates(players, updates);
          err := None;
      }
    }
  }

  /** The first loop of `spread_contagion`: the updates of the first `m` players, stopping at the first error. */
  method CollectUpdates(upd: nat -> Result<Option<nat>>, m: nat) returns (r: Result<seq<(nat, nat)>>)
    ensures r == Collect(upd, m)
  {
    var updates: seq<(nat, nat)> := [];
    for n := 0 to m
      invariant Collect(upd, n) == Ok(updates)
    {
      var u := upd(n);
      match u {
        case Err(e) =>
          CollectErr(upd, n, m);
          return Err(e);
        case Ok(None) =>
        case Ok(Some(c)) =>
          updates := updates + [(n, c)];
      }
    }
    r := Ok(updates);
  }

  /** The loop `for player, color in color_updates: player.color = color`. */
  method ApplyUpdates(players: seq<LPlayer>, updates: seq<(nat, nat)>) returns (ps: seq<LPlayer>)
    ensures ps == ApplyList(players, updates)
  {
    ps := players;
    for k := 0 to |updates|
      invariant ps == ApplyList(players, updates[..k])
    {
      assert updates[..k + 1][..k] == updates[..k];
      if updates[k].0 < |ps| {
        ps := ps[updates[k].0 := ps[updates[k].0].(color := updates[k].1)];
      }
    }
    assert updates[..|updates|] == updates;
  }

  // ---------------------------------------------------------------------
  // What `consume` does

  /** The lists `consume` reads and changes. */
  datatype Feed = Feed(players: seq<LPlayer>, food: seq<Food>, consumed: seq<Food>)

  /** The first player standing on `p`, if any. */
  function FirstEater(players: seq<LPlayer>, p: Pos): (r: Option<nat>)
    ensures r.Some? ==> (r.value < |players| && players[r.value].position == p &&
      forall k :: 0 <= k < r.value ==> players[k].position != p)
    ensures r.None? ==> forall k :: 0 <= k < |players| ==> players[k].position != p
  {
    if players == [] then None
    else if players[0].position == p then Some(0)
    else match FirstEater(players[1..], p)
      case None => None
      case Some(k) => Some(k + 1)
  }

  lemma FirstEaterIs(players: seq<LPlayer>, p: Pos, j: nat)
    requires j < |players| && players[j].position == p && forall k :: 0 <= k < j ==> players[k].position != p
    ensures FirstEater(players, p) == Some(j)
  {
  }

  lemma NoEater(players: seq<LPlayer>, p: Pos)
    requires forall k :: 0 <= k < |players| ==> players[k].position != p
    ensures FirstEater(players, p) == None
  {
  }

  /**
   * Player `j` eats `food[i]`: it moves to the consumed list, a new food
   * with id `len(food) + len(food_consumed)` is spawned when respawning,
   * and the player gains the reward.
   */
  function Eat(st: Feed, i: nat, j: nat, spawned: nat, spawnAt: nat -> Pos, respawn: bool, reward: real): (r: Feed)
    requires i < |st.food| && j < |st.players|
    ensures |r.food| == if respawn then |st.food| else |st.food| - 1
  {
    var consumed := st.consumed + [st.food[i]];
    var rest := st.food[..i] + st.food[i + 1..];
    Feed(st.players[j := st.players[j].(score := st.players[j].score + reward)],
         if respawn then rest + [Food(|rest| + |consumed|, spawnAt(spawned))] else rest,
         consumed)
  }

  /**
   * `consume()` from list index `i` on, `spawned` respawns done: the food
   * at index `i` is eaten by the first player on its cell. Removing it
   * shifts the next food into index `i`, which the loop then passes over.
   */
  function ConsumeFrom(st: Feed, i: nat, spawned: nat, spawnAt: nat -> Pos, respawn: bool, reward: real): Feed
    decreases |st.food| - i
  {
    if i >= |st.food| then st
    else match FirstEater(st.players, st.food[i].position)
      case None => ConsumeFrom(st, i + 1, spawned, spawnAt, respawn, reward)
      case Some(j) =>
        ConsumeFrom(Eat(st, i, j, spawned, spawnAt, respawn, reward), i + 1,
                    if respawn then spawned + 1 else spawned, spawnAt, respawn, reward)
  }

  function TotalScore(players: seq<LPlayer>): real
    decreases |players|
  {
    if players == [] then 0.0 else TotalScore(players[..|players| - 1]) + players[|players| - 1].score
  }

  lemma {:induction false} TotalScoreUpdate(players: seq<LPlayer>, j: nat, s: real)
    requires j < |players|
    ensures TotalScore(players[j := players[j].(score := s)]) == TotalScore(players) - players[j].score + s
    decreases |players|
  {
    var n := |players| - 1;
    var ps := players[j := players[j].(score := s)];
    if j < n {
      assert ps[..n] == players[..n][j := players[j].(score := s)];
      TotalScoreUpdate(players[..n], j, s);
    } else {
      assert ps[..n] == players[..n];
    }
  }

  /**
   * The lists after one `consume()`: the eaten food is appended, in order,
   * to `food_consumed`, each eaten food had a player on its cell, with
   * respawning the food list keeps its length and without it shrinks by
   * what was eaten, and no player moves.
   */
  lemma {:induction false} ConsumeShape(st: Feed, i: nat, spawned: nat, spawnAt: nat -> Pos, respawn: bool, reward: real)
    ensures var r := ConsumeFrom(st, i, spawned, spawnAt, respawn, reward);
      |r.consumed| >= |st.consumed| && r.consumed[..|st.consumed|] == st.consumed &&
      (forall k :: |st.consumed| <= k < |r.consumed| ==> PlayerAt(st.players, r.consumed[k].position)) &&
      (respawn ==> |r.food| == |st.food|) && (!respawn ==> |r.food| + (|r.consumed| - |st.consumed|) == |st.food|) &&
      |r.players| == |st.players| && (forall k :: 0 <= k < |st.players| ==> r.players[k].position == st.players[k].position)
    decreases |st.food| - i
  {
    if i >= |st.food| {
      assert ConsumeFrom(st, i, spawned, spawnAt, respawn, reward) == st;
    } else {
      match FirstEater(st.players, st.food[i].position) {
        case None =>
          assert ConsumeFrom(st, i, spawned, spawnAt, respawn, reward) == ConsumeFrom(st, i + 1, spawned, spawnAt, respawn, reward);
          ConsumeShape(st, i + 1, spawned, spawnAt, respawn, reward);
        case Some(j) =>
          var st' := Eat(st, i, j, spawned, spawnAt, respawn, reward);
          ConsumeShape(st', i + 1, if respawn then spawned + 1 else spawned, spawnAt, respawn, reward);
          var r := ConsumeFrom(st', i + 1, if respawn then spawned + 1 else spawned, spawnAt, respawn, reward);
          assert r.consumed[..|st.consumed|] == r.consumed[..|st'.consumed|][..|st.consumed|];
          assert r.consumed[|st.consumed|] == st'.consumed[|st.consumed|] == st.food[i];
          forall k | |st.consumed| <= k < |r.consumed| ensures PlayerAt(st.players, r.consumed[k].position) {
            if k == |st.consumed| {
              assert st.players[j].position == r.consumed[k].position;
            } else {
              var q :| 0 <= q < |st'.players| && st'.players[q].position == r.consumed[k].position;
              assert st.players[q].position == r.consumed[k].position;
            }
          }
      }
    }
  }

  lemma EatScore(st: Feed, i: nat, j: nat, spawned: nat, spawnAt: nat -> Pos, respawn: bool, reward: real)
    requires i < |st.food| && j < |st.players|
    ensures TotalScore(Eat(st, i, j, spawned, spawnAt, respawn, reward).players) == TotalScore(st.players) + reward
    ensures |Eat(st, i, j, spawned, spawnAt, respawn, reward).consumed| == |st.consumed| + 1
  {
    TotalScoreUpdate(st.players, j, st.players[j].score + reward);
  }

  /** `n * x`, as `n` additions of `x`. */
  function Times(n: nat, x: real): real {
    if n == 0 then 0.0 else Times(n - 1, x) + x
  }

  /** Every food eaten adds `food_reward` to the total score. */
  lemma {:induction false} ConsumeScore(st: Feed, i: nat, spawned: nat, spawnAt: nat -> Pos, respawn: bool, reward: real)
    ensures var r := ConsumeFrom(st, i, spawned, spawnAt, respawn, reward);
      |r.consumed| >= |st.consumed| &&
      TotalScore(r.players) == TotalScore(st.players) + Times(|r.consumed| - |st.consumed|, reward)
    decreases |st.food| - i
  {
    var r := ConsumeFrom(st, i, spawned, spawnAt, respawn, reward);
    if i >= |st.food| {
      assert r == st;
    } else {
      match FirstEater(st.players, st.food[i].position) {
        case None =>
          ConsumeScore(st, i + 1, spawned, spawnAt, respawn, reward);
          assert TotalScore(r.players) == TotalScore(st.players) + Times(|r.consumed| - |st.consumed|, reward);
        case Some(j) =>
          var sp := if respawn then spawned + 1 else spawned;
          var st' := Eat(st, i, j, spawned, spawnAt, respawn, reward);
          assert r == ConsumeFrom(st', i + 1, sp, spawnAt, respawn, reward);
          ConsumeScore(st', i + 1, sp, spawnAt, respawn, reward);
          EatScore(st, i, j, spawned, spawnAt, respawn, reward);
          var k := |r.consumed| - |st.consumed|;
          assert k - 1 == |r.consumed| - |st'.consumed|;
          assert Times(k, reward) == Times(k - 1, reward) + reward;
          assert TotalScore(r.players) == TotalScore(st.players) + Times(|r.consumed| - |st.consumed|, reward);
      }
    }
  }

  /**
   * The skipped food: players stand on both foods, yet after the first is
   * eaten the second slides into its index and is never looked at.
   */
  lemma ConsumeSkips(spawnAt: nat -> Pos)
    ensures var a := LPlayer(1, Pos(0, 0), 0, 0.0, 0.0, "right", 8.0, 0.0);
      var b := LPlayer(2, Pos(0, 1), 0, 0.0, 0.0, "right", 8.0, 0.0);
      var f0, f1 := Food(0, Pos(0, 0)), Food(1, Pos(0, 1));
      var r := ConsumeFrom(Feed([a, b], [f0, f1], []), 0, 0, spawnAt, false, 1.0);
      r.consumed == [f0] && r.food == [f1] && r.players == [a.(score := 1.0), b]
  {
    var a := LPlayer(1, Pos(0, 0), 0, 0.0, 0.0, "right", 8.0, 0.0);
    var b := LPlayer(2, Pos(0, 1), 0, 0.0, 0.0, "right", 8.0, 0.0);
    var f0, f1 := Food(0, Pos(0, 0)), Food(1, Pos(0, 1));
    assert FirstEater([a, b], f0.position) == Some(0);
    var st := Eat(Feed([a, b], [f0, f1], []), 0, 0, 0, spawnAt, false, 1.0);
    assert [f0, f1][..0] + [f0, f1][1..] == [f1];
    assert st == Feed([a.(score := 1.0), b], [f1], [f0]);
  }

  // ---------------------------------------------------------------------
  // What `move` does

  /**
   * The state of `players[i]` after `move`, and the error raised if any:
   * a bad direction to `tremble` raises `ValueError` before anything
   * changes; otherwise the direction is recorded, a zero speed limit
   * raises `ZeroDivisionError`, and if the wait has passed and the score
   * covers the cost the player moves to the target unless (without
   * overlap) a player or a wall is there.
   */
  function MoveResult(players: seq<LPlayer>, i: nat, direction: string, trembled: Option<nat>, nowRelative: real,
                      rows: int, columns: int, overlap: bool, walls: seq<Pos>): (LPlayer, Option<string>)
    requires i < |players| && (trembled.Some? ==> trembled.value < 3)
  {
    var dir := if trembled.Some? then Tremble(direction, trembled.value) else Ok(direction);
    if dir.Err? then (players[i], Some(dir.error))
    else
      var p := players[i].(motionDirection := dir.value);
      if p.speedLimit == 0.0 then (p, Some("ZeroDivisionError"))
      else
        var target := Target(p.position, dir.value, rows, columns);
        if nowRelative > p.motionTimestamp + 1.0 / p.speedLimit && p.score >= p.motionCost &&
           (overlap || (!PlayerAt(players, target) && target !in walls))
        then (p.(position := target, motionTimestamp := nowRelative, score := p.score - p.motionCost), None)
        else (p, None)
  }

  /** A player inside the grid stays inside, at most one step from where it was. */
  lemma MoveInBounds(players: seq<LPlayer>, i: nat, direction: string, trembled: Option<nat>, nowRelative: real,
                     rows: int, columns: int, overlap: bool, walls: seq<Pos>)
    requires i < |players| && (trembled.Some? ==> trembled.value < 3)
    requires 0 <= players[i].position.row < rows && 0 <= players[i].position.col < columns
    ensures var r := MoveResult(players, i, direction, trembled, nowRelative, rows, columns, overlap, walls).0;
      0 <= r.position.row < rows && 0 <= r.position.col < columns && Manhattan(players[i].position, r.position) <= 1
  {
  }

  /** Without `player_overlap` a player never moves onto a wall or another player's cell. */
  lemma MoveBlocked(players: seq<LPlayer>, i: nat, direction: string, trembled: Option<nat>, nowRelative: real,
                    rows: int, columns: int, walls: seq<Pos>)
    requires i < |players| && (trembled.Some? ==> trembled.value < 3)
    ensures var r := MoveResult(players, i, direction, trembled, nowRelative, rows, columns, false, walls).0;
      r.position == players[i].position || (r.position !in walls && !PlayerAt(players, r.position))
  {
  }

  /** A player that may not move yet, or cannot pay, keeps position, score and timestamp, and nothing is raised. */
  lemma MoveTooSoon(players: seq<LPlayer>, i: nat, direction: string, nowRelative: real,
                    rows: int, columns: int, overlap: bool, walls: seq<Pos>)
    requires i < |players| && players[i].speedLimit != 0.0
    requires nowRelative <= players[i].motionTimestamp + 1.0 / players[i].speedLimit || players[i].score < players[i].motionCost
    ensures MoveResult(players, i, direction, None, nowRelative, rows, columns, overlap, walls) ==
      (players[i].(motionDirection := direction), None)
  {
  }

  /** With `player_overlap` a player that may move and can pay moves even onto a wall, paying the cost. */
  lemma MoveOverlap(players: seq<LPlayer>, i: nat, direction: string, nowRelative: real,
                    rows: int, columns: int, walls: seq<Pos>)
    requires i < |players| && players[i].speedLimit != 0.0
    requires nowRelative > players[i].motionTimestamp + 1.0 / players[i].speedLimit && players[i].score >= players[i].motionCost
    ensures var r := MoveResult(players, i, direction, None, nowRelative, rows, columns, true, walls);
      r.1.None? && r.0.position == Target(players[i].position, direction, rows, columns) &&
      r.0.score == players[i].score - players[i].motionCost && r.0.motionTimestamp == nowRelative
  {
  }

  // ---------------------------------------------------------------------
  // Helpers for `spread_contagion`

  /** An error at index `n` is the result of every longer collection. */
  lemma {:induction false} CollectErr(upd: nat -> Result<Option<nat>>, n: nat, m: nat)
    requires n < m
    requires Collect(upd, n).Ok? && upd(n).Err?
    ensures Collect(upd, m) == Err(upd(n).error)
    decreases m
  {
    if m > n + 1 {
      CollectErr(upd, n, m - 1);
    }
  }

  /** The collected updates name indices below `n`, in increasing order, each with its update. */
  lemma {:induction false} CollectSound(upd: nat -> Result<Option<nat>>, n: nat)
    requires Collect(upd, n).Ok?
    ensures var us := Collect(upd, n).value;
      (forall k :: 0 <= k < |us| ==> us[k].0 < n && upd(us[k].0) == Ok(Some(us[k].1))) &&
      (forall a, b :: 0 <= a < b < |us| ==> us[a].0 < us[b].0) &&
      (forall j: nat :: j < n ==> upd(j).Ok?)
    decreases n
  {
    if n > 0 {
      CollectSound(upd, n - 1);
      var us := Collect(upd, n - 1).value;
      if upd(n - 1).value.Some? {
        var us': seq<(nat, nat)> := us + [(n - 1, upd(n - 1).value.value)];
        assert Collect(upd, n) == Ok(us');
        assert forall k :: 0 <= k < |us| ==> us'[k] == us[k];
      } else {
        assert Collect(upd, n) == Ok(us);
      }
    }
  }

  /** Every index below `n` whose update names a colour is collected. */
  lemma {:induction false} CollectComplete(upd: nat -> Result<Option<nat>>, n: nat, j: nat)
    requires Collect(upd, n).Ok? && j < n && upd(j).Ok? && upd(j).value.Some?
    ensures exists k :: 0 <= k < |Collect(upd, n).value| && Collect(upd, n).value[k] == (j, upd(j).value.value)
    decreases n
  {
    var us := Collect(upd, n - 1).value;
    if j == n - 1 {
      var us': seq<(nat, nat)> := us + [(n - 1, upd(n - 1).value.value)];
      assert Collect(upd, n) == Ok(us');
      assert us'[|us|] == (j, upd(j).value.value);
    } else {
      CollectComplete(upd, n - 1, j);
      var k :| 0 <= k < |us| && us[k] == (j, upd(j).value.value);
      if upd(n - 1).value.Some? {
        var us': seq<(nat, nat)> := us + [(n - 1, upd(n - 1).value.value)];
        assert Collect(upd, n) == Ok(us');
        assert us'[k] == us[k];
      } else {
        assert Collect(upd, n) == Ok(us);
      }
    }
  }

  /** Applying pairs with increasing indices: a named player takes its pair's colour, the others keep theirs. */
  lemma {:induction false} ApplyListAt(players: seq<LPlayer>, us: seq<(nat, nat)>, j: nat)
    requires j < |players|
    requires forall a, b :: 0 <= a < b < |us| ==> us[a].0 < us[b].0
    ensures forall k :: 0 <= k < |us| && us[k].0 == j ==> ApplyList(players, us)[j] == players[j].(color := us[k].1)
    ensures (forall k :: 0 <= k < |us| ==> us[k].0 != j) ==> ApplyList(players, us)[j] == players[j]
    decreases |us|
  {
    if us != [] {
      var init := us[..|us| - 1];
      assert forall k :: 0 <= k < |init| ==> init[k] == us[k];
      ApplyListAt(players, init, j);
    }
  }

  /**
   * What `spread_contagion()` leaves: each player holds the colour its
   * update names, or its own when it has none.
   */
  lemma RecoloredMeaning(players: seq<LPlayer>, hierarchy: seq<int>, d: int, j: nat)
    requires j < |players| && Recolored(players, hierarchy, d).Ok?
    ensures ContagionUpdate(players, hierarchy, j, d).Ok?
    ensures Recolored(players, hierarchy, d).value[j] ==
      match ContagionUpdate(players, hierarchy, j, d)
        case Ok(Some(c)) => players[j].(color := c)
        case _ => players[j]
  {
    var upd := Contagion(players, hierarchy, d);
    CollectSound(upd, |players|);
    var us := Collect(upd, |players|).value;
    ApplyListAt(players, us, j);
    assert upd(j) == ContagionUpdate(players, hierarchy, j, d);
    if upd(j).value.Some? {
      CollectComplete(upd, |players|, j);
    } else {
      assert forall k :: 0 <= k < |us| ==> us[k].0 != j;
    }
  }
}
