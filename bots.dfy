/**
 * The decision helpers of the Griduniverse bots (dlgr/griduniverse/bots.py):
 * reading compass paths as arrow keys, predicting the bot's own move, the
 * two ways of choosing food targets, the spread of the players, and the
 * state a high-performance bot keeps from the messages it receives.
 * Distances to food are inputs: the bots obtain them from `find_path_astar`.
 */
module Bots {
  import opened Base
  import MazeUtils

  /** The Selenium keys a bot presses. */
  datatype Key = Up | Down | Left | Right | Space | Letter(c: char)

  predicate IsArrow(k: Key) {
    k.Up? || k.Down? || k.Left? || k.Right?
  }

  // ---------------------------------------------------------------------
  // Directions and moves

  /** The `lookup.get` of `translate_directions`: compass letters to arrow keys. */
  function DirectionKey(d: char): Option<Key> {
    if d == 'N' then Some(Up)
    else if d == 'S' then Some(Down)
    else if d == 'E' then Some(Right)
    else if d == 'W' then Some(Left)
    else None
  }

  /** The compass letter of an arrow key. */
  function KeyDirection(k: Key): Option<char> {
    match k
      case Up => Some('N')
      case Down => Some('S')
      case Right => Some('E')
      case Left => Some('W')
      case _ => None
  }

  /**
   * `translate_directions(directions)`: one entry per letter, `None` for a
   * letter that is not a compass direction; each key reads back as its letter.
   */
  function TranslateDirections(directions: string): (keys: seq<Option<Key>>)
    ensures |keys| == |directions|
    ensures forall i :: 0 <= i < |keys| ==>
      (keys[i].Some? <==> directions[i] in MazeUtils.Directions) &&
      (keys[i].Some? ==> IsArrow(keys[i].value) && KeyDirection(keys[i].value) == Some(directions[i]))
  {
    seq(|directions|, i requires 0 <= i < |directions| => DirectionKey(directions[i]))
  }

  /** The cell the bot expects to reach by pressing `k` (`UP` decreases the row). */
  function KeyMove(p: Pos, k: Key): Pos {
    match k
      case Up => Pos(p.row - 1, p.col)
      case Down => Pos(p.row + 1, p.col)
      case Left => Pos(p.row, p.col - 1)
      case Right => Pos(p.row, p.col + 1)
      case _ => p
  }

  /** Pressing the key a path letter translates to takes the step of that letter in the maze. */
  lemma TranslatedStep(p: Pos, d: char)
    requires d in MazeUtils.Directions
    ensures DirectionKey(d).Some? && KeyMove(p, DirectionKey(d).value) == MazeUtils.Step(p, d)
  {
  }

  /** Following the keys of a translated path visits the cells the path letters name. */
  function KeyWalk(p: Pos, keys: seq<Key>): Pos
    decreases |keys|
  {
    if keys == [] then p else KeyWalk(KeyMove(p, keys[0]), keys[1..])
  }

  function LetterWalk(p: Pos, path: string): Pos
    decreases |path|
  {
    if path == [] then p else LetterWalk(MazeUtils.Step(p, path[0]), path[1..])
  }

  lemma {:induction false} TranslatedWalk(p: Pos, path: string)
    requires forall i :: 0 <= i < |path| ==> path[i] in MazeUtils.Directions
    ensures var keys := TranslateDirections(path);
      KeyWalk(p, seq(|keys|, i requires 0 <= i < |keys| => keys[i].value)) == LetterWalk(p, path)
    decreases |path|
  {
    var keys := TranslateDirections(path);
    var ks := seq(|keys|, i requires 0 <= i < |keys| => keys[i].value);
    if path != [] {
      TranslatedStep(p, path[0]);
      var rest := TranslateDirections(path[1..]);
      TranslatedWalk(MazeUtils.Step(p, path[0]), path[1..]);
      assert ks[1..] == seq(|rest|, i requires 0 <= i < |rest| => rest[i].value);
    }
  }

  // ---------------------------------------------------------------------
  // Predicting the bot's own move

  /**
   * `get_expected_position(key)` as intended: only the bot's own entry can
   * change, to the cell the key leads to, unless that cell is a wall or
   * holds a player. An unknown bot position leaves everything unchanged.
   */
  function ExpectedPositions(positions: map<int, Pos>, me: int, walls: seq<Pos>, key: Key): (r: map<int, Pos>)
    ensures me !in positions ==> r == positions
    ensures r.Keys == positions.Keys
    ensures forall id :: id in positions && id != me ==> r[id] == positions[id]
    ensures me in positions ==>
      var target := KeyMove(positions[me], key);
      r[me] == (if target in walls || target in positions.Values then positions[me] else target)
  {
    if me !in positions then positions
    else
      var own := positions[me];
      var target := KeyMove(own, key);
      var landed := if target in walls then own else target;
      positions[me := if landed in positions.Values then own else landed]
  }

  /** The prediction never puts the bot on a wall or on another player's cell unless it stays put. */
  lemma ExpectedBlocked(positions: map<int, Pos>, me: int, walls: seq<Pos>, key: Key)
    requires me in positions
    ensures var r := ExpectedPositions(positions, me, walls, key);
      r[me] == positions[me] || (r[me] !in walls && forall id :: id in positions ==> positions[id] != r[me])
  {
    var r := ExpectedPositions(positions, me, walls, key);
    if r[me] != positions[me] {
      forall id | id in positions ensures positions[id] != r[me] {
        assert positions[id] in positions.Values;
      }
    }
  }

  /**
   * A Python pair: the JSON state gives `[row, col]` lists, the bot builds
   * `(row, col)` tuples and the walls are tuples. A list never equals a tuple.
   */
  datatype PyPair = ListPair(row: int, col: int) | TuplePair(row: int, col: int)

  /** The tuple `get_expected_position` builds for an arrow key; any other key leaves the position as it was read. */
  function TupleStep(own: PyPair, key: Key): PyPair {
    match key
      case Up => TuplePair(own.row - 1, own.col)
      case Down => TuplePair(own.row + 1, own.col)
      case Left => TuplePair(own.row, own.col - 1)
      case Right => TuplePair(own.row, own.col + 1)
      case _ => own
  }

  /**
   * `get_expected_position(key)` as written, with Python's list/tuple
   * distinction: the bot stays where it is when the target is in the walls
   * or among the player positions, compared as Python compares them.
   */
  function ExpectedPositionsAsWritten(positions: map<int, PyPair>, me: int, walls: seq<PyPair>, key: Key): (r: map<int, PyPair>)
    ensures me !in positions ==> r == positions
    ensures r.Keys == positions.Keys
    ensures forall id :: id in positions && id != me ==> r[id] == positions[id]
    ensures me in positions ==>
      var target := TupleStep(positions[me], key);
      r[me] == (if target in walls || target in positions.Values then positions[me] else target)
  {
    if me !in positions then positions
    else
      var own := positions[me];
      var target := TupleStep(own, key);
      var landed := if target in walls then own else target;
      assert own in positions.Values;
      positions[me := if landed in positions.Values then own else landed]
  }

  /**
   * When every player position is a list, as the JSON state delivers them,
   * an arrow key's prediction is blocked by walls alone: the check against
   * the other players never fires.
   */
  lemma ExpectedIgnoresAllPlayers(positions: map<int, PyPair>, me: int, walls: seq<PyPair>, key: Key)
    requires me in positions && IsArrow(key)
    requires forall v :: v in positions.Values ==> v.ListPair?
    ensures var target := TupleStep(positions[me], key);
      ExpectedPositionsAsWritten(positions, me, walls, key)[me] == (if target in walls then positions[me] else target)
  {
    var target := TupleStep(positions[me], key);
    assert target.TuplePair?;
  }

  /**
   * With the positions read from JSON, the player check never fires: bot 1
   * at `[5, 5]` pressing UP is predicted at `(4, 5)`, where player 2 stands,
   * while the intended prediction keeps it at `(5, 5)`.
   */
  lemma ExpectedIgnoresPlayers()
    ensures var positions := map[1 := ListPair(5, 5), 2 := ListPair(4, 5)];
      var r := ExpectedPositionsAsWritten(positions, 1, [], Up);
      r[1] == TuplePair(4, 5) && r[1].row == positions[2].row && r[1].col == positions[2].col
    ensures ExpectedPositions(map[1 := Pos(5, 5), 2 := Pos(4, 5)], 1, [], Up)[1] == Pos(5, 5)
  {
    var positions := map[1 := ListPair(5, 5), 2 := ListPair(4, 5)];
    assert TuplePair(4, 5) !in positions.Values by {
      forall v | v in positions.Values ensures v.ListPair? {
        var k :| k in positions && positions[k] == v;
      }
    }
    var ps := map[1 := Pos(5, 5), 2 := Pos(4, 5)];
    assert Pos(4, 5) in ps.Values by {
      assert ps[2] == Pos(4, 5);
    }
  }

  // ---------------------------------------------------------------------
  // FoodSeekingBot

  /** `100e10`, the starting best distance. */
  const FarAway: int := 1_000_000_000_000

  /** `distance and distance < best`: a reachable food at a non-zero distance below `100e10`. */
  predicate Usable(d: Option<nat>) {
    d.Some? && d.value != 0 && d.value < FarAway
  }

  /** The first usable distance that no usable distance undercuts. */
  ghost predicate IsNearest(dists: seq<Option<nat>>, j: nat) {
    j < |dists| && Usable(dists[j]) &&
    (forall k :: 0 <= k < |dists| && Usable(dists[k]) ==> dists[j].value <= dists[k].value) &&
    (forall k :: 0 <= k < j && Usable(dists[k]) ==> dists[k].value > dists[j].value)
  }

  /**
   * `FoodSeekingBot.get_logical_targets()`: `dists[j]` is the distance the
   * bot computed to the `j`-th ripe food, `None` when unreachable. The bot
   * is mapped to the index of the nearest food, skipping distance 0, or to
   * `None`; nothing is returned when its own position is unknown.
   */
  method FoodTarget(me: int, known: bool, dists: seq<Option<nat>>) returns (r: map<int, Option<nat>>)
    ensures !known ==> r == map[]
    ensures known ==> r.Keys == {me}
    ensures known ==> (r[me].None? <==> forall k :: 0 <= k < |dists| ==> !Usable(dists[k]))
    ensures known && r[me].Some? ==> IsNearest(dists, r[me].value)
  {
    if !known {
      return map[];
    }
    var best: int := FarAway;
    var choice: Option<nat> := None;
    for j := 0 to |dists|
      invariant choice.None? <==> forall k :: 0 <= k < j ==> !Usable(dists[k])
      invariant choice.None? ==> best == FarAway
      invariant choice.Some? ==> IsNearest(dists[..j], choice.value) && best == dists[choice.value].value
    {
      var d := dists[j];
      if d.Some? && d.value != 0 && d.value < best {
        best, choice := d.value, Some(j);
      }
    }
    assert dists[..|dists|] == dists;
    r := map[me := choice];
  }

  // ---------------------------------------------------------------------
  // AdvantageSeekingBot

  /** One `(player, food) -> distance` entry of `best_choices`. */
  datatype Pairing = Pairing(player: int, food: nat, distance: nat)

  /** The reachable pairs of one player's row of `distances()`, in food order. */
  function RowPairs(player: int, dists: seq<Option<nat>>): (ps: seq<Pairing>)
    decreases |dists|
  {
    if dists == [] then []
    else
      var last := match dists[|dists| - 1] case None => [] case Some(d) => [Pairing(player, |dists| - 1, d)];
      RowPairs(player, dists[..|dists| - 1]) + last
  }

  /** `best_choices` in insertion order: every reachable pair, players in dict order. */
  function Reachable(distances: seq<(int, seq<Option<nat>>)>): seq<Pairing>
    decreases |distances|
  {
    if distances == [] then []
    else Reachable(distances[..|distances| - 1]) + RowPairs(distances[|distances| - 1].0, distances[|distances| - 1].1)
  }

  lemma {:induction false} RowPairsMembers(player: int, dists: seq<Option<nat>>, x: Pairing)
    ensures x in RowPairs(player, dists) <==> x.player == player && x.food < |dists| && dists[x.food] == Some(x.distance)
    decreases |dists|
  {
    if dists != [] {
      RowPairsMembers(player, dists[..|dists| - 1], x);
    }
  }

  /** Row `i` of `distances()` is player `x.player`'s and gives food `x.food` the distance `x.distance`. */
  ghost predicate KnownAt(distances: seq<(int, seq<Option<nat>>)>, i: int, x: Pairing) {
    0 <= i < |distances| && distances[i].0 == x.player &&
    x.food < |distances[i].1| && distances[i].1[x.food] == Some(x.distance)
  }

  /** A pair is in `best_choices` exactly when its distance is known. */
  lemma {:induction false} ReachableMembers(distances: seq<(int, seq<Option<nat>>)>, x: Pairing)
    ensures x in Reachable(distances) <==> exists i :: KnownAt(distances, i, x)
    decreases |distances|
  {
    if distances != [] {
      var n := |distances| - 1;
      var init := distances[..n];
      var row := RowPairs(distances[n].0, distances[n].1);
      ReachableMembers(init, x);
      RowPairsMembers(distances[n].0, distances[n].1, x);
      assert Reachable(distances) == Reachable(init) + row;
      assert x in Reachable(distances) <==> x in Reachable(init) || x in row;
      if exists i :: KnownAt(distances, i, x) {
        var i :| KnownAt(distances, i, x);
        if i < n {
          assert init[i] == distances[i];
          assert KnownAt(init, i, x);
        }
      }
      if x in Reachable(init) {
        var i :| KnownAt(init, i, x);
        assert init[i] == distances[i];
        assert KnownAt(distances, i, x);
      }
      if x in row {
        assert KnownAt(distances, n, x);
      }
    }
  }

  /** The loops of `get_logical_targets` that fill `best_choices`, skipping `None`. */
  method CollectPairs(distances: seq<(int, seq<Option<nat>>)>) returns (pairs: seq<Pairing>)
    ensures pairs == Reachable(distances)
  {
    pairs := [];
    for i := 0 to |distances|
      invariant pairs == Reachable(distances[..i])
    {
      assert distances[..i + 1][..i] == distances[..i];
      var player, dists := distances[i].0, distances[i].1;
      for j := 0 to |dists|
        invariant pairs == Reachable(distances[..i]) + RowPairs(player, dists[..j])
      {
        assert dists[..j + 1][..j] == dists[..j];
        if dists[j].Some? {
          pairs := pairs + [Pairing(player, j, dists[j].value)];
        }
      }
      assert dists[..|dists|] == dists;
    }
    assert distances[..|distances|] == distances;
  }

  ghost predicate SortedByDistance(s: seq<Pairing>) {
    forall i, j :: 0 <= i < j < |s| ==> s[i].distance <= s[j].distance
  }

  /** Puts `x` after every element not farther than it. */
  function Insert(x: Pairing, s: seq<Pairing>): seq<Pairing>
    decreases |s|
  {
    if s == [] then [x]
    else if x.distance < s[0].distance then [x] + s
    else [s[0]] + Insert(x, s[1..])
  }

  /** `sorted(..., key=distance)`: a stable insertion sort. */
  function SortByDistance(s: seq<Pairing>): seq<Pairing>
    decreases |s|
  {
    if s == [] then [] else Insert(s[|s| - 1], SortByDistance(s[..|s| - 1]))
  }

  lemma {:induction false} InsertKeeps(x: Pairing, s: seq<Pairing>)
    ensures multiset(Insert(x, s)) == multiset(s) + multiset{x}
    decreases |s|
  {
    if s != [] && x.distance >= s[0].distance {
      InsertKeeps(x, s[1..]);
      assert s == [s[0]] + s[1..];
    }
  }

  lemma {:induction false} InsertFacts(x: Pairing, s: seq<Pairing>)
    requires SortedByDistance(s)
    ensures SortedByDistance(Insert(x, s)) && multiset(Insert(x, s)) == multiset(s) + multiset{x}
    decreases |s|
  {
    InsertKeeps(x, s);
    if s != [] && x.distance >= s[0].distance {
      InsertFacts(x, s[1..]);
      var t := Insert(x, s[1..]);
      forall k | 0 <= k < |t| ensures s[0].distance <= t[k].distance {
        assert t[k] in multiset(t);
        if t[k] != x {
          assert t[k] in multiset(s[1..]);
          var m :| 0 <= m < |s[1..]| && s[1..][m] == t[k];
          assert s[m + 1] == t[k];
        }
      }
      assert Insert(x, s) == [s[0]] + t;
    }
  }

  /** The sort orders by distance and keeps every pair. */
  lemma {:induction false} SortFacts(s: seq<Pairing>)
    ensures SortedByDistance(SortByDistance(s)) && multiset(SortByDistance(s)) == multiset(s)
    decreases |s|
  {
    if s != [] {
      var init := s[..|s| - 1];
      SortFacts(init);
      InsertFacts(s[|s| - 1], SortByDistance(init));
      assert s == init + [s[|s| - 1]];
    }
  }

  predicate Assigned(choices: map<int, nat>, x: Pairing) {
    x.player in choices && choices[x.player] == x.food
  }

  /** Some assignment among the first `n + 1` pairs shares a player or a food with pair `i`. */
  ghost predicate Blocked(choices: map<int, nat>, s: seq<Pairing>, i: nat, n: nat)
    requires i < |s| && n < |s|
  {
    exists k :: 0 <= k <= n && Assigned(choices, s[k]) && (s[k].player == s[i].player || s[k].food == s[i].food)
  }

  /**
   * The greedy loop of `get_logical_targets` over the sorted pairs: a pair
   * is taken unless its player or its food was already taken. No food is
   * taken twice, every pair taken is on the list, and every pair on the
   * list is taken or blocked by a pair taken before it.
   */
  method Greedy(sorted: seq<Pairing>) returns (choices: map<int, nat>)
    ensures forall p :: p in choices ==> exists i :: 0 <= i < |sorted| && sorted[i].player == p && sorted[i].food == choices[p]
    ensures forall p, q :: p in choices && q in choices && p != q ==> choices[p] != choices[q]
    ensures forall i :: 0 <= i < |sorted| ==> Blocked(choices, sorted, i, i)
  {
    var seenPlayers: set<int> := {};
    var seenFood: set<nat> := {};
    choices := map[];
    for n := 0 to |sorted|
      invariant seenPlayers == choices.Keys
      invariant forall f :: f in seenFood <==> exists p :: p in choices && choices[p] == f
      invariant forall p :: p in choices ==> exists i :: 0 <= i < n && sorted[i].player == p && sorted[i].food == choices[p]
      invariant forall p, q :: p in choices && q in choices && p != q ==> choices[p] != choices[q]
      invariant forall i :: 0 <= i < n ==> Blocked(choices, sorted, i, i)
    {
      var x := sorted[n];
      if x.player in seenPlayers || x.food in seenFood {
        BlockedNow(choices, sorted, n);
        continue;
      }
      ghost var before := choices;
      seenPlayers := seenPlayers + {x.player};
      seenFood := seenFood + {x.food};
      choices := choices[x.player := x.food];
      KeepBlocked(before, choices, sorted, n);
      assert Assigned(choices, sorted[n]);
    }
  }

  /** A pair whose player or food is taken is blocked by the pair that took it. */
  lemma BlockedNow(choices: map<int, nat>, sorted: seq<Pairing>, n: nat)
    requires n < |sorted|
    requires forall p :: p in choices ==> exists i :: 0 <= i < n && sorted[i].player == p && sorted[i].food == choices[p]
    requires sorted[n].player in choices || exists p :: p in choices && choices[p] == sorted[n].food
    ensures Blocked(choices, sorted, n, n)
  {
    var x := sorted[n];
    if x.player in choices {
      var i :| 0 <= i < n && sorted[i].player == x.player && sorted[i].food == choices[x.player];
      assert Assigned(choices, sorted[i]);
    } else {
      var p :| p in choices && choices[p] == x.food;
      var i :| 0 <= i < n && sorted[i].player == p && sorted[i].food == choices[p];
      assert Assigned(choices, sorted[i]);
    }
  }

  /** Taking a new pair keeps every earlier assignment, so earlier blocks stay. */
  lemma KeepBlocked(before: map<int, nat>, after: map<int, nat>, sorted: seq<Pairing>, n: nat)
    requires n < |sorted| && sorted[n].player !in before
    requires after == before[sorted[n].player := sorted[n].food]
    requires forall i :: 0 <= i < n ==> Blocked(before, sorted, i, i)
    ensures forall i :: 0 <= i < n ==> Blocked(after, sorted, i, i)
  {
    forall i | 0 <= i < n ensures Blocked(after, sorted, i, i) {
      assert Blocked(before, sorted, i, i);
      var k :| 0 <= k <= i && Assigned(before, sorted[k]) && (sorted[k].player == sorted[i].player || sorted[k].food == sorted[i].food);
      assert Assigned(after, sorted[k]);
    }
  }

  /**
   * `AdvantageSeekingBot.get_logical_targets()`, `distances[i]` being player
   * `distances[i].0`'s row of `distances()`. Every player is matched to a
   * food it can reach, no food twice, and every reachable pair is matched
   * or loses to a matched pair, no farther, that shares its player or its
   * food; so a nearest pair is always matched.
   */
  method LogicalTargets(distances: seq<(int, seq<Option<nat>>)>) returns (choices: map<int, nat>)
    ensures forall p :: p in choices ==> exists d :: Pairing(p, choices[p], d) in Reachable(distances)
    ensures forall p, q :: p in choices && q in choices && p != q ==> choices[p] != choices[q]
    ensures forall x :: x in Reachable(distances) ==>
      exists y :: y in Reachable(distances) && Assigned(choices, y) && y.distance <= x.distance &&
        (y.player == x.player || y.food == x.food)
  {
    var pairs := CollectPairs(distances);
    var sorted := SortByDistance(pairs);
    SortFacts(pairs);
    choices := Greedy(sorted);
    GreedyOnPairs(pairs, sorted, choices);
  }

  /** What `Greedy` promises about the sorted pairs, read back on the unsorted ones. */
  lemma GreedyOnPairs(pairs: seq<Pairing>, sorted: seq<Pairing>, choices: map<int, nat>)
    requires SortedByDistance(sorted) && multiset(sorted) == multiset(pairs)
    requires forall p :: p in choices ==> exists i :: 0 <= i < |sorted| && sorted[i].player == p && sorted[i].food == choices[p]
    requires forall i :: 0 <= i < |sorted| ==> Blocked(choices, sorted, i, i)
    ensures forall p :: p in choices ==> exists d :: Pairing(p, choices[p], d) in pairs
    ensures forall x :: x in pairs ==>
      exists y :: y in pairs && Assigned(choices, y) && y.distance <= x.distance && (y.player == x.player || y.food == x.food)
  {
    forall p | p in choices ensures exists d :: Pairing(p, choices[p], d) in pairs {
      var i :| 0 <= i < |sorted| && sorted[i].player == p && sorted[i].food == choices[p];
      assert sorted[i] in multiset(pairs);
      assert sorted[i] == Pairing(p, choices[p], sorted[i].distance);
    }
    forall x | x in pairs
      ensures exists y :: y in pairs && Assigned(choices, y) && y.distance <= x.distance && (y.player == x.player || y.food == x.food)
    {
      assert x in multiset(sorted);
      var i :| 0 <= i < |sorted| && sorted[i] == x;
      assert Blocked(choices, sorted, i, i);
      var k :| 0 <= k <= i && Assigned(choices, sorted[k]) && (sorted[k].player == sorted[i].player || sorted[k].food == sorted[i].food);
      assert sorted[k] in multiset(pairs);
    }
  }

  // ---------------------------------------------------------------------
  // Player spread

  /** The distances from `p` to each position of `ps`, summed. */
  function DistSum(ps: seq<Pos>, p: Pos): nat
    decreases |ps|
  {
    if ps == [] then 0 else DistSum(ps[..|ps| - 1], p) + Manhattan(ps[|ps| - 1], p)
  }

  /** `sum(starmap(manhattan_distance, combinations(positions, 2)))`. */
  function PairSum(ps: seq<Pos>): nat
    decreases |ps|
  {
    if ps == [] then 0 else PairSum(ps[..|ps| - 1]) + DistSum(ps[..|ps| - 1], ps[|ps| - 1])
  }

  /** `get_player_spread(positions)`: the mean distance over all pairs of players, 0 with fewer than two. */
  function PlayerSpread(ps: seq<Pos>): (spread: real)
    ensures spread >= 0.0
  {
    if |ps| < 2 then 0.0 else PairSum(ps) as real / ((|ps| * (|ps| - 1) / 2) as real)
  }

  lemma {:induction false} DistSumZero(ps: seq<Pos>, p: Pos)
    ensures DistSum(ps, p) == 0 <==> forall i :: 0 <= i < |ps| ==> ps[i] == p
    decreases |ps|
  {
    if ps != [] {
      var init := ps[..|ps| - 1];
      DistSumZero(init, p);
      assert forall i :: 0 <= i < |init| ==> init[i] == ps[i];
    }
  }

  lemma {:induction false} PairSumZero(ps: seq<Pos>)
    ensures PairSum(ps) == 0 <==> forall i, j :: 0 <= i < |ps| && 0 <= j < |ps| ==> ps[i] == ps[j]
    decreases |ps|
  {
    if ps != [] {
      var n := |ps| - 1;
      var init := ps[..n];
      PairSumZero(init);
      DistSumZero(init, ps[n]);
      assert forall i :: 0 <= i < n ==> init[i] == ps[i];
      if PairSum(ps) == 0 {
        forall i, j | 0 <= i < |ps| && 0 <= j < |ps| ensures ps[i] == ps[j] {
          if i < n && j < n {
            assert init[i] == init[j];
          }
        }
      }
    }
  }

  /** The players are spread out exactly when two of them stand on different cells. */
  lemma SpreadZero(ps: seq<Pos>)
    requires |ps| >= 2
    ensures PlayerSpread(ps) == 0.0 <==> forall i, j :: 0 <= i < |ps| && 0 <= j < |ps| ==> ps[i] == ps[j]
  {
    PairSumZero(ps);
    var pairs := |ps| * (|ps| - 1) / 2;
    assert pairs >= 1 by {
      assert |ps| * (|ps| - 1) >= 2;
    }
    QuotientZero(PairSum(ps), pairs);
  }

  /** A count divided by a positive count is zero exactly when the count is. */
  lemma QuotientZero(x: nat, d: nat)
    requires d >= 1
    ensures x as real / d as real == 0.0 <==> x == 0
  {
    if x > 0 {
      assert x as real / d as real > 0.0;
    }
  }

  /** Two players are spread by their distance. */
  lemma SpreadTwo(a: Pos, b: Pos)
    ensures PlayerSpread([a, b]) == Manhattan(a, b) as real
  {
    assert [a, b][..1] == [a];
    assert [a][..0] == [];
    assert DistSum([a], b) == Manhattan(a, b);
    assert PairSum([a]) == 0;
    assert PairSum([a, b]) == Manhattan(a, b);
    assert |[a, b]| * (|[a, b]| - 1) / 2 == 1;
    assert PlayerSpread([a, b]) == PairSum([a, b]) as real / 1.0;
  }

  // ---------------------------------------------------------------------
  // A high-performance bot's state

  /** The JSON values of the game's messages. */
  datatype Json = JNull | JBool(b: bool) | JNum(x: real) | JStr(s: string) | JList(items: seq<Json>) | JObj(fields: map<string, Json>)

  /** The fields of `grid["grid"]`, empty before the first state message. */
  function GridFields(grid: map<string, Json>): map<string, Json> {
    if "grid" in grid && grid["grid"].JObj? then grid["grid"].fields else map[]
  }

  /**
   * `handle_state(data)` on `self.grid`; `decoded` is `json.loads(data["grid"])`.
   * The grid fields are merged, not replaced, so a field absent from the
   * update (walls, food) keeps its value; the other keys of `data` overwrite
   * their values.
   */
  function MergeState(grid: map<string, Json>, data: map<string, Json>, decoded: map<string, Json>): (r: map<string, Json>)
    ensures forall k :: k != "grid" ==> (k in r <==> k in grid || k in data)
    ensures forall k :: k != "grid" && k in data ==> r[k] == data[k]
    ensures forall k :: k != "grid" && k in grid && k !in data ==> r[k] == grid[k]
    ensures "grid" in data ==> (
      "grid" in r && r["grid"].JObj? &&
      (forall k :: k in r["grid"].fields <==> k in GridFields(grid) || k in decoded) &&
      (forall k :: k in decoded ==> r["grid"].fields[k] == decoded[k]) &&
      (forall k :: k in GridFields(grid) && k !in decoded ==> r["grid"].fields[k] == GridFields(grid)[k]))
    ensures "grid" !in data ==> ("grid" in r <==> "grid" in grid) && ("grid" in grid ==> r["grid"] == grid["grid"])
  {
    if "grid" in data then grid + data["grid" := JObj(GridFields(grid) + decoded)]
    else grid + data
  }

  /** A `move` message, as the browser would send it. */
  datatype MoveMessage = MoveMessage(playerId: int, move: string)

  /** The message `send_next_key` publishes for `key`, if any. */
  function MoveFor(key: Key, playerId: int): (m: Option<MoveMessage>)
    ensures m.Some? <==> IsArrow(key)
    ensures m.Some? ==> m.value.playerId == playerId && KeyOfMove(m.value.move) == Some(key)
  {
    match key
      case Up => Some(MoveMessage(playerId, "up"))
      case Down => Some(MoveMessage(playerId, "down"))
      case Left => Some(MoveMessage(playerId, "left"))
      case Right => Some(MoveMessage(playerId, "right"))
      case _ => None
  }

  /** How the game reads the `move` field of a message back as a key. */
  function KeyOfMove(move: string): Option<Key> {
    if move == "up" then Some(Up)
    else if move == "down" then Some(Down)
    else if move == "left" then Some(Left)
    else if move == "right" then Some(Right)
    else None
  }

  /** `HighPerformanceBaseGridUniverseBot`: the state it keeps from the server's messages. */
  class GridBot {
    const participantId: int
    var grid: map<string, Json>
    var quorumReached: bool
    var skipExperiment: bool
    /** The messages handed to `publish`, oldest first. */
    var published: seq<MoveMessage>

    /** `self.grid["grid"]`, once present, is a dict. */
    ghost predicate Valid()
      reads this
    {
      "grid" in grid ==> grid["grid"].JObj?
    }

    /** After `wait_for_grid` has reset `self.grid`. */
    constructor (participantId: int)
      ensures Valid()
      ensures this.participantId == participantId && grid == map[] && !quorumReached && !skipExperiment && published == []
    {
      this.participantId := participantId;
      grid := map[];
      quorumReached := false;
      skipExperiment := false;
      published := [];
    }

    /** `handle_state(data)` */
    method HandleState(data: map<string, Json>, decoded: map<string, Json>)
      requires Valid()
      modifies this
      ensures Valid()
      ensures grid == MergeState(old(grid), data, decoded)
      ensures quorumReached == old(quorumReached) && skipExperiment == old(skipExperiment) && published == old(published)
    {
      grid := MergeState(grid, data, decoded);
    }

    /** `handle_stop(data)`: the remaining time drops to zero. */
    method HandleStop()
      requires Valid()
      modifies this
      ensures Valid()
      ensures grid == old(grid)["remaining_time" := JNum(0.0)]
      ensures quorumReached == old(quorumReached) && skipExperiment == old(skipExperiment) && published == old(published)
    {
      grid := grid["remaining_time" := JNum(0.0)];
    }

    /** `handle_quorum(data)`: `KeyError` when `q` is present without `n`. */
    method HandleQuorum(data: map<string, Json>) returns (err: Option<string>)
      modifies this
      ensures err.Some? <==> "q" in data && "n" !in data
      ensures err.Some? ==> err.value == "KeyError"
      ensures quorumReached == (old(quorumReached) || ("q" in data && "n" in data && data["q"] == data["n"]))
      ensures grid == old(grid) && skipExperiment == old(skipExperiment) && published == old(published)
    {
      err := None;
      if "q" in data {
        if "n" !in data {
          return Some("KeyError");
        }
        if data["q"] == data["n"] {
          quorumReached := true;
        }
      }
    }

    /** `on_signup(data)`: the quorum and the participant's status from the signup response. */
    method OnSignup(quorumN: int, quorumQ: int, status: string)
      modifies this
      ensures quorumReached == (old(quorumReached) || quorumN == quorumQ)
      ensures skipExperiment == (old(skipExperiment) || status == "overrecruited")
      ensures grid == old(grid) && published == old(published)
    {
      if quorumN == quorumQ {
        quorumReached := true;
      }
      if status == "overrecruited" {
        skipExperiment := true;
      }
    }

    /** `send_next_key()`, `key` being what `get_next_key()` chose. */
    method SendNextKey(key: Key)
      modifies this
      ensures published == old(published) + (if IsArrow(key) then [MoveFor(key, participantId).value] else [])
      ensures grid == old(grid) && quorumReached == old(quorumReached) && skipExperiment == old(skipExperiment)
    {
      var message := MoveFor(key, participantId);
      if message.Some? {
        published := published + [message.value];
      }
    }
  }

  /** `is_still_on_grid`: more than a quarter second left; `TypeError` for a non-number. */
  function IsStillOnGrid(grid: map<string, Json>): (r: Result<bool>)
    ensures "remaining_time" !in grid ==> r == Ok(false)
    ensures "remaining_time" in grid && grid["remaining_time"].JNum? ==> r == Ok(grid["remaining_time"].x > 0.25)
  {
    if "remaining_time" !in grid then Ok(false)
    else match grid["remaining_time"]
      case JNum(x) => Ok(x > 0.25)
      case JBool(b) => Ok(b)
      case _ => Err("TypeError")
  }
}
