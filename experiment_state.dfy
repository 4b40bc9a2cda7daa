/**
 * `Gridworld.serialize` and `Gridworld.deserialize` (experiment.py): the
 * grid's state dictionary and the way the grid is rebuilt from one. The
 * `walls` and `items` keys are absent, not empty, when not included, and
 * `deserialize` then keeps the grid's own walls and items. Rebuilding
 * happens entry by entry, so an error part-way leaves what was rebuilt
 * so far in place.
 */
module ExperimentState {
  import opened Base
  import opened Dicts
  import opened ExperimentItem
  import opened ExperimentPlayer
  import opened ExperimentWorld
  import Maze

  function MapSeq<A, B>(s: seq<A>, f: A -> B): (r: seq<B>)
    ensures |r| == |s| && forall j :: 0 <= j < |s| ==> r[j] == f(s[j])
  {
    seq(|s|, j requires 0 <= j < |s| => f(s[j]))
  }

  /** A dictionary with `f` applied to every value, in the same order. */
  function MapValues<K, V, W>(d: Dict<K, V>, f: V -> W): (r: Dict<K, W>)
    ensures r.order == d.order && r.entries.Keys == d.entries.Keys
    ensures forall k :: k in r.entries ==> r.entries[k] == f(d.entries[k])
  {
    var m := map k | k in d.entries :: f(d.entries[k]);
    assert m.Keys == d.entries.Keys;
    RawDict(d.order, m)
  }

  /** `for v in vs: d[key(v)] = v`, starting from an empty dictionary. */
  function Insert<K, V>(vs: seq<V>, key: V -> K): Dict<K, V> {
    if vs == [] then Empty() else Set(Insert(vs[..|vs| - 1], key), key(vs[|vs| - 1]), vs[|vs| - 1])
  }

  /**
   * Building a value from each state in turn: the values built before the
   * first error, and that error. `build` also gets the entry's index.
   */
  function Built<S, V>(states: seq<S>, build: (S, nat) -> Result<V>): (r: (seq<V>, Option<string>))
    ensures |r.0| <= |states|
    ensures r.1.None? ==> |r.0| == |states|
  {
    if states == [] then ([], None)
    else
      var prev := Built(states[..|states| - 1], build);
      if prev.1.Some? then prev
      else match build(states[|states| - 1], |states| - 1)
        case Err(e) => (prev.0, Some(e))
        case Ok(v) => (prev.0 + [v], None)
  }

  /** When every entry builds, nothing fails and the values come out in order. */
  lemma {:induction false} BuiltAll<S, V>(states: seq<S>, build: (S, nat) -> Result<V>, g: seq<V>)
    requires |g| == |states|
    requires forall j :: 0 <= j < |states| ==> build(states[j], j) == Ok(g[j])
    ensures Built(states, build) == (g, None)
  {
    if states != [] {
      var n := |states| - 1;
      BuiltAll(states[..n], build, g[..n]);
      assert build(states[n], n) == Ok(g[n]);
      assert g[..n] + [g[n]] == g;
    }
  }

  /** Inserting the values of `e`, in its order and under their own keys, rebuilds `e`'s order. */
  lemma {:induction false} InsertOrder<K, V>(vs: seq<V>, key: V -> K, e: Dict<K, V>, n: nat)
    requires n <= |e.order| && |vs| == n
    requires forall j :: 0 <= j < n ==> key(vs[j]) == e.order[j]
    ensures Insert(vs, key).order == e.order[..n]
  {
    if n > 0 {
      var m := n - 1;
      InsertOrder(vs[..m], key, e, m);
      var prev := Insert(vs[..m], key);
      assert key(vs[m]) == e.order[m];
      assert e.order[m] !in prev.entries by {
        InOrder(prev, e.order[m]);
        Wf(e);
        assert forall j :: 0 <= j < m ==> e.order[..m][j] == e.order[j];
      }
      assert e.order[..m] + [e.order[m]] == e.order[..n];
    }
  }

  /** ... and each key's value. */
  lemma {:induction false} InsertEntries<K, V>(vs: seq<V>, key: V -> K, e: Dict<K, V>, n: nat)
    requires n <= |e.order| && |vs| == n
    requires forall j :: 0 <= j < n ==> key(vs[j]) == e.order[j] && e.order[j] in e.entries && vs[j] == e.entries[e.order[j]]
    ensures forall k :: k in Insert(vs, key).entries ==> k in e.entries && Insert(vs, key).entries[k] == e.entries[k]
  {
    if n > 0 {
      InsertEntries(vs[..n - 1], key, e, n - 1);
    }
  }

  /** With every key inserted, the result is `e` itself. */
  lemma InsertAll<K, V>(vs: seq<V>, key: V -> K, e: Dict<K, V>)
    requires |vs| == |e.order|
    requires forall j :: 0 <= j < |vs| ==> key(vs[j]) == e.order[j] && e.order[j] in e.entries && vs[j] == e.entries[e.order[j]]
    ensures Insert(vs, key) == e
  {
    InsertOrder(vs, key, e, |vs|);
    InsertEntries(vs, key, e, |vs|);
    var r := Insert(vs, key);
    assert e.order[..|vs|] == e.order;
    assert r.order == e.order;
    Wf(r);
    Wf(e);
    assert r.entries.Keys == e.entries.Keys;
  }

  // ---------------------------------------------------------------------
  // The state dictionary

  /**
   * The grid's state dictionary. `round` is `None` where the key is
   * absent; `walls` and `items` are `None` where they are.
   */
  datatype GridState = GridState(
    players: seq<PlayerDict>, round: Option<int>, donationActive: bool, rows: int, columns: int,
    walls: Option<seq<Maze.WallState>>, items: Option<seq<ItemState>>)

  /** `serialize(include_walls, include_items)`; items' maturities are given. */
  function Serialized(c: Config, w: World, includeWalls: bool, includeItems: bool, maturity: Item -> real): (s: GridState)
    ensures s.walls.Some? <==> includeWalls
    ensures s.items.Some? <==> includeItems
    ensures |s.players| == Size(w.players) && s.round == Some(w.round) && s.donationActive == DonationActive(c, w.round)
  {
    GridState(
      MapSeq(Values(w.players), (p: Player) => SerializePlayer(p, maturity)),
      Some(w.round), DonationActive(c, w.round), c.rows, c.columns,
      if includeWalls then Some(MapSeq(Values(w.walls), Maze.SerializeWall)) else None,
      if includeItems then Some(SerializeItems(w.items, maturity)) else None)
  }

  /** `Wall(**wall_state)`, a bare position taking the default colour. */
  function WallFromState(s: Maze.WallState): (w: Maze.Wall)
    ensures w.position == s.position
  {
    match s
      case BarePosition(p) => Maze.NewWall(p)
      case Colored(p, color) => Maze.Wall(p, color)
  }

  /** Both serialized forms of a wall read back as the wall. */
  lemma WallRoundTrip(w: Maze.Wall)
    ensures WallFromState(Maze.SerializeWall(w)) == w
  {
  }

  /**
   * `Item(item_config[state["item_id"]], **params)` for one item state:
   * `KeyError` for a missing or unknown type; absent keys take the
   * dataclass defaults, `uuid` standing for the random id and `now` for the
   * creation clock.
   */
  function ItemFromState(c: Config, s: ItemState, uuid: int, now: real): (r: Result<Item>)
    ensures r.Err? && (s.itemId.None? || s.itemId.value !in c.itemConfig.entries) ==> r == Err("KeyError")
    ensures r.Ok? ==> s.itemId.Some? && s.itemId.value in c.itemConfig.entries && r.value.config == c.itemConfig.entries[s.itemId.value] && r.value.position.Some?
  {
    if s.itemId.None? || s.itemId.value !in c.itemConfig.entries then Err("KeyError")
    else NewItem(c.itemConfig.entries[s.itemId.value], Or(s.id, uuid), Or(s.creationTimestamp, now),
                 Some(Or(s.position, Pos(0, 0))), s.remainingUses)
  }

  function PlayerBuilder(pseudonyms: nat -> string): (PlayerDict, nat) -> Result<Player> {
    (pd: PlayerDict, j: nat) => PlayerFromState(pd, pseudonyms(j))
  }

  function ItemBuilder(c: Config, uuids: nat -> int, now: real): (ItemState, nat) -> Result<Item> {
    (s: ItemState, j: nat) => ItemFromState(c, s, uuids(j), now)
  }

  function PlayerKey(p: Player): string {
    p.id
  }

  function ItemKey(it: Item): Pos {
    if it.position.Some? then it.position.value else Pos(0, 0)
  }

  function WallKey(w: Maze.Wall): Pos {
    w.position
  }

  /**
   * The grid after `deserialize(state)`, with the error raised if any. A
   * wrong size raises `ValueError` before anything changes. Then the round
   * is set (0 when absent) and the players are rebuilt; the walls and the
   * items are rebuilt only when their keys are present.
   */
  function Deserialized(c: Config, w: World, s: GridState, pseudonyms: nat -> string, uuids: nat -> int, now: real): (World, Option<string>) {
    if s.rows != c.rows || s.columns != c.columns then (w, Some("ValueError"))
    else
      var players := Built(s.players, PlayerBuilder(pseudonyms));
      var w2 := w.(round := Or(s.round, 0), players := Insert(players.0, PlayerKey));
      if players.1.Some? then (w2, players.1)
      else
        var w3 := if s.walls.Some? then w2.(walls := Insert(MapSeq(s.walls.value, WallFromState), WallKey)) else w2;
        if s.items.None? then (w3, None)
        else
          var items := Built(s.items.value, ItemBuilder(c, uuids, now));
          (w3.(items := Insert(items.0, ItemKey)), items.1)
  }

  /** Without `walls` and `items`, `deserialize` keeps the grid's own walls, items and everything but round and players. */
  lemma AbsentKeysKept(c: Config, w: World, s: GridState, pseudonyms: nat -> string, uuids: nat -> int, now: real)
    requires s.walls.None? && s.items.None?
    ensures var (r, _) := Deserialized(c, w, s, pseudonyms, uuids, now);
      r == w.(round := r.round, players := r.players)
  {
  }

  /** A state serialized without walls or items carries no such key, so reading it back keeps them. */
  lemma PartialRoundTrip(c: Config, w: World, maturity: Item -> real, pseudonyms: nat -> string, uuids: nat -> int, now: real)
    ensures var (r, _) := Deserialized(c, w, Serialized(c, w, false, false, maturity), pseudonyms, uuids, now);
      r.walls == w.walls && r.items == w.items && r.consumed == w.consumed && r.start == w.start
  {
  }

  /** A state of the wrong size is refused and changes nothing. */
  lemma WrongSizeRefused(c: Config, w: World, s: GridState, pseudonyms: nat -> string, uuids: nat -> int, now: real)
    requires s.rows != c.rows || s.columns != c.columns
    ensures Deserialized(c, w, s, pseudonyms, uuids, now) == (w, Some("ValueError"))
  {
  }

  // ---------------------------------------------------------------------
  // The round trip

  /** What a player keeps through serialization: motion cost, tremble, timestamps, wall and item reset. */
  function Reloaded(p: Player): Player {
    p.(motionCost := 0.0, motionTrembleRate := 0.0, motionTimestamp := 0.0, lastTimestamp := 0.0,
       addWall := None, currentItem := None)
  }

  /**
   * A grid a serialization can restore: players keyed by their ids with
   * agreeing colours, walls and items stored under their own positions, and
   * items of configured types with no extra attributes.
   */
  predicate Restorable(c: Config, w: World) {
    (forall k :: k in w.players.entries ==> w.players.entries[k].id == k && ColorsAgree(w.players.entries[k])) &&
    (forall p :: p in w.walls.entries ==> w.walls.entries[p].position == p) &&
    (forall p :: p in w.items.entries ==>
       w.items.entries[p].position == Some(p) && w.items.entries[p].extra == map[] && Sound(w.items.entries[p]) &&
       ItemId(w.items.entries[p]) in c.itemConfig.entries &&
       c.itemConfig.entries[ItemId(w.items.entries[p])] == w.items.entries[p].config)
  }

  /** Every serialized player state rebuilds, as the player `Reloaded`. */
  lemma PlayersRebuilt(c: Config, w: World, maturity: Item -> real, pseudonyms: nat -> string)
    requires Restorable(c, w)
    ensures Built(Serialized(c, w, true, true, maturity).players, PlayerBuilder(pseudonyms)) == (MapSeq(Values(w.players), Reloaded), None)
  {
    var vs := Values(w.players);
    var states := Serialized(c, w, true, true, maturity).players;
    var g := MapSeq(vs, Reloaded);
    forall j | 0 <= j < |states|
      ensures PlayerBuilder(pseudonyms)(states[j], j) == Ok(g[j])
    {
      var k := w.players.order[j];
      assert vs[j] == w.players.entries[k] && ColorsAgree(vs[j]);
      assert states[j] == SerializePlayer(vs[j], maturity);
      PlayerRoundTrip(vs[j], maturity, pseudonyms(j));
    }
    BuiltAll(states, PlayerBuilder(pseudonyms), g);
  }

  /** The rebuilt players are inserted under their ids, which are their old keys. */
  lemma PlayersReinserted(w: World)
    requires forall k :: k in w.players.entries ==> w.players.entries[k].id == k
    ensures Insert(MapSeq(Values(w.players), Reloaded), PlayerKey) == MapValues(w.players, Reloaded)
  {
    var vs := Values(w.players);
    var g := MapSeq(vs, Reloaded);
    var e := MapValues(w.players, Reloaded);
    forall j | 0 <= j < |g|
      ensures PlayerKey(g[j]) == e.order[j] && e.order[j] in e.entries && g[j] == e.entries[e.order[j]]
    {
      var k := w.players.order[j];
      assert vs[j] == w.players.entries[k];
    }
    InsertAll(g, PlayerKey, e);
  }

  lemma WallsRoundTrip(w: World)
    requires forall p :: p in w.walls.entries ==> w.walls.entries[p].position == p
    ensures Insert(MapSeq(MapSeq(Values(w.walls), Maze.SerializeWall), WallFromState), WallKey) == w.walls
  {
    var vs := MapSeq(MapSeq(Values(w.walls), Maze.SerializeWall), WallFromState);
    forall j | 0 <= j < |vs|
      ensures vs[j] == w.walls.entries[w.walls.order[j]]
    {
      WallRoundTrip(Values(w.walls)[j]);
    }
    InsertAll(vs, WallKey, w.walls);
  }

  lemma ItemsRoundTrip(c: Config, w: World, maturity: Item -> real, uuids: nat -> int, now: real)
    requires Restorable(c, w)
    ensures var b := Built(SerializeItems(w.items, maturity), ItemBuilder(c, uuids, now));
      b.1.None? && Insert(b.0, ItemKey) == w.items
  {
    var states := SerializeItems(w.items, maturity);
    var vs := Values(w.items);
    forall j | 0 <= j < |states|
      ensures ItemBuilder(c, uuids, now)(states[j], j) == Ok(vs[j])
    {
      var it := vs[j];
      var p := w.items.order[j];
      assert it == w.items.entries[p];
      assert it.position == Some(p) && it.extra == map[] && Sound(it);
      assert ItemId(it) in c.itemConfig.entries && c.itemConfig.entries[ItemId(it)] == it.config;
      var st := states[j];
      assert st == SerializeItem(it, maturity(it));
      assert ItemFromState(c, st, uuids(j), now) == NewItem(it.config, it.id, it.creationTimestamp, it.position, Some(it.remainingUses));
      assert NewItem(it.config, it.id, it.creationTimestamp, it.position, Some(it.remainingUses)) == Ok(it);
    }
    BuiltAll(states, ItemBuilder(c, uuids, now), vs);
    InsertAll(vs, ItemKey, w.items);
  }

  /**
   * Serializing a restorable grid and reading the state back restores it,
   * in the dictionaries' order, except what a player's state does not
   * carry (`Reloaded`): rounds, walls and items come back exactly.
   */
  lemma SerializeRoundTrip(c: Config, w: World, maturity: Item -> real, pseudonyms: nat -> string, uuids: nat -> int, now: real)
    requires Restorable(c, w)
    ensures Deserialized(c, w, Serialized(c, w, true, true, maturity), pseudonyms, uuids, now) ==
      (w.(players := MapValues(w.players, Reloaded)), None)
  {
    PlayersRebuilt(c, w, maturity, pseudonyms);
    PlayersReinserted(w);
    WallsRoundTrip(w);
    ItemsRoundTrip(c, w, maturity, uuids, now);
  }
}
