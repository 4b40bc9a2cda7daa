/**
 * The game's `Player` (experiment.py): a participant on the grid with a
 * position, a score, a colour (team), motion state, an optional carried
 * item and an optional pending wall. Players live in the grid's `players`
 * dictionary, keyed by id; here a player is a value stored there, and the
 * methods that change a player are the grid's (module ExperimentGrid).
 */
module ExperimentPlayer {
  import opened Base
  import opened Dicts
  import opened ExperimentItem
  import PyStr

  /** `Gridworld.player_color_names`, the class-level list players index into. */
  const PlayerColorNames: seq<string> := ["BLUE", "YELLOW", "ORANGE", "RED", "PURPLE", "TEAL"]

  datatype Player = Player(
    id: string, position: Pos, motionAuto: bool, motionDirection: string,
    motionSpeedLimit: real, motionCost: real, motionTrembleRate: real,
    score: real, payoff: real, identityVisible: bool, recruiterId: string, name: string,
    colorIdx: nat, colorName: string, color: string,
    motionTimestamp: real, lastTimestamp: real,
    addWall: Option<Pos>, currentItem: Option<Item>)

  /** `player.is_neighbor(other, d)`: within Manhattan distance `d`. */
  predicate IsNeighbor(a: Player, b: Player, d: int) {
    Abs(a.position.row - b.position.row) + Abs(a.position.col - b.position.col) <= d
  }

  /** Neighbourhood is the Manhattan ball, so it is symmetric and excludes diagonal cells at `d = 1`. */
  lemma NeighborMeaning(a: Player, b: Player, d: int)
    ensures IsNeighbor(a, b, d) <==> Manhattan(a.position, b.position) <= d
    ensures IsNeighbor(a, b, d) <==> IsNeighbor(b, a, d)
    ensures b.position == Pos(a.position.row + 1, a.position.col + 1) ==> !IsNeighbor(a, b, 1)
  {
  }

  /** The keys among `keys` of the players other than `key` within distance `d` of it, in order. */
  function NeighborsIn(players: Dict<string, Player>, key: string, d: int, keys: seq<string>): (ks: seq<string>)
    requires key in players.entries
    requires forall j :: 0 <= j < |keys| ==> keys[j] in players.entries
    ensures forall k :: k in ks <==> k in keys && k != key && IsNeighbor(players.entries[key], players.entries[k], d)
    ensures forall j :: 0 <= j < |ks| ==> ks[j] in players.entries
    ensures |ks| <= |keys|
  {
    if keys == [] then []
    else
      var rest := NeighborsIn(players, key, d, keys[1..]);
      var k := keys[0];
      assert forall x :: x in keys <==> x == k || x in keys[1..];
      if k != key && IsNeighbor(players.entries[key], players.entries[k], d) then [k] + rest else rest
  }

  /**
   * `player.neighbors(d)`: the other players of the grid within distance `d`,
   * in the dictionary's order. The player itself is excluded by identity,
   * that is by its key, even when another player shares its cell.
   */
  function Neighbors(players: Dict<string, Player>, key: string, d: int): (ks: seq<string>)
    requires key in players.entries
    ensures forall k :: k in ks <==> k in players.entries && k != key && IsNeighbor(players.entries[key], players.entries[k], d)
    ensures forall j :: 0 <= j < |ks| ==> ks[j] in players.entries
    ensures |ks| < |players.order|
  {
    InOrderAll(players);
    var ks := NeighborsIn(players, key, d, players.order);
    NeighborsShorter(players, key, d, players.order);
    ks
  }

  /** The player's own key is never among its neighbours, so the list is shorter than the key order. */
  lemma {:induction false} NeighborsShorter(players: Dict<string, Player>, key: string, d: int, keys: seq<string>)
    requires key in players.entries && key in keys
    requires forall j :: 0 <= j < |keys| ==> keys[j] in players.entries
    ensures |NeighborsIn(players, key, d, keys)| < |keys|
  {
    if keys[0] != key {
      NeighborsShorter(players, key, d, keys[1..]);
    }
  }

  // ---------------------------------------------------------------------
  // Making a player from a state dictionary

  /**
   * The keys of a player's state dictionary that `Player(**state)` reads,
   * `None` where the key is absent. `color` is the colour name the state
   * carries (`None` also stands for JSON `null`). `currentItem` is the
   * `current_item` entry when present: `None` for the `null` of an empty
   * hand, or the carried item's state. `Player.__init__` ignores both
   * `motion_timestamp` and `current_item`.
   */
  datatype PlayerDict = PlayerDict(
    id: string, position: Option<Pos>, color: Option<string>,
    motionAuto: Option<bool>, motionDirection: Option<string>, motionSpeedLimit: Option<real>,
    motionTimestamp: Option<real>,
    score: Option<real>, payoff: Option<real>, identityVisible: Option<bool>,
    recruiterId: Option<string>, name: Option<string>,
    currentItem: Option<Option<ItemState>>)

  function Or<T>(o: Option<T>, default: T): T {
    if o.Some? then o.value else default
  }

  /** `list.index(x)`, `None` for `ValueError`. */
  function IndexIn(s: seq<string>, x: string): (r: Option<nat>)
    ensures r.Some? <==> x in s
    ensures r.Some? ==> r.value < |s| && s[r.value] == x && forall j :: 0 <= j < r.value ==> s[j] != x
  {
    if s == [] then None
    else if s[0] == x then Some(0)
    else
      var r := IndexIn(s[1..], x);
      if r.Some? then Some(r.value + 1) else None
  }

  /** The player `Player(**state)` makes with a colour index given; every other attribute takes its default. */
  function MakePlayer(pd: PlayerDict, idx: nat, pseudonym: string): Player
    requires idx < |PlayerColorNames|
  {
    Player(
      pd.id, Or(pd.position, Pos(0, 0)), Or(pd.motionAuto, false), Or(pd.motionDirection, "right"),
      Or(pd.motionSpeedLimit, 8.0), 0.0, 0.0,
      Or(pd.score, 0.0), Or(pd.payoff, 0.0), Or(pd.identityVisible, true), Or(pd.recruiterId, ""),
      Or(pd.name, pseudonym),
      idx, PlayerColorNames[idx], PlayerColorNames[idx],
      0.0, 0.0, None, None)
  }

  /**
   * The player `deserialize` builds from one state dictionary. It moves the
   * `color` entry to `color_name` even when the state has none, so
   * `Player.__init__` always looks the name up and raises `ValueError` for a
   * missing or unknown colour. `pseudonym` stands for the generated name
   * used when the state has none.
   */
  function PlayerFromState(pd: PlayerDict, pseudonym: string): (r: Result<Player>)
    ensures r.Err? <==> pd.color.None? || pd.color.value !in PlayerColorNames
    ensures r.Ok? ==> (r.value.id == pd.id && r.value.color == pd.color.value &&
      r.value.colorIdx < |PlayerColorNames| && PlayerColorNames[r.value.colorIdx] == pd.color.value)
  {
    if pd.color.None? then Err("ValueError")
    else match IndexIn(PlayerColorNames, pd.color.value)
      case None => Err("ValueError")
      case Some(idx) => Ok(MakePlayer(pd, idx, pseudonym))
  }

  /**
   * What `deserialize` evidently means to do for a state without a colour:
   * leave the colour out, so that `Player.__init__` draws one of its
   * `num_possible_colors` (2 by default) at random; `draw` is that draw.
   */
  function PlayerFromStateIntended(pd: PlayerDict, pseudonym: string, draw: nat): (r: Result<Player>)
    requires draw < 2
    ensures r.Err? <==> pd.color.Some? && pd.color.value !in PlayerColorNames
    ensures r.Ok? && pd.color.None? ==> r.value.colorIdx == draw
    ensures r.Ok? && pd.color.Some? ==> r == PlayerFromState(pd, pseudonym)
  {
    if pd.color.None? then Ok(MakePlayer(pd, draw, pseudonym))
    else PlayerFromState(pd, pseudonym)
  }

  /** A layout cell `p1` (no colour) yields a state the as-written `deserialize` rejects. */
  lemma ColorlessPlayerRejected(pseudonym: string)
    ensures PlayerFromState(PlayerDict("1", Some(Pos(0, 4)), None, None, None, None, None, None, None, None, None, None, None), pseudonym) == Err("ValueError")
    ensures PlayerFromStateIntended(PlayerDict("1", Some(Pos(0, 4)), None, None, None, None, None, None, None, None, None, None, None), pseudonym, 0).Ok?
  {
  }

  // ---------------------------------------------------------------------
  // Serialization

  /**
   * `player.serialize()`: all thirteen keys are written. The carried item
   * is written as its own state (`current_item and current_item.serialize()`),
   * an empty hand as `null`; `maturity` gives the carried item's maturity.
   * The motion cost, tremble rate, last timestamp and pending wall are not
   * written.
   */
  function SerializePlayer(p: Player, maturity: Item -> real): (pd: PlayerDict)
    ensures pd.id == p.id && pd.position == Some(p.position) && pd.color == Some(p.color)
    ensures pd.score == Some(p.score) && pd.payoff == Some(p.payoff)
    ensures pd.motionAuto == Some(p.motionAuto) && pd.motionDirection == Some(p.motionDirection)
    ensures pd.motionSpeedLimit == Some(p.motionSpeedLimit) && pd.motionTimestamp == Some(p.motionTimestamp)
    ensures pd.name == Some(p.name) && pd.identityVisible == Some(p.identityVisible) && pd.recruiterId == Some(p.recruiterId)
    ensures pd.currentItem.Some?
    ensures pd.currentItem.value.None? <==> p.currentItem.None?
    ensures p.currentItem.Some? ==> pd.currentItem.value == Some(SerializeItem(p.currentItem.value, maturity(p.currentItem.value)))
  {
    PlayerDict(
      p.id, Some(p.position), Some(p.color), Some(p.motionAuto), Some(p.motionDirection),
      Some(p.motionSpeedLimit), Some(p.motionTimestamp), Some(p.score), Some(p.payoff), Some(p.identityVisible),
      Some(p.recruiterId), Some(p.name),
      Some(if p.currentItem.Some? then Some(SerializeItem(p.currentItem.value, maturity(p.currentItem.value))) else None))
  }

  /** A player whose colour attributes agree, as every player built by `Player.__init__` (and recoloured by the handlers) has them. */
  predicate ColorsAgree(p: Player) {
    p.colorIdx < |PlayerColorNames| && p.color == PlayerColorNames[p.colorIdx] && p.colorName == p.color
  }

  /**
   * Serializing a player and building it again keeps what the state
   * carries and resets the rest: motion cost and tremble rate return to
   * their defaults, both motion timestamps to 0 (the state's
   * `motion_timestamp` is ignored), the pending wall is dropped, and the
   * carried item, though written, is not read back.
   */
  lemma PlayerRoundTrip(p: Player, maturity: Item -> real, pseudonym: string)
    requires ColorsAgree(p)
    ensures PlayerFromState(SerializePlayer(p, maturity), pseudonym) ==
      Ok(p.(motionCost := 0.0, motionTrembleRate := 0.0, motionTimestamp := 0.0, lastTimestamp := 0.0,
            addWall := None, currentItem := None))
  {
    var pd := SerializePlayer(p, maturity);
    ColorIndex(p.colorIdx);
    assert PlayerFromState(pd, pseudonym) == Ok(MakePlayer(pd, p.colorIdx, pseudonym));
  }

  /** The colour names are distinct, so looking a name up gives back its index. */
  lemma ColorIndex(i: nat)
    requires i < |PlayerColorNames|
    ensures IndexIn(PlayerColorNames, PlayerColorNames[i]) == Some(i)
  {
    var r := IndexIn(PlayerColorNames, PlayerColorNames[i]);
    assert r.Some?;
  }

  /** `str(position)` of a position list, as `IllegalMove` quotes it: `[row, col]`. */
  function ShowPosition(p: Pos): string {
    "[" + PyStr.ShowInt(p.row) + ", " + PyStr.ShowInt(p.col) + "]"
  }
}
