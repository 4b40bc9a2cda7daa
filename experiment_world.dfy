/**
 * The state of the game's `Gridworld` (experiment.py) as a value, and the
 * rules that read and change it: occupancy, round bookkeeping and the
 * round-parity flags, spawning items, automatic item transitions and the
 * change check the broadcaster uses. The class in module ExperimentGrid
 * holds this state in fields and is proved to follow these rules.
 *
 * The grid's dictionaries keep Python's insertion order (module Dicts):
 * players by id, walls and items by position. Scores and times are exact
 * reals; `time.time()` is the parameter `now`.
 */
module ExperimentWorld {
  import opened Base
  import opened Dicts
  import opened ExperimentItem
  import opened ExperimentPlayer
  import Maze

  /** The grid's settings, fixed once the game is set up. */
  datatype Config = Config(
    rows: int, columns: int, playerOverlap: bool,
    numRounds: int, timePerRound: real,
    leaderboardIndividual: bool, leaderboardGroup: bool, leaderboardTime: real,
    donationGroup: bool, donationIngroup: bool, donationIndividual: bool, donationPublic: bool,
    donationAmount: real, donationMultiplier: real, alternateConsumptionDonation: bool,
    contagion: int, relativeDeprivation: real,
    costlyColors: bool, colorCosts: seq<real>, wallBuildingCost: real,
    itemConfig: Dict<string, ItemType>)

  /**
   * What changes while a game runs: the three dictionaries, the consumed
   * items, the round, the round's start time (`None` before the game
   * starts), each item type's `item_count` and the `items_updated` flag.
   */
  datatype World = World(
    players: Dict<string, Player>, walls: Dict<Pos, Maze.Wall>, items: Dict<Pos, Item>,
    consumed: seq<Item>, round: int, start: Option<real>, counts: map<string, real>,
    itemsUpdated: bool)

  // ---------------------------------------------------------------------
  // Occupancy

  /** `has_player(position)`: some player stands there. */
  predicate HasPlayer(players: Dict<string, Player>, p: Pos) {
    exists k :: k in players.entries && players.entries[k].position == p
  }

  predicate HasItem(items: Dict<Pos, Item>, p: Pos) {
    p in items.entries
  }

  predicate HasWall(walls: Dict<Pos, Maze.Wall>, p: Pos) {
    p in walls.entries
  }

  /** `can_occupy(position)`: never a wall; not another player either unless players may overlap. */
  predicate CanOccupy(overlap: bool, w: World, p: Pos) {
    if overlap then !HasWall(w.walls, p) else !HasPlayer(w.players, p) && !HasWall(w.walls, p)
  }

  /** `_empty(position)`: no player, item or wall. */
  predicate IsEmpty(w: World, p: Pos) {
    !(HasPlayer(w.players, p) || HasItem(w.items, p) || HasWall(w.walls, p))
  }

  /**
   * An empty cell can be occupied; a wall never can; with overlap only
   * walls matter. Without overlap a player's own cell counts as taken,
   * which is why a move against the edge of the grid is refused.
   */
  lemma Occupancy(overlap: bool, w: World, p: Pos, key: string)
    ensures IsEmpty(w, p) ==> CanOccupy(overlap, w, p)
    ensures HasWall(w.walls, p) ==> !CanOccupy(overlap, w, p)
    ensures overlap ==> (CanOccupy(overlap, w, p) <==> !HasWall(w.walls, p))
    ensures key in w.players.entries ==> !CanOccupy(false, w, w.players.entries[key].position)
  {
  }

  // ---------------------------------------------------------------------
  // Rounds

  /** `elapsed_round_time` */
  function ElapsedRoundTime(start: Option<real>, now: real): real {
    if start.None? then 0.0 else now - start.value
  }

  /** `remaining_round_time`: never negative, and 0 before the game starts. */
  function RemainingRoundTime(c: Config, start: Option<real>, now: real): (r: real)
    ensures r >= 0.0
    ensures r == 0.0 <==> start.None? || now - start.value >= c.timePerRound
    ensures start.Some? && r != 0.0 ==> r == c.timePerRound - (now - start.value)
  {
    if start.None? then 0.0
    else
      var raw := c.timePerRound - ElapsedRoundTime(start, now);
      if raw > 0.0 then raw else 0.0
  }

  predicate GameOver(c: Config, round: int) {
    round >= c.numRounds
  }

  /** `is_even_round` is `bool(round % 2)`, true on odd rounds. */
  predicate IsEvenRound(round: int) {
    round % 2 != 0
  }

  predicate GroupDonationEnabled(c: Config) {
    c.donationGroup || c.donationIngroup
  }

  predicate DonationEnabled(c: Config) {
    (GroupDonationEnabled(c) || c.donationIndividual || c.donationPublic) && c.donationAmount != 0.0
  }

  predicate DonationActive(c: Config, round: int) {
    if !DonationEnabled(c) then false
    else if c.alternateConsumptionDonation then IsEvenRound(round)
    else true
  }

  predicate MovementEnabled(c: Config, round: int) {
    !(c.alternateConsumptionDonation && DonationActive(c, round))
  }

  predicate ConsumptionActive(c: Config, round: int) {
    !c.alternateConsumptionDonation || !IsEvenRound(round)
  }

  /**
   * With alternation on and donation enabled, donation is active exactly on
   * odd rounds, consumption exactly on even ones, and players may move
   * exactly when consumption is active.
   */
  lemma AlternatingRounds(c: Config, round: int)
    requires c.alternateConsumptionDonation && DonationEnabled(c)
    ensures DonationActive(c, round) <==> round % 2 == 1
    ensures ConsumptionActive(c, round) <==> round % 2 == 0
    ensures MovementEnabled(c, round) == ConsumptionActive(c, round)
  {
  }

  /** Without alternation consumption and movement are always on, and donation is on when enabled. */
  lemma SteadyRounds(c: Config, round: int)
    requires !c.alternateConsumptionDonation
    ensures ConsumptionActive(c, round) && MovementEnabled(c, round)
    ensures DonationActive(c, round) == DonationEnabled(c)
  {
  }

  /** The player with its `motion_timestamp` set to 0. */
  function Stopped(p: Player): Player {
    p.(motionTimestamp := 0.0)
  }

  /** Every player with its `motion_timestamp` set to 0. */
  function ResetMotion(players: Dict<string, Player>): (r: Dict<string, Player>)
    ensures r.order == players.order && r.entries.Keys == players.entries.Keys
    ensures forall k :: k in r.entries ==> r.entries[k] == Stopped(players.entries[k])
  {
    var m := map k | k in players.entries :: Stopped(players.entries[k]);
    assert m.Keys == players.entries.Keys;
    RawDict(players.order, m)
  }

  /** The start of a new round: `now`, delayed by the leaderboard display when one is shown. */
  function NextStart(c: Config, now: real): real {
    now + (if c.leaderboardIndividual || c.leaderboardGroup then c.leaderboardTime else 0.0)
  }

  /** The state after `check_round_completion()` at time `now`. */
  function CompleteRound(c: Config, w: World, now: real): World {
    if w.start.None? || RemainingRoundTime(c, w.start, now) != 0.0 then w
    else
      var w1 := w.(round := w.round + 1);
      if GameOver(c, w1.round) then w1
      else w1.(start := Some(NextStart(c, now)), players := ResetMotion(w.players))
  }

  /**
   * `check_round_completion` does nothing before the game starts or while
   * the round has time left. When the time is up it advances the round by
   * exactly one; unless that ends the game it restarts the clock at `now`
   * (plus the leaderboard time) and zeroes every player's motion timestamp,
   * so the new round has its full time left. Items and walls never change.
   */
  lemma RoundCompletion(c: Config, w: World, now: real)
    ensures var r := CompleteRound(c, w, now);
      r.items == w.items && r.walls == w.walls && r.consumed == w.consumed &&
      (w.start.None? || now - w.start.value < c.timePerRound ==> r == w) &&
      (w.start.Some? && now - w.start.value >= c.timePerRound ==>
        r.round == w.round + 1 &&
        (GameOver(c, r.round) ==> r == w.(round := w.round + 1)) &&
        (!GameOver(c, r.round) ==>
          r.start == Some(NextStart(c, now)) && r.players.entries.Keys == w.players.entries.Keys &&
          (forall k :: k in r.players.entries ==>
             r.players.entries[k].motionTimestamp == 0.0 &&
             r.players.entries[k].(motionTimestamp := w.players.entries[k].motionTimestamp) == w.players.entries[k]) &&
          (c.timePerRound > 0.0 && NextStart(c, now) == now ==> RemainingRoundTime(c, r.start, now) == c.timePerRound)))
  {
    if w.start.Some? && now - w.start.value >= c.timePerRound && !GameOver(c, w.round + 1) {
      RoundRestarts(c, w, now);
    }
  }

  /** The case of RoundCompletion where the game goes on: a fresh clock and stopped players. */
  lemma RoundRestarts(c: Config, w: World, now: real)
    requires w.start.Some? && now - w.start.value >= c.timePerRound && !GameOver(c, w.round + 1)
    ensures var r := CompleteRound(c, w, now);
      r == w.(round := w.round + 1, start := Some(NextStart(c, now)), players := ResetMotion(w.players)) &&
      (forall k :: k in r.players.entries ==>
         r.players.entries[k].motionTimestamp == 0.0 &&
         r.players.entries[k].(motionTimestamp := w.players.entries[k].motionTimestamp) == w.players.entries[k]) &&
      (c.timePerRound > 0.0 && NextStart(c, now) == now ==> RemainingRoundTime(c, r.start, now) == c.timePerRound)
  {
    var r := CompleteRound(c, w, now);
    assert r.players == ResetMotion(w.players);
    forall k | k in r.players.entries
      ensures r.players.entries[k].motionTimestamp == 0.0
      ensures r.players.entries[k].(motionTimestamp := w.players.entries[k].motionTimestamp) == w.players.entries[k]
    {
      StoppedRestored(w.players.entries[k]);
    }
  }

  /** Stopping a player changes its motion timestamp and nothing else. */
  lemma StoppedRestored(p: Player)
    ensures Stopped(p).motionTimestamp == 0.0 && Stopped(p).(motionTimestamp := p.motionTimestamp) == p
  {
  }

  // ---------------------------------------------------------------------
  // Spawning an item

  /**
   * `spawn_item(position, item_id)` once the type and the position are
   * chosen: a new item of that type with id `len(item_locations) +
   * len(items_consumed)`, created at `now`, stored at the position
   * (replacing whatever item was there). `KeyError` for an unknown type.
   */
  function SpawnedAt(c: Config, w: World, position: Pos, itemId: string, now: real): Result<World> {
    if itemId !in c.itemConfig.entries then Err("KeyError")
    else match NewItem(c.itemConfig.entries[itemId], Size(w.items) + |w.consumed|, now, Some(position), None)
      case Err(e) => Err(e)
      case Ok(it) => Ok(w.(items := Set(w.items, position, it), itemsUpdated := true))
  }

  /** A spawn fails exactly for an unknown type or a type whose configuration names an instance attribute. */
  lemma SpawnFails(c: Config, w: World, position: Pos, itemId: string, now: real)
    ensures SpawnedAt(c, w, position, itemId, now).Err? <==>
      (itemId !in c.itemConfig.entries ||
       "position" in ConfigKeys(c.itemConfig.entries[itemId]) || "remaining_uses" in ConfigKeys(c.itemConfig.entries[itemId]))
  {
    if itemId in c.itemConfig.entries {
      NamesInstanceFieldMeaning(c.itemConfig.entries[itemId]);
    }
  }

  /** A spawn of a known type fails with the error its item's construction raises. */
  lemma SpawnRefused(c: Config, w: World, position: Pos, itemId: string, now: real)
    requires itemId in c.itemConfig.entries
    requires NewItem(c.itemConfig.entries[itemId], Size(w.items) + |w.consumed|, now, Some(position), None).Err?
    ensures SpawnedAt(c, w, position, itemId, now) == Err(NewItem(c.itemConfig.entries[itemId], Size(w.items) + |w.consumed|, now, Some(position), None).error)
  {
  }

  /** The item a successful spawn stores: the next id, the configured uses, created at `now`. */
  function SpawnedItem(c: Config, w: World, position: Pos, itemId: string, now: real): Item
    requires itemId in c.itemConfig.entries
  {
    var t := c.itemConfig.entries[itemId];
    Item(t, Size(w.items) + |w.consumed|, now, Some(position), t.nUses, map[])
  }

  /** A successful spawn stores that item in the cell and changes nothing else but the flag. */
  lemma SpawnResult(c: Config, w: World, position: Pos, itemId: string, now: real)
    requires SpawnedAt(c, w, position, itemId, now).Ok?
    ensures SpawnedAt(c, w, position, itemId, now).value ==
      w.(items := Set(w.items, position, SpawnedItem(c, w, position, itemId, now)), itemsUpdated := true)
  {
  }

  /**
   * After a spawn the cell holds the new item, every other cell keeps its
   * item, and the number of items grows by one if the cell was free.
   */
  lemma {:induction false} SpawnStores(c: Config, w: World, position: Pos, itemId: string, now: real, q: Pos)
    requires SpawnedAt(c, w, position, itemId, now).Ok?
    ensures var r := SpawnedAt(c, w, position, itemId, now).value;
      Get(r.items, position) == Some(SpawnedItem(c, w, position, itemId, now)) &&
      (q != position ==> Get(r.items, q) == Get(w.items, q)) &&
      Size(r.items) == Size(w.items) + (if position in w.items.entries then 0 else 1)
  {
    SpawnResult(c, w, position, itemId, now);
    SetGet(w.items, position, SpawnedItem(c, w, position, itemId, now), q);
  }

  // ---------------------------------------------------------------------
  // Automatic transitions

  /**
   * The change `trigger_transitions` collects for the item at `p`: none
   * unless its type is configured with an `auto_transition_time` that has
   * passed since the item was created; then removal when the type names no
   * target, else a new item of the target type with the same id and
   * position, created at `created`.
   */
  function DueChange(c: Config, items: Dict<Pos, Item>, p: Pos, now: real, created: real): (r: Result<Option<(Pos, Option<Item>)>>)
    requires p in items.entries
    ensures r.Ok? && r.value.Some? ==> r.value.value.0 == p
  {
    var item := items.entries[p];
    var key := ItemId(item);
    if key !in c.itemConfig.entries then Ok(None)
    else
      var t := c.itemConfig.entries[key];
      if t.autoTransitionTime.None? || now - item.creationTimestamp < t.autoTransitionTime.value then Ok(None)
      else if t.autoTransitionTarget.None? then Ok(Some((p, None)))
      else if t.autoTransitionTarget.value !in c.itemConfig.entries then Err("KeyError")
      else match NewItem(c.itemConfig.entries[t.autoTransitionTarget.value], item.id, created, Some(p), None)
        case Err(e) => Err(e)
        case Ok(it) => Ok(Some((p, Some(it))))
  }

  /** The changes collected over the item positions `keys`, in order; the first error stops the collection. */
  function DueChanges(c: Config, items: Dict<Pos, Item>, keys: seq<Pos>, now: real, created: real): Result<seq<(Pos, Option<Item>)>>
    requires forall j :: 0 <= j < |keys| ==> keys[j] in items.entries
  {
    if keys == [] then Ok([])
    else match DueChanges(c, items, keys[..|keys| - 1], now, created)
      case Err(e) => Err(e)
      case Ok(cs) =>
        match DueChange(c, items, keys[|keys| - 1], now, created)
          case Err(e) => Err(e)
          case Ok(None) => Ok(cs)
          case Ok(Some(ch)) => Ok(cs + [ch])
  }

  /** One collected change: delete the entry, or store the new item. */
  function ApplyChange(items: Dict<Pos, Item>, ch: (Pos, Option<Item>)): (r: Dict<Pos, Item>)
    ensures Get(r, ch.0) == ch.1
    ensures forall q :: q != ch.0 ==> Get(r, q) == Get(items, q)
  {
    if ch.1.None? then
      if ch.0 in items.entries then Del(items, ch.0).value else items
    else
      var r := Set(items, ch.0, ch.1.value);
      assert forall q :: q != ch.0 ==> Get(r, q) == Get(items, q) by {
        forall q | q != ch.0 ensures Get(r, q) == Get(items, q) { SetGet(items, ch.0, ch.1.value, q); }
      }
      SetGet(items, ch.0, ch.1.value, ch.0);
      r
  }

  /** The apply loop of `trigger_transitions`: the changes in collection order. */
  function ApplyChanges(items: Dict<Pos, Item>, cs: seq<(Pos, Option<Item>)>): Dict<Pos, Item> {
    if cs == [] then items else ApplyChange(ApplyChanges(items, cs[..|cs| - 1]), cs[|cs| - 1])
  }

  /** The changes collected over all items, in the items' order. */
  function AllDueChanges(c: Config, items: Dict<Pos, Item>, now: real, created: real): Result<seq<(Pos, Option<Item>)>> {
    InOrderAll(items);
    DueChanges(c, items, items.order, now, created)
  }

  /** The state after `trigger_transitions(now)`; `created` is the clock reading given to new items. */
  function Transitioned(c: Config, w: World, now: real, created: real): Result<World> {
    match AllDueChanges(c, w.items, now, created)
      case Err(e) => Err(e)
      case Ok(cs) => Ok(w.(items := ApplyChanges(w.items, cs), itemsUpdated := w.itemsUpdated || cs != []))
  }

  /**
   * Collecting before applying makes every cell's outcome depend on that
   * cell alone: after the apply loop a due cell holds what its own change
   * said and every other cell is as before.
   */
  lemma {:induction false} ChangesAt(c: Config, items: Dict<Pos, Item>, keys: seq<Pos>, now: real, created: real, p: Pos)
    requires forall j :: 0 <= j < |keys| ==> keys[j] in items.entries
    requires DueChanges(c, items, keys, now, created).Ok?
    ensures p in keys ==> DueChange(c, items, p, now, created).Ok?
    ensures Get(ApplyChanges(items, DueChanges(c, items, keys, now, created).value), p) ==
      if p in keys && DueChange(c, items, p, now, created).value.Some? then DueChange(c, items, p, now, created).value.value.1
      else Get(items, p)
    decreases |keys|
  {
    if keys != [] {
      var ks := keys[..|keys| - 1];
      var q := keys[|keys| - 1];
      assert forall x :: x in keys <==> x in ks || x == q;
      ChangesAt(c, items, ks, now, created, p);
      var cs := DueChanges(c, items, ks, now, created).value;
      var all := DueChanges(c, items, keys, now, created).value;
      if DueChange(c, items, q, now, created).value.Some? {
        assert all == cs + [DueChange(c, items, q, now, created).value.value];
        assert all[..|all| - 1] == cs;
      } else {
        assert all == cs;
      }
    }
  }

  /**
   * `trigger_transitions` succeeds or fails as a whole (a `KeyError` or
   * `TypeError` while collecting leaves nothing changed). On success each
   * item whose time is up is removed or replaced by its target type, and
   * every other cell keeps its item; players and walls are untouched.
   */
  lemma TransitionsMeaning(c: Config, w: World, now: real, created: real, p: Pos)
    ensures var r := Transitioned(c, w, now, created);
      (r.Ok? ==>
        r.value.players == w.players && r.value.walls == w.walls && r.value.consumed == w.consumed &&
        (p in w.items.entries ==> DueChange(c, w.items, p, now, created).Ok?) &&
        Get(r.value.items, p) ==
          if p in w.items.entries && DueChange(c, w.items, p, now, created).value.Some? then DueChange(c, w.items, p, now, created).value.value.1
          else Get(w.items, p))
  {
    InOrderAll(w.items);
    if DueChanges(c, w.items, w.items.order, now, created).Ok? {
      ChangesAt(c, w.items, w.items.order, now, created, p);
    }
  }

  // ---------------------------------------------------------------------
  // Noticing item changes

  /** Every item is stored under its own position. */
  predicate Located(items: Dict<Pos, Item>) {
    forall p :: p in items.entries ==> items.entries[p].position == Some(p)
  }

  /** `[f.serialize() for f in item_locations.values()]` */
  function SerializeItems(items: Dict<Pos, Item>, maturity: Item -> real): (s: seq<ItemState>)
    ensures |s| == |items.order|
    ensures forall j :: 0 <= j < |s| ==> items.order[j] in items.entries && s[j] == SerializeItem(items.entries[items.order[j]], maturity(items.entries[items.order[j]]))
  {
    var vs := Values(items);
    seq(|vs|, j requires 0 <= j < |vs| => SerializeItem(vs[j], maturity(vs[j])))
  }

  /** The loop of `items_changed` from entry `k` of the last broadcast on. */
  function ChangedFrom(items: Dict<Pos, Item>, last: seq<ItemState>, k: nat, maturity: Item -> real): Result<bool>
    decreases |last| - k
  {
    if k >= |last| then Ok(false)
    else if last[k].position.None? then Err("TypeError")
    else
      var p := last[k].position.value;
      if p !in items.entries then Ok(true)
      else if last[k].id.None? then Err("KeyError")
      else if items.entries[p].id != last[k].id.value then Ok(true)
      else if last[k].maturity.None? then Err("KeyError")
      else if maturity(items.entries[p]) != last[k].maturity.value then Ok(true)
      else ChangedFrom(items, last, k + 1, maturity)
  }

  /**
   * `items_changed(last_items)`: whether the items differ from a previous
   * broadcast in number, in position, in id or in maturity. An entry
   * whose position is `null` raises `TypeError`, one that lacks the `id`
   * or `maturity` the comparison reaches raises `KeyError`.
   */
  function ItemsChanged(items: Dict<Pos, Item>, last: seq<ItemState>, maturity: Item -> real): Result<bool> {
    if |last| != Size(items) then Ok(true) else ChangedFrom(items, last, 0, maturity)
  }

  /** Nothing counts as changed when every entry from `k` on is found, with its id and maturity. */
  lemma {:induction false} ChangedFromSerialized(items: Dict<Pos, Item>, maturity: Item -> real, k: nat)
    requires Located(items)
    ensures ChangedFrom(items, SerializeItems(items, maturity), k, maturity) == Ok(false)
    decreases |items.order| - k
  {
    var s := SerializeItems(items, maturity);
    if k < |s| {
      ChangedFromSerialized(items, maturity, k + 1);
      var it := items.entries[items.order[k]];
      assert s[k].position == Some(items.order[k]);
    }
  }

  /** A broadcast of the current items reports no change. */
  lemma ItemsUnchangedSinceSerialized(items: Dict<Pos, Item>, maturity: Item -> real)
    requires Located(items)
    ensures ItemsChanged(items, SerializeItems(items, maturity), maturity) == Ok(false)
  {
    ChangedFromSerialized(items, maturity, 0);
  }

  /** `False` means every entry of the last broadcast names a current item with the same id and maturity, and the counts agree. */
  lemma {:induction false} UnchangedMeaning(items: Dict<Pos, Item>, last: seq<ItemState>, k: nat, maturity: Item -> real, j: nat)
    requires ChangedFrom(items, last, k, maturity) == Ok(false)
    requires k <= j < |last|
    ensures last[j].position.Some? && last[j].position.value in items.entries
    ensures last[j].id == Some(items.entries[last[j].position.value].id)
    ensures last[j].maturity == Some(maturity(items.entries[last[j].position.value]))
    decreases j - k
  {
    if k < j {
      UnchangedMeaning(items, last, k + 1, maturity, j);
    }
  }
}
