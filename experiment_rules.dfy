/**
 * The rules of `Gridworld` (experiment.py) that run once per game tick or
 * per message: players eating the items they stand on (`consume`), the
 * item population adjusting to its target (`replenish_items`), colours
 * spreading between neighbours (`spread_contagion`) and a player's move
 * (`Player.move`). Each is a function from the grid's state to the new
 * state, with the exception raised where the source raises one; randomness
 * and the clock are parameters.
 */
module ExperimentRules {
  import opened Base
  import opened Dicts
  import opened ExperimentItem
  import opened ExperimentPlayer
  import opened ExperimentWorld
  import Maze
  import LegacyGrid

  // ---------------------------------------------------------------------
  // Consumption

  /** What `consume` carries from one player to the next: the grid, the number of items eaten, and the last item inspected. */
  datatype Feast = Feast(w: World, eaten: nat, last: Option<Item>)

  /** A run of `consume`: still going, or stopped by an exception with the grid as far as it got. */
  datatype Outcome = Going(f: Feast) | Raised(w: World, error: string)

  /** An item a player eats: not interactive, with calories, and ripe. */
  predicate Edible(it: Item, maturity: Item -> real) {
    !it.config.interactive && it.config.calories != 0 && maturity(it) >= it.config.maturationThreshold
  }

  /**
   * After an item is eaten: a respawning type spawns a new item of the same
   * type at `spawnAt` (the position `_find_empty_position` draws); any other
   * type has its `item_count` lowered by one.
   */
  function Replace(c: Config, w: World, item: Item, spawnAt: Pos, now: real): Result<World> {
    if item.config.respawn then SpawnedAt(c, w, spawnAt, ItemId(item), now)
    else if ItemId(item) !in c.itemConfig.entries || ItemId(item) !in w.counts then Err("KeyError")
    else Ok(w.(counts := w.counts[ItemId(item) := w.counts[ItemId(item)] - 1.0]))
  }

  /**
   * One player's turn in `consume`. The item under the player, if any, is
   * inspected (and remembered); an edible one is removed, appended to the
   * consumed items and replaced, and the player gains its calories. A
   * colour-0 player's gain would be scaled by `self.grid.relative_deprivation`,
   * an attribute the grid does not have: `AttributeError`.
   */
  function Visit(c: Config, f: Feast, k: string, maturity: Item -> real, spawnAt: Pos, now: real): Outcome
    requires k in f.w.players.entries
  {
    var player := f.w.players.entries[k];
    var p := player.position;
    if p !in f.w.items.entries then Going(f)
    else
      var item := f.w.items.entries[p];
      if !Edible(item, maturity) then Going(f.(last := Some(item)))
      else Eat(c, f, k, p, maturity, spawnAt, now)
  }

  /** The grid with the item at `p` moved to the consumed items. */
  function Removed(w: World, p: Pos): World
    requires p in w.items.entries
  {
    w.(items := Del(w.items, p).value, consumed := w.consumed + [w.items.entries[p]], itemsUpdated := true)
  }

  /** The edible item under player `k` at `p` eaten. */
  function Eat(c: Config, f: Feast, k: string, p: Pos, maturity: Item -> real, spawnAt: Pos, now: real): Outcome
    requires k in f.w.players.entries && p in f.w.items.entries
  {
    var w1 := Removed(f.w, p);
    match Replace(c, w1, f.w.items.entries[p], spawnAt, now)
      case Err(e) => Raised(w1, e)
      case Ok(w2) => Feed(f, k, f.w.items.entries[p], w2)
  }

  /** The eater of `item` credited on the replaced grid `w2`, unless its colour is 0. */
  function Feed(f: Feast, k: string, item: Item, w2: World): Outcome
    requires k in f.w.players.entries
  {
    var player := f.w.players.entries[k];
    if player.colorIdx == 0 then Raised(w2, "AttributeError")
    else Going(Feast(w2.(players := Set(w2.players, k, Fed(player, item))), f.eaten + 1, Some(item)))
  }

  /** The players `keys` in turn; `spawnAt(j)` is the respawn position drawn at the `j`-th player. */
  function ConsumeOver(c: Config, w: World, keys: seq<string>, maturity: Item -> real, spawnAt: nat -> Pos, now: real): Outcome {
    if keys == [] then Going(Feast(w, 0, None))
    else match ConsumeOver(c, w, keys[..|keys| - 1], maturity, spawnAt, now)
      case Raised(w1, e) => Raised(w1, e)
      case Going(f) =>
        var k := keys[|keys| - 1];
        if k in f.w.players.entries then Visit(c, f, k, maturity, spawnAt(|keys| - 1), now) else Going(f)
  }

  /** A player's score raised by `amount`. */
  function Gained(p: Player, amount: real): Player {
    p.(score := p.score + amount)
  }

  /** Every player's score raised by `amount`. */
  function Bonus(players: Dict<string, Player>, amount: real): (r: Dict<string, Player>)
    ensures r.order == players.order && r.entries.Keys == players.entries.Keys
    ensures forall k :: k in r.entries ==> r.entries[k] == Gained(players.entries[k], amount)
  {
    var m := map k | k in players.entries :: Gained(players.entries[k], amount);
    assert m.Keys == players.entries.Keys;
    RawDict(players.order, m)
  }

  /**
   * `consume()`: every player in turn; then, if anything was eaten and the
   * last item inspected (eaten or not) has a public good, every player
   * gains that public good times the number of items eaten.
   */
  function Consumed(c: Config, w: World, maturity: Item -> real, spawnAt: nat -> Pos, now: real): (World, Option<string>) {
    match ConsumeOver(c, w, w.players.order, maturity, spawnAt, now)
      case Raised(w1, e) => (w1, Some(e))
      case Going(f) => (Finish(f), None)
  }

  /** What every player gains from `eaten` items eaten, when `item` was the last inspected. */
  function Share(item: Item, eaten: nat): real {
    item.config.publicGood * eaten as real
  }

  /** The public-good step that closes `consume`. */
  function Finish(f: Feast): World {
    if f.eaten > 0 && f.last.Some? && f.last.value.config.publicGood != 0.0 then
      f.w.(players := Bonus(f.w.players, Share(f.last.value, f.eaten)))
    else f.w
  }

  /** The grid a turn keeps: the same players at the same positions, in the same order, and the same walls. */
  predicate SameRoster(a: World, b: World) {
    a.players.order == b.players.order && a.players.entries.Keys == b.players.entries.Keys && a.walls == b.walls &&
    forall k :: k in a.players.entries ==> a.players.entries[k].position == b.players.entries[k].position
  }

  /** A removal shrinks a dictionary by one. */
  lemma DelSize<K, V>(d: Dict<K, V>, k: K)
    requires k in d.entries
    ensures Size(Del(d, k).value) == Size(d) - 1
  {
    assert Del(d, k).value.entries.Keys == d.entries.Keys - {k};
  }

  /** Replacing an eaten item touches only the items, the flag and the counts, and adds at most one item. */
  lemma ReplaceAccounts(c: Config, w: World, item: Item, spawnAt: Pos, now: real)
    ensures var r := Replace(c, w, item, spawnAt, now);
      r.Ok? ==> r.value.players == w.players && r.value.walls == w.walls && r.value.consumed == w.consumed &&
                Size(r.value.items) <= Size(w.items) + 1
  {
    if item.config.respawn && SpawnedAt(c, w, spawnAt, ItemId(item), now).Ok? {
      SpawnStores(c, w, spawnAt, ItemId(item), now, spawnAt);
      SpawnResult(c, w, spawnAt, ItemId(item), now);
    }
  }

  /** Eating moves exactly one item to the consumed list and changes only the eater's score. */
  lemma EatAccounts(c: Config, f: Feast, k: string, p: Pos, maturity: Item -> real, spawnAt: Pos, now: real)
    requires k in f.w.players.entries && p in f.w.items.entries
    ensures match Eat(c, f, k, p, maturity, spawnAt, now)
      case Going(g) =>
        SameRoster(g.w, f.w) && g.eaten == f.eaten + 1 && g.w.consumed == f.w.consumed + [f.w.items.entries[p]] &&
        Size(g.w.items) <= Size(f.w.items)
      case Raised(w1, _) =>
        SameRoster(w1, f.w) && w1.consumed == f.w.consumed + [f.w.items.entries[p]] && Size(w1.items) <= Size(f.w.items)
  {
    DelSize(f.w.items, p);
    ReplaceAccounts(c, Removed(f.w, p), f.w.items.entries[p], spawnAt, now);
  }

  /**
   * What a stretch of `consume` keeps from grid `a` to grid `b`: the roster
   * and walls, the consumed items so far (appended to only), and no more
   * items on the grid than before.
   */
  predicate Kept(a: World, b: World) {
    SameRoster(b, a) && a.consumed <= b.consumed && Size(b.items) <= Size(a.items)
  }

  lemma KeptTrans(a: World, b: World, c: World)
    requires Kept(a, b) && Kept(b, c)
    ensures Kept(a, c)
  {
    assert c.consumed[..|a.consumed|] == c.consumed[..|b.consumed|][..|a.consumed|];
  }

  /** One turn keeps the grid and appends one consumed item per item eaten. */
  lemma VisitAccounts(c: Config, f: Feast, k: string, maturity: Item -> real, spawnAt: Pos, now: real)
    requires k in f.w.players.entries
    ensures match Visit(c, f, k, maturity, spawnAt, now)
      case Going(g) =>
        Kept(f.w, g.w) && f.eaten <= g.eaten <= f.eaten + 1 && |g.w.consumed| == |f.w.consumed| + (g.eaten - f.eaten)
      case Raised(w1, _) =>
        Kept(f.w, w1) && |w1.consumed| == |f.w.consumed| + 1
  {
    var p := f.w.players.entries[k].position;
    if p in f.w.items.entries && Edible(f.w.items.entries[p], maturity) {
      EatAccounts(c, f, k, p, maturity, spawnAt, now);
      assert f.w.consumed <= f.w.consumed + [f.w.items.entries[p]];
    }
  }

  /**
   * `consume` keeps the players (by key, order and position) and the walls;
   * it appends exactly one consumed item per item eaten, at most one per
   * player, and never adds to the items on the grid. An exception part-way
   * keeps the same guarantees for the grid as it is left.
   */
  lemma {:induction false} ConsumeAccounts(c: Config, w: World, keys: seq<string>, maturity: Item -> real, spawnAt: nat -> Pos, now: real)
    ensures match ConsumeOver(c, w, keys, maturity, spawnAt, now)
      case Going(f) => Kept(w, f.w) && f.eaten <= |keys| && |f.w.consumed| == |w.consumed| + f.eaten
      case Raised(w1, _) => Kept(w, w1) && |w1.consumed| > |w.consumed|
  {
    if keys != [] {
      var n := |keys| - 1;
      ConsumeAccounts(c, w, keys[..n], maturity, spawnAt, now);
      match ConsumeOver(c, w, keys[..n], maturity, spawnAt, now) {
        case Raised(_, _) =>
        case Going(f) =>
          if keys[n] in f.w.players.entries {
            VisitAccounts(c, f, keys[n], maturity, spawnAt(n), now);
            match Visit(c, f, keys[n], maturity, spawnAt(n), now) {
              case Going(g) => KeptTrans(w, f.w, g.w);
              case Raised(w1, _) => KeptTrans(w, f.w, w1);
            }
          }
      }
    }
  }

  /** The eater's new entry: its score raised by the item's calories. */
  function Fed(player: Player, item: Item): Player {
    player.(score := player.score + item.config.calories as real)
  }

  /** A meal that does not raise ends with the replacement's grid and the eater's new entry. */
  lemma EatShape(c: Config, f: Feast, k: string, p: Pos, maturity: Item -> real, spawnAt: Pos, now: real)
    requires k in f.w.players.entries && p in f.w.items.entries
    requires Eat(c, f, k, p, maturity, spawnAt, now).Going?
    ensures var item := f.w.items.entries[p];
      var r := Replace(c, Removed(f.w, p), item, spawnAt, now);
      r.Ok? && r.value.players == f.w.players &&
      Eat(c, f, k, p, maturity, spawnAt, now).f ==
        Feast(r.value.(players := Set(f.w.players, k, Fed(f.w.players.entries[k], item))), f.eaten + 1, Some(item))
  {
    var item := f.w.items.entries[p];
    var w1 := Removed(f.w, p);
    var r := Replace(c, w1, item, spawnAt, now);
    assert r.Ok?;
    var w2 := r.value;
    var player := f.w.players.entries[k];
    assert Eat(c, f, k, p, maturity, spawnAt, now) == Feed(f, k, item, w2);
    assert player.colorIdx != 0;
    ReplaceAccounts(c, w1, item, spawnAt, now);
    assert w2.players == f.w.players;
  }

  /** The eater gains the item's calories; no other player's entry changes. */
  lemma EatScores(c: Config, f: Feast, k: string, p: Pos, maturity: Item -> real, spawnAt: Pos, now: real, j: string)
    requires k in f.w.players.entries && p in f.w.items.entries
    requires Eat(c, f, k, p, maturity, spawnAt, now).Going?
    ensures var g := Eat(c, f, k, p, maturity, spawnAt, now).f;
      g.w.players.entries[k] == f.w.players.entries[k].(score := f.w.players.entries[k].score + f.w.items.entries[p].config.calories as real) &&
      (j != k && j in f.w.players.entries ==> g.w.players.entries[j] == f.w.players.entries[j]) &&
      g.last == Some(f.w.items.entries[p])
  {
    EatShape(c, f, k, p, maturity, spawnAt, now);
  }

  /**
   * A colour-0 player standing on an edible item raises `AttributeError`
   * once the item is replaced: the item is consumed and the player has
   * gained nothing.
   */
  lemma ColorZeroRaises(c: Config, f: Feast, k: string, maturity: Item -> real, spawnAt: Pos, now: real)
    requires k in f.w.players.entries && f.w.players.entries[k].colorIdx == 0
    requires f.w.players.entries[k].position in f.w.items.entries
    requires Edible(f.w.items.entries[f.w.players.entries[k].position], maturity)
    requires Replace(c, Removed(f.w, f.w.players.entries[k].position), f.w.items.entries[f.w.players.entries[k].position], spawnAt, now).Ok?
    ensures var r := Visit(c, f, k, maturity, spawnAt, now);
      r.Raised? && r.error == "AttributeError" && r.w.players == f.w.players &&
      r.w.consumed == f.w.consumed + [f.w.items.entries[f.w.players.entries[k].position]]
  {
    var p := f.w.players.entries[k].position;
    ReplaceAccounts(c, Removed(f.w, p), f.w.items.entries[p], spawnAt, now);
  }

  /** When no player stands on an item nothing is eaten and the grid is unchanged. */
  lemma {:induction false} NothingUnderfoot(c: Config, w: World, keys: seq<string>, maturity: Item -> real, spawnAt: nat -> Pos, now: real)
    requires forall k :: k in w.players.entries ==> w.players.entries[k].position !in w.items.entries
    ensures ConsumeOver(c, w, keys, maturity, spawnAt, now) == Going(Feast(w, 0, None))
  {
    if keys != [] {
      NothingUnderfoot(c, w, keys[..|keys| - 1], maturity, spawnAt, now);
    }
  }

  lemma NothingToEat(c: Config, w: World, maturity: Item -> real, spawnAt: nat -> Pos, now: real)
    requires forall k :: k in w.players.entries ==> w.players.entries[k].position !in w.items.entries
    ensures Consumed(c, w, maturity, spawnAt, now) == (w, None)
  {
    NothingUnderfoot(c, w, w.players.order, maturity, spawnAt, now);
  }

  /**
   * The public-good bonus is the last inspected item's public good times
   * the number of items eaten, paid to every player, whether or not that
   * item was itself eaten.
   */
  lemma PublicGoodFromLastInspected(f: Feast, k: string)
    ensures var r := Finish(f);
      r.players.entries.Keys == f.w.players.entries.Keys && r.items == f.w.items &&
      (k in f.w.players.entries ==>
        r.players.entries[k] == Gained(f.w.players.entries[k],
          if f.eaten > 0 && f.last.Some? then f.last.value.config.publicGood * f.eaten as real else 0.0))
  {
    if k in f.w.players.entries {
      var p := f.w.players.entries[k];
      if f.eaten > 0 && f.last.Some? {
        if Share(f.last.value, f.eaten) == 0.0 {
          GainedNothing(p);
        }
      } else {
        GainedNothing(p);
      }
    }
  }

  lemma GainedNothing(p: Player)
    ensures Gained(p, 0.0) == p
  {
  }

  // ---------------------------------------------------------------------
  // Replenishment

  /**
   * What `replenish_items` does for a type `delta` items short of its
   * target (negative when over it): how many items to spawn and how many
   * random picks to remove. Spawning needs `delta > 1`; otherwise a
   * nonzero delta culls when the type limits its quantity, so a type one
   * item short loses an item.
   */
  function ReplenishPlanAsWritten(delta: int, limitQuantity: bool): (nat, nat) {
    if delta > 1 then (delta, 0)
    else if limitQuantity then (0, Abs(delta))
    else (0, 0)
  }

  /** The plan evidently intended: spawn the shortfall, cull the excess when the quantity is limited. */
  function ReplenishPlan(delta: int, limitQuantity: bool): (plan: (nat, nat))
    ensures plan.0 > 0 ==> plan.1 == 0
    ensures delta >= 0 ==> plan == (delta, 0)
    ensures delta < 0 ==> plan == (0, if limitQuantity then -delta else 0)
  {
    if delta > 0 then (delta, 0)
    else if limitQuantity then (0, Abs(delta))
    else (0, 0)
  }

  /** With the intended plan a limited type lands on its target: spawns minus removals is the delta. */
  lemma PlanReachesTarget(delta: int)
    ensures var (add, remove) := ReplenishPlan(delta, true); add - remove == delta
  {
  }

  /** As written, a limited type one item short has one item removed instead of one spawned. */
  lemma OneShortIsCulled()
    ensures ReplenishPlanAsWritten(1, true) == (0, 1)
    ensures ReplenishPlan(1, true) == (1, 0)
  {
  }

  /** The two plans differ only for a shortfall of exactly one. */
  lemma PlansAgreeElsewhere(delta: int, limitQuantity: bool)
    requires delta != 1
    ensures ReplenishPlanAsWritten(delta, limitQuantity) == ReplenishPlan(delta, limitQuantity)
  {
  }

  /** `spawn_item(item_id=...)` `n` times; `spawnAt(i)` is the position drawn for the `i`-th. The first error stops it. */
  function Grow(c: Config, w: World, itemId: string, spawnAt: nat -> Pos, n: nat, now: real): (World, Option<string>) {
    if n == 0 then (w, None)
    else
      var (w1, e) := Grow(c, w, itemId, spawnAt, n - 1, now);
      if e.Some? then (w1, e)
      else match SpawnedAt(c, w1, spawnAt(n - 1), itemId, now)
        case Err(e1) => (w1, Some(e1))
        case Ok(w2) => (w2, None)
  }

  /** One removal: `chosen` leaves the grid unless it is carried or already gone. */
  function Uproot(w: World, chosen: Item): World {
    if chosen.position.Some? && chosen.position.value in w.items.entries then
      w.(items := Del(w.items, chosen.position.value).value, itemsUpdated := true)
    else w
  }

  /**
   * `n` removals of a random item from `ofType`, the type's items when the
   * call began; `pick(i)` is the index the `i`-th `random.choice` draws,
   * reduced modulo the list's length. An empty list raises `IndexError`;
   * an item already gone leaves the grid as it is.
   */
  function Cull(w: World, ofType: seq<Item>, pick: nat -> nat, n: nat): (World, Option<string>) {
    if n == 0 then (w, None)
    else
      var (w1, e) := Cull(w, ofType, pick, n - 1);
      if e.Some? then (w1, e)
      else if ofType == [] then (w1, Some("IndexError"))
      else (Uproot(w1, ofType[pick(n - 1) % |ofType|]), None)
  }

  /** `max(min(x, rows * columns), 0)` */
  function Clamp(x: real, cells: int): (r: real)
    ensures 0.0 <= r && (cells >= 0 ==> r <= cells as real)
    ensures 0.0 <= x && (x <= cells as real) ==> r == x
  {
    var m := if x < cells as real then x else cells as real;
    if m > 0.0 then m else 0.0
  }

  /** The items of the grid whose type is `itemId`, in the grid's order. */
  function OfType(items: seq<Item>, itemId: string): (r: seq<Item>)
    ensures |r| <= |items|
    ensures forall j :: 0 <= j < |r| ==> ItemId(r[j]) == itemId && r[j] in items
  {
    if items == [] then [] else
      var rest := OfType(items[1..], itemId);
      if ItemId(items[0]) == itemId then [items[0]] + rest else rest
  }

  /**
   * `replenish_items` for one item type `key`: the type's new
   * `item_count` is `grown` (the previous count times the spawn rate and
   * the seasonal growth, rounded to 5 places) clamped to the grid's size;
   * `plan` decides what to do about the difference between its rounding
   * and the number of the type's items when the call began.
   */
  function ReplenishType(c: Config, w: World, key: string, ofType: seq<Item>, grown: real,
                         spawnAt: nat -> Pos, pick: nat -> nat, now: real, plan: (int, bool) -> (nat, nat)): (World, Option<string>)
    requires key in c.itemConfig.entries
  {
    var t := c.itemConfig.entries[key];
    var target := Clamp(grown, c.rows * c.columns);
    var w1 := w.(counts := w.counts[key := target]);
    Adjust(c, w1, t.itemId, ofType, spawnAt, pick, now, plan(Maze.RoundHalfEven(target) - |ofType|, t.limitQuantity))
  }

  /** The planned `(add, remove)` step carried out: growth when there is something to add, else culling. */
  function Adjust(c: Config, w: World, itemId: string, ofType: seq<Item>, spawnAt: nat -> Pos, pick: nat -> nat, now: real,
                  step: (nat, nat)): (World, Option<string>)
  {
    if step.0 > 0 then Grow(c, w, itemId, spawnAt, step.0, now) else Cull(w, ofType, pick, step.1)
  }

  /** Every name in `types` is a configured item type (stated by recursion, so that it unfolds only on demand). */
  predicate Configured(c: Config, types: seq<string>)
    decreases |types|
  {
    types == [] || (types[|types| - 1] in c.itemConfig.entries && Configured(c, types[..|types| - 1]))
  }

  lemma {:induction false} ConfiguredPrefix(c: Config, types: seq<string>, m: nat)
    requires Configured(c, types) && m <= |types|
    ensures Configured(c, types[..m])
    decreases |types|
  {
    if m < |types| {
      var n := |types| - 1;
      ConfiguredPrefix(c, types[..n], m);
      assert types[..n][..m] == types[..m];
    } else {
      assert types[..m] == types;
    }
  }

  /** The configuration's own order names configured types only. */
  lemma ConfiguredOrder(c: Config)
    ensures Configured(c, c.itemConfig.order)
  {
    InOrderAll(c.itemConfig);
    ConfiguredUpTo(c, c.itemConfig.order, |c.itemConfig.order|);
    assert c.itemConfig.order[..|c.itemConfig.order|] == c.itemConfig.order;
  }

  lemma {:induction false} ConfiguredUpTo(c: Config, types: seq<string>, m: nat)
    requires m <= |types| && forall k :: k in types ==> k in c.itemConfig.entries
    ensures Configured(c, types[..m])
  {
    if m > 0 {
      ConfiguredUpTo(c, types, m - 1);
      assert types[m - 1] in types;
      assert types[..m][..m - 1] == types[..m - 1];
    }
  }

  /**
   * `replenish_items()`: the item types in configuration order, each with
   * its own draws; the first exception stops the call with the grid as it
   * is then.
   */
  function ReplenishOver(c: Config, w: World, types: seq<string>, snapshot: seq<Item>, grown: nat -> real,
                         spawnAt: nat -> nat -> Pos, pick: nat -> nat -> nat, now: real, plan: (int, bool) -> (nat, nat)): (World, Option<string>)
    requires Configured(c, types)
  {
    if types == [] then (w, None)
    else
      var n := |types| - 1;
      var (w1, e) := ReplenishOver(c, w, types[..n], snapshot, grown, spawnAt, pick, now, plan);
      if e.Some? then (w1, e)
      else ReplenishType(c, w1, types[n], OfType(snapshot, c.itemConfig.entries[types[n]].itemId), grown(n),
                         spawnAt(n), pick(n), now, plan)
  }

  function Replenished(c: Config, w: World, grown: nat -> real, spawnAt: nat -> nat -> Pos, pick: nat -> nat -> nat,
                       now: real, plan: (int, bool) -> (nat, nat)): (World, Option<string>) {
    ConfiguredOrder(c);
    ReplenishOver(c, w, c.itemConfig.order, Values(w.items), grown, spawnAt, pick, now, plan)
  }

  /** `b` differs from `a` at most in its items, its flag and the item counts. */
  predicate OnlyItems(a: World, b: World) {
    b.players == a.players && b.walls == a.walls && b.consumed == a.consumed
  }

  /** An item `b` holds that `a` held at the same cell. */
  predicate SubItems(a: World, b: World) {
    forall p :: p in b.items.entries ==> p in a.items.entries && b.items.entries[p] == a.items.entries[p]
  }

  lemma UprootShrinks(w: World, chosen: Item)
    ensures var r := Uproot(w, chosen);
      OnlyItems(w, r) && r.counts == w.counts && SubItems(w, r) && Size(r.items) <= Size(w.items)
  {
    if chosen.position.Some? && chosen.position.value in w.items.entries {
      DelSize(w.items, chosen.position.value);
    }
  }

  /** Culling never adds an item and touches nothing but the items and the flag. */
  lemma {:induction false} CullShrinks(w: World, ofType: seq<Item>, pick: nat -> nat, n: nat)
    ensures var r := Cull(w, ofType, pick, n).0;
      OnlyItems(w, r) && r.counts == w.counts && SubItems(w, r) && Size(r.items) <= Size(w.items)
  {
    if n > 0 {
      CullShrinks(w, ofType, pick, n - 1);
      var (w1, e) := Cull(w, ofType, pick, n - 1);
      if e.None? && ofType != [] {
        UprootShrinks(w1, ofType[pick(n - 1) % |ofType|]);
      }
    }
  }

  /** One spawn touches nothing but the items and the flag, and adds one item exactly when the cell was free. */
  lemma SpawnAdds(c: Config, w: World, position: Pos, itemId: string, now: real)
    requires SpawnedAt(c, w, position, itemId, now).Ok?
    ensures var r := SpawnedAt(c, w, position, itemId, now).value;
      OnlyItems(w, r) && r.counts == w.counts && Size(r.items) == Size(w.items) + (if position in w.items.entries then 0 else 1)
  {
    SpawnResult(c, w, position, itemId, now);
    SpawnStores(c, w, position, itemId, now, position);
  }

  /** Growing touches nothing but the items and the flag, and adds at most one item per spawn. */
  lemma {:induction false} GrowAdds(c: Config, w: World, itemId: string, spawnAt: nat -> Pos, n: nat, now: real)
    ensures var r := Grow(c, w, itemId, spawnAt, n, now).0;
      OnlyItems(w, r) && r.counts == w.counts && Size(r.items) <= Size(w.items) + n
  {
    if n > 0 {
      GrowAdds(c, w, itemId, spawnAt, n - 1, now);
      var (w1, e) := Grow(c, w, itemId, spawnAt, n - 1, now);
      if e.Some? {
        assert Grow(c, w, itemId, spawnAt, n, now).0 == w1;
      } else {
        var s := SpawnedAt(c, w1, spawnAt(n - 1), itemId, now);
        if s.Ok? {
          SpawnAdds(c, w1, spawnAt(n - 1), itemId, now);
          assert Grow(c, w, itemId, spawnAt, n, now).0 == s.value;
        } else {
          assert Grow(c, w, itemId, spawnAt, n, now).0 == w1;
        }
      }
    }
  }

  /** Each of the first `n` drawn cells is free when its spawn comes. */
  predicate FreeAlong(c: Config, w: World, itemId: string, spawnAt: nat -> Pos, n: nat, now: real) {
    n == 0 || (FreeAlong(c, w, itemId, spawnAt, n - 1, now) && spawnAt(n - 1) !in Grow(c, w, itemId, spawnAt, n - 1, now).0.items.entries)
  }

  /**
   * Each spawn into a free cell adds exactly one item: when every drawn
   * cell is free at its turn (as `_find_empty_position` guarantees), a
   * successful growth by `n` adds exactly `n` items.
   */
  lemma {:induction false} GrowIntoFreeCells(c: Config, w: World, itemId: string, spawnAt: nat -> Pos, n: nat, now: real)
    requires FreeAlong(c, w, itemId, spawnAt, n, now)
    ensures var (r, e) := Grow(c, w, itemId, spawnAt, n, now);
      e.None? ==> Size(r.items) == Size(w.items) + n
  {
    if n > 0 {
      GrowIntoFreeCells(c, w, itemId, spawnAt, n - 1, now);
      var (w1, e) := Grow(c, w, itemId, spawnAt, n - 1, now);
      if e.None? && SpawnedAt(c, w1, spawnAt(n - 1), itemId, now).Ok? {
        SpawnAdds(c, w1, spawnAt(n - 1), itemId, now);
      }
    }
  }

  /** One type's turn records the clamped count, then changes only the items and the flag. */
  lemma ReplenishTypeAdjusts(c: Config, w: World, key: string, ofType: seq<Item>, grown: real,
                             spawnAt: nat -> Pos, pick: nat -> nat, now: real, plan: (int, bool) -> (nat, nat))
    requires key in c.itemConfig.entries
    ensures var r := ReplenishType(c, w, key, ofType, grown, spawnAt, pick, now, plan).0;
      OnlyItems(w, r) && r.counts == w.counts[key := Clamp(grown, c.rows * c.columns)]
  {
    var t := c.itemConfig.entries[key];
    var target := Clamp(grown, c.rows * c.columns);
    AdjustKeeps(c, w.(counts := w.counts[key := target]), t.itemId, ofType, spawnAt, pick, now,
                plan(Maze.RoundHalfEven(target) - |ofType|, t.limitQuantity));
  }

  /** Growing or culling changes only the items and the flag. */
  lemma AdjustKeeps(c: Config, w: World, itemId: string, ofType: seq<Item>, spawnAt: nat -> Pos, pick: nat -> nat, now: real,
                    step: (nat, nat))
    ensures var r := Adjust(c, w, itemId, ofType, spawnAt, pick, now, step).0;
      OnlyItems(w, r) && r.counts == w.counts
  {
    if step.0 > 0 {
      GrowAdds(c, w, itemId, spawnAt, step.0, now);
    } else {
      CullShrinks(w, ofType, pick, step.1);
    }
  }

  /** One type's turn touches nothing but the items, the flag and the counts. */
  lemma ReplenishTypeKeeps(c: Config, w: World, key: string, ofType: seq<Item>, grown: real,
                           spawnAt: nat -> Pos, pick: nat -> nat, now: real, plan: (int, bool) -> (nat, nat))
    requires key in c.itemConfig.entries
    ensures OnlyItems(w, ReplenishType(c, w, key, ofType, grown, spawnAt, pick, now, plan).0)
  {
    ReplenishTypeAdjusts(c, w, key, ofType, grown, spawnAt, pick, now, plan);
  }

  /** Replenishing never touches the players, the walls or the consumed items. */
  lemma {:induction false} ReplenishKeepsPlayers(c: Config, w: World, types: seq<string>, snapshot: seq<Item>, grown: nat -> real,
                                                  spawnAt: nat -> nat -> Pos, pick: nat -> nat -> nat, now: real, plan: (int, bool) -> (nat, nat))
    requires Configured(c, types)
    ensures OnlyItems(w, ReplenishOver(c, w, types, snapshot, grown, spawnAt, pick, now, plan).0)
  {
    if types != [] {
      var n := |types| - 1;
      ReplenishKeepsPlayers(c, w, types[..n], snapshot, grown, spawnAt, pick, now, plan);
      var (w1, e) := ReplenishOver(c, w, types[..n], snapshot, grown, spawnAt, pick, now, plan);
      if e.None? {
        ReplenishTypeKeeps(c, w1, types[n], OfType(snapshot, c.itemConfig.entries[types[n]].itemId), grown(n),
                           spawnAt(n), pick(n), now, plan);
      }
    }
  }

  /** The count `replenish_items` records for a type lies between 0 and the number of cells. */
  lemma ReplenishTypeCount(c: Config, w: World, key: string, ofType: seq<Item>, grown: real,
                           spawnAt: nat -> Pos, pick: nat -> nat, now: real, plan: (int, bool) -> (nat, nat))
    requires key in c.itemConfig.entries && c.rows >= 0 && c.columns >= 0
    ensures var r := ReplenishType(c, w, key, ofType, grown, spawnAt, pick, now, plan).0;
      key in r.counts && 0.0 <= r.counts[key] <= (c.rows * c.columns) as real &&
      (0.0 <= grown <= (c.rows * c.columns) as real ==> r.counts[key] == grown)
  {
    ReplenishTypeAdjusts(c, w, key, ofType, grown, spawnAt, pick, now, plan);
  }

  // ---------------------------------------------------------------------
  // Contagion

  /** The colours player `key` sees: its neighbours' within `d`, in dictionary order, then its own. */
  function Seen(players: Dict<string, Player>, key: string, d: int): (cs: seq<string>)
    requires key in players.entries
    ensures |cs| == |Neighbors(players, key, d)| + 1 && cs[|cs| - 1] == players.entries[key].color
  {
    var ns := Neighbors(players, key, d);
    seq(|ns|, j requires 0 <= j < |ns| => players.entries[ns[j]].color) + [players.entries[key].color]
  }

  /**
   * The colour `spread_contagion` gives player `key`, if any: the first
   * colour of largest count among those it sees, when it holds a strict
   * majority of them. The grid's `rank` is 1 for every colour (a
   * configured hierarchy makes the grid's constructor fail), so the
   * hierarchy test always passes.
   */
  function Spread(players: Dict<string, Player>, key: string, d: int): Option<string>
    requires key in players.entries
  {
    if Neighbors(players, key, d) == [] then None
    else
      var cs := Seen(players, key, d);
      var plurality := LegacyGrid.Plurality(cs);
      if 2 * LegacyGrid.Count(cs, plurality) > |cs| then Some(plurality) else None
  }

  /** A player picks up exactly a colour holding a strict majority of what it sees with at least one neighbour. */
  lemma SpreadMeaning(players: Dict<string, Player>, key: string, d: int, color: string)
    requires key in players.entries
    ensures Spread(players, key, d) == Some(color) <==>
      Neighbors(players, key, d) != [] && 2 * LegacyGrid.Count(Seen(players, key, d), color) > |Seen(players, key, d)|
  {
    var cs := Seen(players, key, d);
    if Neighbors(players, key, d) != [] && 2 * LegacyGrid.Count(cs, color) > |cs| {
      LegacyGrid.MajorityIsPlurality(cs, color);
    }
  }

  /** The `(key, colour)` pairs the first loop of `spread_contagion` collects over `keys`, all read from `players`. */
  function Updates(players: Dict<string, Player>, d: int, keys: seq<string>): (us: seq<(string, string)>)
    requires forall j :: 0 <= j < |keys| ==> keys[j] in players.entries
    ensures forall j :: 0 <= j < |us| ==> us[j].0 in keys
  {
    if keys == [] then []
    else
      var n := |keys| - 1;
      var us := Updates(players, d, keys[..n]);
      assert forall j :: 0 <= j < n ==> keys[..n][j] == keys[j];
      match Spread(players, keys[n], d)
        case None => us
        case Some(c) => us + [(keys[n], c)]
  }

  /** The second loop: `player.color = color` for each collected pair, in order. */
  function Recolor(players: Dict<string, Player>, us: seq<(string, string)>): (r: Dict<string, Player>)
    ensures r.order == players.order && r.entries.Keys == players.entries.Keys
  {
    if us == [] then players
    else
      var ps := Recolor(players, us[..|us| - 1]);
      var (k, c) := us[|us| - 1];
      if k in ps.entries then Set(ps, k, ps.entries[k].(color := c)) else ps
  }

  /** `spread_contagion()` on the grid's players, with `contagion` as the distance. */
  function SpreadContagion(players: Dict<string, Player>, d: int): Dict<string, Player> {
    Recolor(players, AllUpdates(players, d))
  }

  /** The colours collected over all players, in the players' order. */
  function AllUpdates(players: Dict<string, Player>, d: int): seq<(string, string)> {
    InOrderAll(players);
    Updates(players, d, players.order)
  }

  /** The colour `spread_contagion` leaves on a player that started with `p`. */
  function Recolored(p: Player, spread: Option<string>): Player {
    if spread.Some? then p.(color := spread.value) else p
  }

  /** Over distinct keys, each player takes the colour collected for it from the state before the loop, and nothing else changes. */
  lemma {:induction false} RecolorUpdates(players: Dict<string, Player>, d: int, keys: seq<string>, k: string)
    requires Distinct(keys) && forall j :: 0 <= j < |keys| ==> keys[j] in players.entries
    requires k in players.entries
    ensures Recolor(players, Updates(players, d, keys)).entries[k] ==
      (if k in keys then Recolored(players.entries[k], Spread(players, k, d)) else players.entries[k])
  {
    if keys != [] {
      var n := |keys| - 1;
      var ks := keys[..n];
      assert Distinct(ks) by {
        assert forall a, b :: 0 <= a < b < n ==> ks[a] == keys[a] && ks[b] == keys[b];
      }
      RecolorUpdates(players, d, ks, k);
      RecolorUpdates(players, d, ks, keys[n]);
      assert keys[n] !in ks;
      assert k in keys <==> k in ks || k == keys[n];
      var us := Updates(players, d, ks);
      match Spread(players, keys[n], d)
        case None =>
        case Some(c) =>
          assert (us + [(keys[n], c)])[..|us|] == us;
    }
  }

  /**
   * After `spread_contagion()` every player has the colour `Spread` gives
   * it, computed from the colours before the call: a colour that changes
   * in the pass does not spread further in the same pass. Only `color`
   * changes; the colour index and name stay as they were.
   */
  lemma SpreadContagionMeaning(players: Dict<string, Player>, d: int, k: string)
    requires k in players.entries
    ensures var r := SpreadContagion(players, d);
      r.order == players.order && k in r.entries &&
      r.entries[k] == Recolored(players.entries[k], Spread(players, k, d))
  {
    InOrderAll(players);
    InOrder(players, k);
    Wf(players);
    RecolorUpdates(players, d, players.order, k);
  }

  // ---------------------------------------------------------------------
  // Movement

  /**
   * How `player.move` ends without an exception the grid does not catch:
   * nothing done while movement is disabled, an `IllegalMove` with its
   * message, or the moved direction with the wall built on the way.
   */
  datatype MoveReply = MoveSkipped | IllegalMove(message: string) | Moved(direction: string, wall: Option<Maze.Wall>)

  const TooSoon := "Minimum wait time has not passed since last move!"
  const TooPoor := "Not enough points to move right now!"

  /** `"Position {} not open!"` for the target list. */
  function NotOpen(target: Pos): string {
    "Position " + ShowPosition(target) + " not open!"
  }

  /**
   * Whether the player waited long enough: always with no speed limit;
   * else `1 / motion_speed_limit` since the last move, measured on the
   * client's timestamp when one is given and on the round clock otherwise.
   */
  predicate WaitedLongEnough(p: Player, elapsed: real, timestamp: Option<real>) {
    if p.motionSpeedLimit <= 0.0 then true
    else if timestamp.None? then elapsed > p.motionTimestamp + 1.0 / p.motionSpeedLimit
    else timestamp.value > p.lastTimestamp + 1.0 / p.motionSpeedLimit
  }

  /** The direction actually taken: trembled when the roll falls under the rate (`tremble` raises `ValueError` for a word it does not know). */
  function Heading(direction: string, roll: real, rate: real, choice: nat): (r: Result<string>)
    requires choice < 3
    ensures r.Err? <==> roll < rate && direction !in LegacyGrid.Directions
    ensures roll >= rate ==> r == Ok(direction)
  {
    if roll < rate then LegacyGrid.Tremble(direction, choice) else Ok(direction)
  }

  /** The mover after a move to `target`: the round clock and, for a nonzero timestamp, the client clock recorded, the cost paid. */
  function Stepped(p: Player, target: Pos, elapsed: real, timestamp: Option<real>): Player {
    p.(position := target, motionTimestamp := elapsed,
       lastTimestamp := if timestamp.Some? && timestamp.value != 0.0 then timestamp.value else p.lastTimestamp,
       score := p.score - p.motionCost, addWall := None)
  }

  /**
   * The move of the player at `key` once its direction `dir` is settled:
   * the direction is recorded before any check, so an illegal move still
   * turns the player.
   */
  function Attempt(c: Config, w: World, key: string, dir: string, timestamp: Option<real>, now: real): (World, MoveReply)
    requires key in w.players.entries
  {
    var player := w.players.entries[key];
    var turned := player.(motionDirection := dir);
    var w1 := w.(players := Set(w.players, key, turned));
    var target := LegacyGrid.Target(player.position, dir, c.rows, c.columns);
    var elapsed := ElapsedRoundTime(w.start, now);
    if !WaitedLongEnough(player, elapsed, timestamp) then (w1, IllegalMove(TooSoon))
    else if player.score < player.motionCost then (w1, IllegalMove(TooPoor))
    else if !CanOccupy(c.playerOverlap, w, target) then (w1, IllegalMove(NotOpen(target)))
    else
      var w2 := w.(players := Set(w.players, key, Stepped(turned, target, elapsed, timestamp)));
      match player.addWall
        case None => (w2, Moved(dir, None))
        case Some(q) =>
          var wall := Maze.NewWall(q);
          (w2.(walls := Set(w.walls, q, wall)), Moved(dir, Some(wall)))
  }

  /**
   * `players[key].move(direction, tremble_rate, timestamp)` at time `now`.
   * `roll` is `random.random()` and `choice` the index `tremble` draws.
   */
  function Move(c: Config, w: World, key: string, direction: string, roll: real, choice: nat,
                trembleRate: Option<real>, timestamp: Option<real>, now: real): Result<(World, MoveReply)>
    requires key in w.players.entries && choice < 3
  {
    if !MovementEnabled(c, w.round) then Ok((w, MoveSkipped))
    else match Heading(direction, roll, Or(trembleRate, w.players.entries[key].motionTrembleRate), choice)
      case Err(e) => Err(e)
      case Ok(dir) => Ok(Attempt(c, w, key, dir, timestamp, now))
  }

  /** While movement is disabled a move does nothing at all. */
  lemma MoveDisabled(c: Config, w: World, key: string, direction: string, roll: real, choice: nat,
                     trembleRate: Option<real>, timestamp: Option<real>, now: real)
    requires key in w.players.entries && choice < 3 && !MovementEnabled(c, w.round)
    ensures Move(c, w, key, direction, roll, choice, trembleRate, timestamp, now) == Ok((w, MoveSkipped))
  {
  }

  /** A move raises only when it trembles away from a word that is not a direction. */
  lemma MoveRaises(c: Config, w: World, key: string, direction: string, roll: real, choice: nat,
                   trembleRate: Option<real>, timestamp: Option<real>, now: real)
    requires key in w.players.entries && choice < 3
    ensures Move(c, w, key, direction, roll, choice, trembleRate, timestamp, now).Err? <==>
      MovementEnabled(c, w.round) && roll < Or(trembleRate, w.players.entries[key].motionTrembleRate) &&
      direction !in LegacyGrid.Directions
  {
  }

  /**
   * An illegal move changes only the player's direction, and its message
   * names the first failed test: the wait, then the cost, then the target
   * cell.
   */
  lemma MoveRefused(c: Config, w: World, key: string, direction: string, roll: real, choice: nat,
                    trembleRate: Option<real>, timestamp: Option<real>, now: real)
    requires key in w.players.entries && choice < 3
    requires Move(c, w, key, direction, roll, choice, trembleRate, timestamp, now).Ok?
    requires Move(c, w, key, direction, roll, choice, trembleRate, timestamp, now).value.1.IllegalMove?
    ensures var (r, reply) := Move(c, w, key, direction, roll, choice, trembleRate, timestamp, now).value;
      var player := w.players.entries[key];
      var dir := Heading(direction, roll, Or(trembleRate, player.motionTrembleRate), choice).value;
      var waited := WaitedLongEnough(player, ElapsedRoundTime(w.start, now), timestamp);
      r == w.(players := Set(w.players, key, player.(motionDirection := dir))) &&
      (reply.message == TooSoon <==> !waited) &&
      (reply.message == TooPoor <==> waited && player.score < player.motionCost) &&
      (reply.message == NotOpen(LegacyGrid.Target(player.position, dir, c.rows, c.columns)) <==>
        waited && player.score >= player.motionCost)
  {
    var player := w.players.entries[key];
    var dir := Heading(direction, roll, Or(trembleRate, player.motionTrembleRate), choice).value;
    NotOpenDiffers(LegacyGrid.Target(player.position, dir, c.rows, c.columns));
  }

  /** The three messages are distinct. */
  lemma NotOpenDiffers(p: Pos)
    ensures NotOpen(p) != TooSoon && NotOpen(p) != TooPoor && TooSoon != TooPoor
  {
    var n := NotOpen(p);
    assert n[|n| - 2] == 'n' by {
      assert n == ("Position " + ShowPosition(p)) + " not open!";
    }
    assert TooSoon[|TooSoon| - 2] == 'e' && TooPoor[|TooPoor| - 2] == 'w';
  }

  /**
   * A move that succeeds puts the player on the target cell, pays exactly
   * the motion cost out of a score that covered it, builds the pending
   * wall (if any) and leaves the items and the other players alone.
   */
  lemma MoveSucceeds(c: Config, w: World, key: string, direction: string, roll: real, choice: nat,
                     trembleRate: Option<real>, timestamp: Option<real>, now: real, other: string)
    requires key in w.players.entries && choice < 3
    requires Move(c, w, key, direction, roll, choice, trembleRate, timestamp, now).Ok?
    requires Move(c, w, key, direction, roll, choice, trembleRate, timestamp, now).value.1.Moved?
    ensures var (r, reply) := Move(c, w, key, direction, roll, choice, trembleRate, timestamp, now).value;
      var player := w.players.entries[key];
      var target := LegacyGrid.Target(player.position, reply.direction, c.rows, c.columns);
      key in r.players.entries && r.players.order == w.players.order &&
      r.players.entries[key].position == target && CanOccupy(c.playerOverlap, w, target) &&
      r.players.entries[key].score == player.score - player.motionCost && r.players.entries[key].score >= 0.0 &&
      r.players.entries[key].addWall.None? && r.items == w.items &&
      (player.addWall.None? ==> r.walls == w.walls && reply.wall.None?) &&
      (player.addWall.Some? ==> r.walls == Set(w.walls, player.addWall.value, Maze.NewWall(player.addWall.value)) &&
                                reply.wall == Some(Maze.NewWall(player.addWall.value))) &&
      (other != key && other in w.players.entries ==> r.players.entries[other] == w.players.entries[other])
  {
  }

  /** A player inside the grid stays inside, at most one step from where it was. */
  lemma AttemptStaysInside(c: Config, w: World, key: string, dir: string, timestamp: Option<real>, now: real)
    requires key in w.players.entries
    requires 0 <= w.players.entries[key].position.row < c.rows && 0 <= w.players.entries[key].position.col < c.columns
    ensures var r := Attempt(c, w, key, dir, timestamp, now).0;
      key in r.players.entries &&
      var q := r.players.entries[key].position;
      0 <= q.row < c.rows && 0 <= q.col < c.columns && Manhattan(w.players.entries[key].position, q) <= 1
  {
    var player := w.players.entries[key];
    var target := LegacyGrid.Target(player.position, dir, c.rows, c.columns);
    TargetInside(player.position, dir, c.rows, c.columns);
    var r := Attempt(c, w, key, dir, timestamp, now).0;
    var turned := player.(motionDirection := dir);
    var elapsed := ElapsedRoundTime(w.start, now);
    if !WaitedLongEnough(player, elapsed, timestamp) || player.score < player.motionCost || !CanOccupy(c.playerOverlap, w, target) {
      assert r.players == Set(w.players, key, turned);
    } else {
      assert r.players == Set(w.players, key, Stepped(turned, target, elapsed, timestamp));
    }
  }

  lemma MoveStaysInside(c: Config, w: World, key: string, direction: string, roll: real, choice: nat,
                        trembleRate: Option<real>, timestamp: Option<real>, now: real)
    requires key in w.players.entries && choice < 3
    requires 0 <= w.players.entries[key].position.row < c.rows && 0 <= w.players.entries[key].position.col < c.columns
    requires Move(c, w, key, direction, roll, choice, trembleRate, timestamp, now).Ok?
    ensures var r := Move(c, w, key, direction, roll, choice, trembleRate, timestamp, now).value.0;
      key in r.players.entries &&
      var q := r.players.entries[key].position;
      0 <= q.row < c.rows && 0 <= q.col < c.columns && Manhattan(w.players.entries[key].position, q) <= 1
  {
    if MovementEnabled(c, w.round) {
      var dir := Heading(direction, roll, Or(trembleRate, w.players.entries[key].motionTrembleRate), choice).value;
      AttemptStaysInside(c, w, key, dir, timestamp, now);
    }
  }

  lemma TargetInside(p: Pos, direction: string, rows: int, columns: int)
    requires 0 <= p.row < rows && 0 <= p.col < columns
    ensures var q := LegacyGrid.Target(p, direction, rows, columns);
      0 <= q.row < rows && 0 <= q.col < columns && Manhattan(p, q) <= 1
  {
  }

  /**
   * A move against the edge of the grid targets the player's own cell:
   * without overlap that cell counts as occupied, so the move is refused
   * as "not open"; with overlap it succeeds in place and still costs the
   * motion cost.
   */
  lemma MoveAgainstEdge(c: Config, w: World, key: string, timestamp: Option<real>, now: real)
    requires key in w.players.entries && MovementEnabled(c, w.round)
    requires w.players.entries[key].position.row == 0 && w.players.entries[key].position !in w.walls.entries
    requires WaitedLongEnough(w.players.entries[key], ElapsedRoundTime(w.start, now), timestamp)
    requires w.players.entries[key].score >= w.players.entries[key].motionCost
    ensures var r := Move(c, w, key, "up", 1.0, 0, Some(0.0), timestamp, now);
      var player := w.players.entries[key];
      r.Ok? &&
      (!c.playerOverlap ==> r.value.1 == IllegalMove(NotOpen(player.position))) &&
      (c.playerOverlap ==> r.value.1.Moved? && r.value.0.players.entries[key].position == player.position &&
                           r.value.0.players.entries[key].score == player.score - player.motionCost)
  {
    assert Heading("up", 1.0, 0.0, 0) == Ok("up");
    assert Move(c, w, key, "up", 1.0, 0, Some(0.0), timestamp, now) == Ok(Attempt(c, w, key, "up", timestamp, now));
    AttemptAgainstEdge(c, w, key, timestamp, now);
  }

  lemma AttemptAgainstEdge(c: Config, w: World, key: string, timestamp: Option<real>, now: real)
    requires key in w.players.entries
    requires w.players.entries[key].position.row == 0 && w.players.entries[key].position !in w.walls.entries
    requires WaitedLongEnough(w.players.entries[key], ElapsedRoundTime(w.start, now), timestamp)
    requires w.players.entries[key].score >= w.players.entries[key].motionCost
    ensures var (r, reply) := Attempt(c, w, key, "up", timestamp, now);
      var player := w.players.entries[key];
      (!c.playerOverlap ==> reply == IllegalMove(NotOpen(player.position))) &&
      (c.playerOverlap ==> reply.Moved? && key in r.players.entries && r.players.entries[key].position == player.position &&
                           r.players.entries[key].score == player.score - player.motionCost)
  {
    var player := w.players.entries[key];
    var elapsed := ElapsedRoundTime(w.start, now);
    assert LegacyGrid.Target(player.position, "up", c.rows, c.columns) == player.position;
    if c.playerOverlap {
      assert CanOccupy(true, w, player.position);
      var turned := player.(motionDirection := "up");
      var r := w.players.entries[key := Stepped(turned, player.position, elapsed, timestamp)];
      assert Attempt(c, w, key, "up", timestamp, now).0.players.entries == r;
    } else {
      assert HasPlayer(w.players, player.position);
    }
  }
}
