/**
 * The game's `Gridworld` (experiment.py) as an object: its dictionaries of
 * players, walls and items, the consumed items, the round, the round's
 * start and the item counts are fields that its methods update in place,
 * loop by loop as the source does. Each method is proved to leave the
 * object in the state the matching rule of modules ExperimentWorld,
 * ExperimentState and ExperimentRules computes from the state before the
 * call, so every property proved of the rules holds of the object.
 */
module ExperimentGrid {
  import opened Base
  import opened Dicts
  import opened ExperimentItem
  import opened ExperimentPlayer
  import opened ExperimentWorld
  import opened ExperimentState
  import ExperimentRules
  import Maze
  import LegacyGrid

  // ---------------------------------------------------------------------
  // Early exits: an exception part-way through a loop is the outcome of
  // the whole loop.

  lemma {:induction false} DueChangesStop(c: Config, items: Dict<Pos, Item>, keys: seq<Pos>, now: real, created: real, i: nat)
    requires i < |keys| && forall j :: 0 <= j < |keys| ==> keys[j] in items.entries
    requires DueChanges(c, items, keys[..i], now, created).Ok? && DueChange(c, items, keys[i], now, created).Err?
    ensures DueChanges(c, items, keys, now, created) == Err(DueChange(c, items, keys[i], now, created).error)
  {
    var n := |keys| - 1;
    if i < n {
      assert keys[..n][..i] == keys[..i];
      DueChangesStop(c, items, keys[..n], now, created, i);
    } else {
      assert keys[..n] == keys[..i];
    }
  }

  lemma {:induction false} BuiltStop<S, V>(states: seq<S>, build: (S, nat) -> Result<V>, i: nat)
    requires i < |states| && Built(states[..i], build).1.None? && build(states[i], i).Err?
    ensures Built(states, build) == (Built(states[..i], build).0, Some(build(states[i], i).error))
  {
    var n := |states| - 1;
    if i < n {
      assert states[..n][..i] == states[..i];
      BuiltStop(states[..n], build, i);
    } else {
      assert states[..n] == states[..i];
    }
  }

  /** One more entry built in a `deserialize` loop. */
  lemma BuiltStep<S, V>(states: seq<S>, build: (S, nat) -> Result<V>, i: nat, built: seq<V>)
    requires i < |states| && Built(states[..i], build) == (built, None) && build(states[i], i).Ok?
    ensures Built(states[..i + 1], build) == (built + [build(states[i], i).value], None)
  {
    assert states[..i + 1][..i] == states[..i];
  }

  /** One more value stored in a fresh dictionary. */
  lemma InsertStep<K, V>(built: seq<V>, v: V, key: V -> K)
    ensures Insert(built + [v], key) == Set(Insert(built, key), key(v), v)
  {
    assert (built + [v])[..|built|] == built;
  }

  lemma {:induction false} ConsumeStop(c: Config, w: World, keys: seq<string>, maturity: Item -> real, spawnAt: nat -> Pos, now: real, i: nat)
    requires i < |keys| && ExperimentRules.ConsumeOver(c, w, keys[..i + 1], maturity, spawnAt, now).Raised?
    ensures ExperimentRules.ConsumeOver(c, w, keys, maturity, spawnAt, now) == ExperimentRules.ConsumeOver(c, w, keys[..i + 1], maturity, spawnAt, now)
  {
    var n := |keys| - 1;
    if i < n {
      assert keys[..n][..i + 1] == keys[..i + 1];
      ConsumeStop(c, w, keys[..n], maturity, spawnAt, now, i);
    } else {
      assert keys[..i + 1] == keys;
    }
  }

  /** One more player in the `consume` loop. */
  lemma ConsumeStep(c: Config, w: World, keys: seq<string>, maturity: Item -> real, spawnAt: nat -> Pos, now: real, i: nat,
                    f: ExperimentRules.Feast)
    requires i < |keys| && ExperimentRules.ConsumeOver(c, w, keys[..i], maturity, spawnAt, now) == ExperimentRules.Going(f)
    ensures ExperimentRules.ConsumeOver(c, w, keys[..i + 1], maturity, spawnAt, now) ==
      if keys[i] in f.w.players.entries then ExperimentRules.Visit(c, f, keys[i], maturity, spawnAt(i), now) else ExperimentRules.Going(f)
  {
    assert keys[..i + 1][..i] == keys[..i];
  }

  lemma {:induction false} GrowStop(c: Config, w: World, itemId: string, spawnAt: nat -> Pos, m: nat, n: nat, now: real)
    requires m <= n && ExperimentRules.Grow(c, w, itemId, spawnAt, m, now).1.Some?
    ensures ExperimentRules.Grow(c, w, itemId, spawnAt, n, now) == ExperimentRules.Grow(c, w, itemId, spawnAt, m, now)
  {
    if m < n {
      GrowStop(c, w, itemId, spawnAt, m, n - 1, now);
    }
  }

  lemma {:induction false} CullStop(w: World, ofType: seq<Item>, pick: nat -> nat, m: nat, n: nat)
    requires m <= n && ExperimentRules.Cull(w, ofType, pick, m).1.Some?
    ensures ExperimentRules.Cull(w, ofType, pick, n) == ExperimentRules.Cull(w, ofType, pick, m)
  {
    if m < n {
      CullStop(w, ofType, pick, m, n - 1);
    }
  }

  /** One more removal uproots the item the next draw picks. */
  lemma CullNext(w: World, ofType: seq<Item>, pick: nat -> nat, i: nat, v: World)
    requires ExperimentRules.Cull(w, ofType, pick, i) == (v, None) && ofType != []
    ensures ExperimentRules.Cull(w, ofType, pick, i + 1) == (ExperimentRules.Uproot(v, ofType[pick(i) % |ofType|]), None)
  {
  }

  /** The next type's turn starts from the grid the earlier types left. */
  lemma ReplenishNext(c: Config, w: World, types: seq<string>, t: nat, snapshot: seq<Item>, grown: nat -> real,
                      spawnAt: nat -> nat -> Pos, pick: nat -> nat -> nat, now: real, plan: (int, bool) -> (nat, nat), v: World)
    requires ExperimentRules.Configured(c, types) && t < |types| && ExperimentRules.Configured(c, types[..t])
    requires ExperimentRules.ReplenishOver(c, w, types[..t], snapshot, grown, spawnAt, pick, now, plan) == (v, None)
    ensures ExperimentRules.Configured(c, types[..t + 1]) && types[t] in c.itemConfig.entries
    ensures ExperimentRules.ReplenishOver(c, w, types[..t + 1], snapshot, grown, spawnAt, pick, now, plan) ==
      ExperimentRules.ReplenishType(c, v, types[t], ExperimentRules.OfType(snapshot, c.itemConfig.entries[types[t]].itemId),
                                    grown(t), spawnAt(t), pick(t), now, plan)
  {
    ExperimentRules.ConfiguredPrefix(c, types, t + 1);
    assert types[..t + 1][..t] == types[..t];
    assert types[..t + 1][t] == types[t];
  }

  /** An error in the turn of type `t` is the outcome of the whole replenishment. */
  lemma ReplenishEnds(c: Config, w: World, types: seq<string>, snapshot: seq<Item>, grown: nat -> real,
                      spawnAt: nat -> nat -> Pos, pick: nat -> nat -> nat, now: real, plan: (int, bool) -> (nat, nat), t: nat)
    requires ExperimentRules.Configured(c, types) && t < |types| && ExperimentRules.Configured(c, types[..t + 1])
    requires ExperimentRules.ReplenishOver(c, w, types[..t + 1], snapshot, grown, spawnAt, pick, now, plan).1.Some?
    ensures ExperimentRules.ReplenishOver(c, w, types, snapshot, grown, spawnAt, pick, now, plan) ==
      ExperimentRules.ReplenishOver(c, w, types[..t + 1], snapshot, grown, spawnAt, pick, now, plan)
  {
    if t + 1 < |types| {
      ReplenishStop(c, w, types, snapshot, grown, spawnAt, pick, now, plan, t);
    } else {
      assert types[..t + 1] == types;
    }
  }

  lemma {:induction false} ReplenishStop(c: Config, w: World, types: seq<string>, snapshot: seq<Item>, grown: nat -> real,
                                         spawnAt: nat -> nat -> Pos, pick: nat -> nat -> nat, now: real,
                                         plan: (int, bool) -> (nat, nat), t: nat)
    requires ExperimentRules.Configured(c, types) && t + 1 < |types| && ExperimentRules.Configured(c, types[..t + 1])
    requires ExperimentRules.ReplenishOver(c, w, types[..t + 1], snapshot, grown, spawnAt, pick, now, plan).1.Some?
    ensures ExperimentRules.ReplenishOver(c, w, types, snapshot, grown, spawnAt, pick, now, plan) ==
      ExperimentRules.ReplenishOver(c, w, types[..t + 1], snapshot, grown, spawnAt, pick, now, plan)
  {
    var n := |types| - 1;
    if t + 1 < n {
      var prefix := types[..n];
      assert prefix[..t + 1] == types[..t + 1];
      ExperimentRules.ConfiguredPrefix(c, types, n);
      ExperimentRules.ConfiguredPrefix(c, prefix, t + 1);
      ReplenishStop(c, w, prefix, snapshot, grown, spawnAt, pick, now, plan, t);
      ReplenishStopStep(c, w, types, n, snapshot, grown, spawnAt, pick, now, plan);
    } else {
      ReplenishStopStep(c, w, types, t + 1, snapshot, grown, spawnAt, pick, now, plan);
    }
  }

  /** An error before the last type: the last type is not replenished. */
  lemma ReplenishStopStep(c: Config, w: World, types: seq<string>, m: nat, snapshot: seq<Item>, grown: nat -> real,
                          spawnAt: nat -> nat -> Pos, pick: nat -> nat -> nat, now: real, plan: (int, bool) -> (nat, nat))
    requires ExperimentRules.Configured(c, types) && m + 1 == |types| && ExperimentRules.Configured(c, types[..m])
    requires ExperimentRules.ReplenishOver(c, w, types[..m], snapshot, grown, spawnAt, pick, now, plan).1.Some?
    ensures ExperimentRules.ReplenishOver(c, w, types, snapshot, grown, spawnAt, pick, now, plan) ==
      ExperimentRules.ReplenishOver(c, w, types[..m], snapshot, grown, spawnAt, pick, now, plan)
  {
    assert types[..m] == types[..|types| - 1];
  }

  /** One more player in the collecting loop of `spread_contagion`. */
  lemma UpdatesStep(players: Dict<string, Player>, d: int, keys: seq<string>, i: nat)
    requires i < |keys| && forall j :: 0 <= j < |keys| ==> keys[j] in players.entries
    ensures ExperimentRules.Updates(players, d, keys[..i + 1]) ==
      match ExperimentRules.Spread(players, keys[i], d)
        case None => ExperimentRules.Updates(players, d, keys[..i])
        case Some(c) => ExperimentRules.Updates(players, d, keys[..i]) + [(keys[i], c)]
  {
    assert keys[..i + 1][..i] == keys[..i];
  }

  // ---------------------------------------------------------------------

  class Gridworld {
    const config: Config
    var players: Dict<string, Player>
    var walls: Dict<Pos, Maze.Wall>
    var items: Dict<Pos, Item>
    var consumed: seq<Item>
    var round: int
    var start: Option<real>
    var counts: map<string, real>
    var itemsUpdated: bool

    /** The object's state as a value. */
    function State(): World
      reads this
    {
      World(players, walls, items, consumed, round, start, counts, itemsUpdated)
    }

    /** A grid with no players, walls or items, in round 0; `counts` are the configured `item_count`s. */
    constructor (config: Config, counts: map<string, real>, start: Option<real>)
      ensures this.config == config
      ensures State() == World(Empty(), Empty(), Empty(), [], 0, start, counts, false)
    {
      this.config := config;
      players := Empty();
      walls := Empty();
      items := Empty();
      consumed := [];
      round := 0;
      this.start := start;
      this.counts := counts;
      itemsUpdated := false;
    }

    /** `check_round_completion()` at time `now`. */
    method CheckRoundCompletion(now: real)
      modifies this
      ensures State() == CompleteRound(config, old(State()), now)
    {
      if start.None? || RemainingRoundTime(config, start, now) != 0.0 {
        return;
      }
      ghost var w := State();
      round := round + 1;
      assert State() == w.(round := w.round + 1);
      if GameOver(config, round) {
        return;
      }
      start := Some(now);
      if config.leaderboardIndividual || config.leaderboardGroup {
        start := Some(start.value + config.leaderboardTime);
      }
      assert start == Some(NextStart(config, now));
      ghost var started := State();
      assert started == w.(round := w.round + 1, start := Some(NextStart(config, now)));
      ResetMotionTimestamps();
      assert State() == started.(players := ResetMotion(w.players));
    }

    /** The loop that sets every player's `motion_timestamp` to 0. */
    method ResetMotionTimestamps()
      modifies this`players
      ensures players == ResetMotion(old(players))
    {
      ghost var before := players;
      var keys := players.order;
      MappedStart(before, Stopped);
      var i := 0;
      while i < |keys|
        invariant 0 <= i <= |keys| && MappedSoFar(before, players, Stopped, i)
      {
        var k := keys[i];
        MappedStep(before, players, Stopped, i);
        players := Set(players, k, Stopped(players.entries[k]));
        i := i + 1;
      }
      MappedDone(before, players, Stopped);
      assert players.entries == ResetMotion(before).entries;
    }

    /** `spawn_item(position, item_id)` with both chosen. */
    method SpawnItem(position: Pos, itemId: string, now: real) returns (error: Option<string>)
      modifies this
      ensures match SpawnedAt(config, old(State()), position, itemId, now)
        case Err(e) => error == Some(e) && State() == old(State())
        case Ok(w) => error.None? && State() == w
    {
      ghost var w := State();
      if itemId !in config.itemConfig.entries {
        return Some("KeyError");
      }
      var made := NewItem(config.itemConfig.entries[itemId], Size(items) + |consumed|, now, Some(position), None);
      if made.Err? {
        SpawnRefused(config, w, position, itemId, now);
        return Some(made.error);
      }
      assert SpawnedAt(config, w, position, itemId, now) == Ok(w.(items := Set(w.items, position, made.value), itemsUpdated := true));
      Store(position, made.value);
      return None;
    }

    /** `item_locations[position] = item`, which marks the items changed. */
    method Store(position: Pos, item: Item)
      modifies this`items, this`itemsUpdated
      ensures State() == old(State()).(items := Set(old(items), position, item), itemsUpdated := true)
    {
      items := Set(items, position, item);
      itemsUpdated := true;
    }

    /** The replacement of an eaten item: a respawn, or one fewer in the type's `item_count`. */
    method ReplaceItem(item: Item, spawnAt: Pos, now: real) returns (error: Option<string>)
      modifies this
      ensures match ExperimentRules.Replace(config, old(State()), item, spawnAt, now)
        case Err(e) => error == Some(e) && State() == old(State())
        case Ok(w) => error.None? && State() == w
    {
      ghost var w := State();
      if item.config.respawn {
        assert ExperimentRules.Replace(config, w, item, spawnAt, now) == SpawnedAt(config, w, spawnAt, ItemId(item), now);
        error := SpawnItem(spawnAt, ItemId(item), now);
        return;
      }
      if ItemId(item) !in config.itemConfig.entries || ItemId(item) !in counts {
        return Some("KeyError");
      }
      counts := counts[ItemId(item) := counts[ItemId(item)] - 1.0];
      return None;
    }

    /**
     * One pass of the `consume` loop, for the player at `k`, with `eaten`
     * items eaten so far and `last` the last item inspected.
     */
    method VisitPlayer(k: string, eaten: nat, last: Option<Item>, maturity: Item -> real, spawnAt: Pos, now: real)
      returns (eaten': nat, last': Option<Item>, error: Option<string>)
      requires k in players.entries
      modifies this
      ensures match ExperimentRules.Visit(config, ExperimentRules.Feast(old(State()), eaten, last), k, maturity, spawnAt, now)
        case Going(f) => error.None? && State() == f.w && eaten' == f.eaten && last' == f.last
        case Raised(w, e) => error == Some(e) && State() == w
    {
      ghost var f := ExperimentRules.Feast(State(), eaten, last);
      var player := players.entries[k];
      var p := player.position;
      if p !in items.entries {
        return eaten, last, None;
      }
      var item := items.entries[p];
      if !ExperimentRules.Edible(item, maturity) {
        return eaten, Some(item), None;
      }
      RemoveItem(p);
      ghost var removed := State();
      error := ReplaceItem(item, spawnAt, now);
      if error.Some? {
        assert ExperimentRules.Replace(config, removed, item, spawnAt, now) == Err(error.value);
        return eaten, last, error;
      }
      ghost var replaced := State();
      assert ExperimentRules.Replace(config, removed, item, spawnAt, now) == Ok(replaced);
      if player.colorIdx == 0 {
        return eaten, last, Some("AttributeError");
      }
      players := Set(players, k, ExperimentRules.Fed(player, item));
      assert State() == replaced.(players := Set(replaced.players, k, ExperimentRules.Fed(player, item)));
      return eaten + 1, Some(item), None;
    }

    /** The eaten item leaves its cell for the consumed items. */
    method RemoveItem(p: Pos)
      requires p in items.entries
      modifies this`items, this`consumed, this`itemsUpdated
      ensures State() == ExperimentRules.Removed(old(State()), p)
    {
      var item := items.entries[p];
      items := Del(items, p).value;
      consumed := consumed + [item];
      itemsUpdated := true;
    }

    /** `consume()`: every player in turn, then the public good. */
    method Consume(maturity: Item -> real, spawnAt: nat -> Pos, now: real) returns (error: Option<string>)
      modifies this
      ensures (State(), error) == ExperimentRules.Consumed(config, old(State()), maturity, spawnAt, now)
    {
      ghost var w := State();
      var keys := players.order;
      var eaten := 0;
      var last: Option<Item> := None;
      var i := 0;
      while i < |keys|
        invariant 0 <= i <= |keys|
        invariant ExperimentRules.ConsumeOver(config, w, keys[..i], maturity, spawnAt, now) ==
          ExperimentRules.Going(ExperimentRules.Feast(State(), eaten, last))
      {
        var k := keys[i];
        ConsumeStep(config, w, keys, maturity, spawnAt, now, i, ExperimentRules.Feast(State(), eaten, last));
        if k in players.entries {
          eaten, last, error := VisitPlayer(k, eaten, last, maturity, spawnAt(i), now);
          if error.Some? {
            ConsumeStop(config, w, keys, maturity, spawnAt, now, i);
            assert keys[..|keys|] == keys;
            return;
          }
        }
        i := i + 1;
      }
      assert keys[..i] == keys;
      ghost var f := ExperimentRules.Feast(State(), eaten, last);
      assert ExperimentRules.Consumed(config, w, maturity, spawnAt, now) == (ExperimentRules.Finish(f), None);
      if eaten > 0 && last.Some? && last.value.config.publicGood != 0.0 {
        PayPublicGood(ExperimentRules.Share(last.value, eaten));
      }
      return None;
    }

    /** The public-good loop of `consume`: every player gains `amount`. */
    method PayPublicGood(amount: real)
      modifies this`players
      ensures players == ExperimentRules.Bonus(old(players), amount)
    {
      ghost var before := players;
      var keys := players.order;
      ghost var gain := p => ExperimentRules.Gained(p, amount);
      MappedStart(before, gain);
      var i := 0;
      while i < |keys|
        invariant 0 <= i <= |keys| && MappedSoFar(before, players, gain, i)
      {
        var k := keys[i];
        MappedStep(before, players, gain, i);
        players := Set(players, k, ExperimentRules.Gained(players.entries[k], amount));
        i := i + 1;
      }
      MappedDone(before, players, gain);
      assert players.entries == ExperimentRules.Bonus(before, amount).entries;
    }

    /**
     * `trigger_transitions(now)`: collect the due changes, then apply them;
     * `created` is the clock new items read. An error while collecting
     * leaves the grid untouched.
     */
    method TriggerTransitions(now: real, created: real) returns (error: Option<string>)
      modifies this
      ensures match Transitioned(config, old(State()), now, created)
        case Err(e) => error == Some(e) && State() == old(State())
        case Ok(w) => error.None? && State() == w
    {
      var changes := DueItemChanges(now, created);
      if changes.Err? {
        return Some(changes.error);
      }
      if changes.value != [] {
        itemsUpdated := true;
      }
      ApplyItemChanges(changes.value);
      return None;
    }

    /** The collecting loop of `trigger_transitions`, in the items' order. */
    method DueItemChanges(now: real, created: real) returns (r: Result<seq<(Pos, Option<Item>)>>)
      ensures r == AllDueChanges(config, items, now, created)
    {
      InOrderAll(items);
      var keys := items.order;
      var changes: seq<(Pos, Option<Item>)> := [];
      var i := 0;
      while i < |keys|
        invariant 0 <= i <= |keys|
        invariant DueChanges(config, items, keys[..i], now, created) == Ok(changes)
      {
        var change := DueChange(config, items, keys[i], now, created);
        if change.Err? {
          DueChangesStop(config, items, keys, now, created, i);
          return Err(change.error);
        }
        assert keys[..i + 1][..i] == keys[..i];
        if change.value.Some? {
          changes := changes + [change.value.value];
        }
        i := i + 1;
      }
      assert keys[..i] == keys;
      return Ok(changes);
    }

    /** The apply loop of `trigger_transitions`. */
    method ApplyItemChanges(changes: seq<(Pos, Option<Item>)>)
      modifies this`items
      ensures items == ApplyChanges(old(items), changes)
    {
      ghost var before := items;
      var j := 0;
      while j < |changes|
        invariant 0 <= j <= |changes|
        invariant items == ApplyChanges(before, changes[..j])
      {
        assert changes[..j + 1][..j] == changes[..j];
        items := ApplyChange(items, changes[j]);
        j := j + 1;
      }
      assert changes[..j] == changes;
    }

    /** `spread_contagion()`: collect every player's new colour from the colours before the call, then apply them. */
    method SpreadContagion()
      modifies this
      ensures State() == old(State()).(players := ExperimentRules.SpreadContagion(old(players), config.contagion))
    {
      var updates := ContagionUpdates();
      Recolor(updates);
    }

    /** The collecting loop of `spread_contagion`, in the players' order. */
    method ContagionUpdates() returns (updates: seq<(string, string)>)
      ensures updates == ExperimentRules.AllUpdates(players, config.contagion)
    {
      InOrderAll(players);
      var keys := players.order;
      updates := [];
      var i := 0;
      while i < |keys|
        invariant 0 <= i <= |keys|
        invariant updates == ExperimentRules.Updates(players, config.contagion, keys[..i])
      {
        UpdatesStep(players, config.contagion, keys, i);
        var spread := ExperimentRules.Spread(players, keys[i], config.contagion);
        if spread.Some? {
          updates := updates + [(keys[i], spread.value)];
        }
        i := i + 1;
      }
      assert keys[..i] == keys;
    }

    /** The apply loop of `spread_contagion`. */
    method Recolor(updates: seq<(string, string)>)
      modifies this`players
      ensures players == ExperimentRules.Recolor(old(players), updates)
    {
      ghost var before := players;
      var j := 0;
      while j < |updates|
        invariant 0 <= j <= |updates|
        invariant players == ExperimentRules.Recolor(before, updates[..j])
      {
        assert updates[..j + 1][..j] == updates[..j];
        var (k, color) := updates[j];
        if k in players.entries {
          players := Set(players, k, players.entries[k].(color := color));
        }
        j := j + 1;
      }
      assert updates[..j] == updates;
    }

    /** The spawning loop of `replenish_items`: `spawn_item(item_id=...)` `n` times. */
    method GrowItems(itemId: string, spawnAt: nat -> Pos, n: nat, now: real) returns (error: Option<string>)
      modifies this
      ensures (State(), error) == ExperimentRules.Grow(config, old(State()), itemId, spawnAt, n, now)
    {
      ghost var w := State();
      var i := 0;
      while i < n
        invariant 0 <= i <= n
        invariant ExperimentRules.Grow(config, w, itemId, spawnAt, i, now) == (State(), None)
      {
        error := SpawnItem(spawnAt(i), itemId, now);
        if error.Some? {
          GrowStop(config, w, itemId, spawnAt, i + 1, n, now);
          return;
        }
        i := i + 1;
      }
      return None;
    }

    /** The culling loop of `replenish_items`: `n` removals of a random item of `ofType`. */
    method CullItems(ofType: seq<Item>, pick: nat -> nat, n: nat) returns (error: Option<string>)
      modifies this`items, this`itemsUpdated
      ensures (State(), error) == ExperimentRules.Cull(old(State()), ofType, pick, n)
    {
      ghost var w := State();
      var i := 0;
      while i < n
        invariant 0 <= i <= n
        invariant ExperimentRules.Cull(w, ofType, pick, i) == (State(), None)
      {
        if ofType == [] {
          CullStop(w, ofType, pick, i + 1, n);
          return Some("IndexError");
        }
        var chosen := ofType[pick(i) % |ofType|];
        CullNext(w, ofType, pick, i, State());
        UprootItem(chosen);
        i := i + 1;
      }
      return None;
    }

    /** `del item_locations[position]` for a chosen item still on the grid. */
    method UprootItem(chosen: Item)
      modifies this`items, this`itemsUpdated
      ensures State() == ExperimentRules.Uproot(old(State()), chosen)
    {
      if chosen.position.Some? && chosen.position.value in items.entries {
        items := Del(items, chosen.position.value).value;
        itemsUpdated := true;
      }
    }

    /** `replenish_items` for the type at `key`, whose items when the call began are `ofType`. */
    method ReplenishType(key: string, ofType: seq<Item>, grown: real, spawnAt: nat -> Pos, pick: nat -> nat, now: real,
                         plan: (int, bool) -> (nat, nat)) returns (error: Option<string>)
      requires key in config.itemConfig.entries
      modifies this
      ensures (State(), error) == ExperimentRules.ReplenishType(config, old(State()), key, ofType, grown, spawnAt, pick, now, plan)
    {
      var t := config.itemConfig.entries[key];
      var target := ExperimentRules.Clamp(grown, config.rows * config.columns);
      SetCount(key, target);
      error := AdjustItems(t.itemId, ofType, spawnAt, pick, now, plan(Maze.RoundHalfEven(target) - |ofType|, t.limitQuantity));
    }

    /** `item_count[key] = target`. */
    method SetCount(key: string, target: real)
      modifies this`counts
      ensures State() == old(State()).(counts := old(counts)[key := target])
    {
      counts := counts[key := target];
    }

    /** Adds `add` items of the type when that is positive, and otherwise removes `remove` of `ofType`. */
    method AdjustItems(itemId: string, ofType: seq<Item>, spawnAt: nat -> Pos, pick: nat -> nat, now: real, step: (nat, nat))
      returns (error: Option<string>)
      modifies this
      ensures (State(), error) == ExperimentRules.Adjust(config, old(State()), itemId, ofType, spawnAt, pick, now, step)
    {
      var (add, remove) := step;
      if add > 0 {
        error := GrowItems(itemId, spawnAt, add, now);
      } else {
        error := CullItems(ofType, pick, remove);
      }
    }

    /**
     * `replenish_items()`: the items grouped by type first, then every
     * configured type in order, with the draws of the `t`-th type indexed
     * by `t`.
     */
    method ReplenishItems(grown: nat -> real, spawnAt: nat -> nat -> Pos, pick: nat -> nat -> nat, now: real,
                          plan: (int, bool) -> (nat, nat)) returns (error: Option<string>)
      modifies this
      ensures (State(), error) == ExperimentRules.Replenished(config, old(State()), grown, spawnAt, pick, now, plan)
    {
      ghost var w := State();
      var snapshot := Values(items);
      var types := config.itemConfig.order;
      ExperimentRules.ConfiguredOrder(config);
      assert ExperimentRules.Replenished(config, w, grown, spawnAt, pick, now, plan) ==
        ExperimentRules.ReplenishOver(config, w, types, snapshot, grown, spawnAt, pick, now, plan);
      var t := 0;
      assert types[..0] == [];
      while t < |types|
        invariant 0 <= t <= |types|
        invariant ExperimentRules.Configured(config, types[..t])
        invariant ExperimentRules.ReplenishOver(config, w, types[..t], snapshot, grown, spawnAt, pick, now, plan) == (State(), None)
      {
        ReplenishNext(config, w, types, t, snapshot, grown, spawnAt, pick, now, plan, State());
        var key := types[t];
        error := ReplenishType(key, ExperimentRules.OfType(snapshot, config.itemConfig.entries[key].itemId), grown(t),
                               spawnAt(t), pick(t), now, plan);
        if error.Some? {
          ReplenishEnds(config, w, types, snapshot, grown, spawnAt, pick, now, plan, t);
          return;
        }
        t := t + 1;
      }
      assert types[..t] == types;
      return None;
    }

    /**
     * `players[key].move(direction, tremble_rate, timestamp)` at time
     * `now`, with `roll` and `choice` the random draws.
     */
    method Move(key: string, direction: string, roll: real, choice: nat, trembleRate: Option<real>, timestamp: Option<real>,
                now: real) returns (error: Option<string>, reply: ExperimentRules.MoveReply)
      requires key in players.entries && choice < 3
      modifies this`players, this`walls
      ensures match ExperimentRules.Move(config, old(State()), key, direction, roll, choice, trembleRate, timestamp, now)
        case Err(e) => error == Some(e) && State() == old(State())
        case Ok(m) => error.None? && State() == m.0 && reply == m.1
    {
      if !MovementEnabled(config, round) {
        return None, ExperimentRules.MoveSkipped;
      }
      var player := players.entries[key];
      var heading := ExperimentRules.Heading(direction, roll, Or(trembleRate, player.motionTrembleRate), choice);
      if heading.Err? {
        return Some(heading.error), ExperimentRules.MoveSkipped;
      }
      var dir := heading.value;
      var turned := player.(motionDirection := dir);
      var target := LegacyGrid.Target(player.position, dir, config.rows, config.columns);
      var elapsed := ElapsedRoundTime(start, now);
      if !ExperimentRules.WaitedLongEnough(player, elapsed, timestamp) {
        players := Set(players, key, turned);
        return None, ExperimentRules.IllegalMove(ExperimentRules.TooSoon);
      }
      if player.score < player.motionCost {
        players := Set(players, key, turned);
        return None, ExperimentRules.IllegalMove(ExperimentRules.TooPoor);
      }
      if !CanOccupy(config.playerOverlap, State(), target) {
        players := Set(players, key, turned);
        return None, ExperimentRules.IllegalMove(ExperimentRules.NotOpen(target));
      }
      players := Set(players, key, ExperimentRules.Stepped(turned, target, elapsed, timestamp));
      if player.addWall.None? {
        return None, ExperimentRules.Moved(dir, None);
      }
      var wall := Maze.NewWall(player.addWall.value);
      walls := Set(walls, player.addWall.value, wall);
      return None, ExperimentRules.Moved(dir, Some(wall));
    }

    /**
     * `deserialize(state)`: a size check, then the round, the players and,
     * when their keys are present, the walls and the items.
     */
    method Deserialize(s: GridState, pseudonyms: nat -> string, uuids: nat -> int, now: real) returns (error: Option<string>)
      modifies this
      ensures (State(), error) == Deserialized(config, old(State()), s, pseudonyms, uuids, now)
    {
      if s.rows != config.rows || s.columns != config.columns {
        return Some("ValueError");
      }
      ghost var w := State();
      round := Or(s.round, 0);
      error := LoadPlayers(s.players, pseudonyms);
      ghost var w2 := State();
      assert w2 == w.(round := Or(s.round, 0), players := Insert(Built(s.players, PlayerBuilder(pseudonyms)).0, PlayerKey));
      if error.Some? {
        return;
      }
      if s.walls.Some? {
        LoadWalls(s.walls.value);
        assert State() == w2.(walls := Insert(MapSeq(s.walls.value, WallFromState), WallKey));
      }
      ghost var w3 := State();
      if s.items.Some? {
        error := LoadItems(s.items.value, uuids, now);
        assert State() == w3.(items := Insert(Built(s.items.value, ItemBuilder(config, uuids, now)).0, ItemKey));
      }
    }

    /** The players loop of `deserialize`: a fresh dictionary, one player per state. */
    method LoadPlayers(states: seq<PlayerDict>, pseudonyms: nat -> string) returns (error: Option<string>)
      modifies this`players
      ensures players == Insert(Built(states, PlayerBuilder(pseudonyms)).0, PlayerKey)
      ensures error == Built(states, PlayerBuilder(pseudonyms)).1
    {
      players := Empty();
      ghost var built: seq<Player> := [];
      var i := 0;
      while i < |states|
        invariant 0 <= i <= |states|
        invariant Built(states[..i], PlayerBuilder(pseudonyms)) == (built, None)
        invariant players == Insert(built, PlayerKey)
      {
        var p := PlayerFromState(states[i], pseudonyms(i));
        if p.Err? {
          BuiltStop(states, PlayerBuilder(pseudonyms), i);
          assert states[..|states|] == states;
          return Some(p.error);
        }
        BuiltStep(states, PlayerBuilder(pseudonyms), i, built);
        InsertStep(built, p.value, PlayerKey);
        built := built + [p.value];
        players := Set(players, p.value.id, p.value);
        i := i + 1;
      }
      assert states[..i] == states;
      return None;
    }

    /** The walls loop of `deserialize`. */
    method LoadWalls(states: seq<Maze.WallState>)
      modifies this`walls
      ensures walls == Insert(MapSeq(states, WallFromState), WallKey)
    {
      walls := Empty();
      var i := 0;
      while i < |states|
        invariant 0 <= i <= |states|
        invariant walls == Insert(MapSeq(states[..i], WallFromState), WallKey)
      {
        assert MapSeq(states[..i + 1], WallFromState)[..i] == MapSeq(states[..i], WallFromState);
        var wall := WallFromState(states[i]);
        walls := Set(walls, wall.position, wall);
        i := i + 1;
      }
      assert states[..i] == states;
    }

    /** The items loop of `deserialize`. */
    method LoadItems(states: seq<ItemState>, uuids: nat -> int, now: real) returns (error: Option<string>)
      modifies this`items
      ensures items == Insert(Built(states, ItemBuilder(config, uuids, now)).0, ItemKey)
      ensures error == Built(states, ItemBuilder(config, uuids, now)).1
    {
      items := Empty();
      ghost var built: seq<Item> := [];
      var i := 0;
      while i < |states|
        invariant 0 <= i <= |states|
        invariant Built(states[..i], ItemBuilder(config, uuids, now)) == (built, None)
        invariant items == Insert(built, ItemKey)
      {
        var it := ItemFromState(config, states[i], uuids(i), now);
        if it.Err? {
          BuiltStop(states, ItemBuilder(config, uuids, now), i);
          assert states[..|states|] == states;
          return Some(it.error);
        }
        BuiltStep(states, ItemBuilder(config, uuids, now), i, built);
        InsertStep(built, it.value, ItemKey);
        built := built + [it.value];
        items := Set(items, ItemKey(it.value), it.value);
        i := i + 1;
      }
      assert states[..i] == states;
      return None;
    }
  }
}
