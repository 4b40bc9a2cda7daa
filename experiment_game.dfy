/**
 * The `Griduniverse` experiment's message handlers carried out in place on
 * a `Gridworld` object (experiment.py): each method updates the grid's
 * players and items as the handler does, step by step, and is proved to
 * leave exactly the state, and give exactly the reply, that the rule of the
 * same name in ExperimentHandlers describes.
 */
module ExperimentGame {
  import opened Base
  import opened Dicts
  import opened ExperimentItem
  import opened ExperimentPlayer
  import opened ExperimentWorld
  import ExperimentRules
  import ExperimentGrid
  import H = ExperimentHandlers

  class Griduniverse {
    const grid: ExperimentGrid.Gridworld
    /** The transition table built from the game's `transitions`. */
    const transitions: map<H.TransitionKey, H.Transition>

    constructor (grid: ExperimentGrid.Gridworld, transitions: map<H.TransitionKey, H.Transition>)
      ensures this.grid == grid && this.transitions == transitions
    {
      this.grid := grid;
      this.transitions := transitions;
    }

    /** `handle_change_color` */
    method ChangeColor(key: string, color: string) returns (reply: H.Reply)
      modifies grid`players
      ensures (grid.State(), reply) == H.ChangeColor(grid.config, old(grid.State()), key, color)
    {
      if key !in grid.players.entries {
        return H.Raised("KeyError");
      }
      var player := grid.players.entries[key];
      var found := IndexIn(PlayerColorNames, color);
      if found.None? {
        return H.Raised("ValueError");
      }
      var idx := found.value;
      if player.colorIdx >= |PlayerColorNames| {
        return H.Raised("IndexError");
      }
      if player.colorIdx == idx {
        return H.Quiet;
      }
      var score := player.score;
      if grid.config.costlyColors {
        if idx >= |grid.config.colorCosts| {
          return H.Raised("IndexError");
        }
        if player.score < grid.config.colorCosts[idx] {
          return H.Quiet;
        }
        score := player.score - grid.config.colorCosts[idx];
      }
      ghost var w := grid.State();
      var changed := player.(score := score, color := color, colorIdx := idx, colorName := color);
      grid.players := Set(grid.players, key, changed);
      assert grid.State() == H.Put(w, key, changed);
      return H.Published(H.ColorChanged(key, PlayerColorNames[player.colorIdx], color));
    }

    /** `handle_toggle_visible` */
    method ToggleVisible(key: string, visible: bool) returns (reply: H.Reply)
      modifies grid`players
      ensures (grid.State(), reply) == H.ToggleVisible(old(grid.State()), key, visible)
    {
      if key !in grid.players.entries {
        return H.Raised("KeyError");
      }
      grid.players := Set(grid.players, key, grid.players.entries[key].(identityVisible := visible));
      return H.Quiet;
    }

    /** `handle_build_wall` */
    method BuildWall(key: string, position: Pos) returns (reply: H.Reply)
      modifies grid`players
      ensures (grid.State(), reply) == H.BuildWall(grid.config, old(grid.State()), key, position)
    {
      if key !in grid.players.entries {
        return H.Raised("KeyError");
      }
      var player := grid.players.entries[key];
      if player.score >= grid.config.wallBuildingCost {
        grid.players := Set(grid.players, key, player.(score := player.score - grid.config.wallBuildingCost, addWall := Some(position)));
      }
      return H.Quiet;
    }

    /** `handle_move`, with `roll` and `choice` the random draws of the tremble. */
    method HandleMove(key: string, direction: string, roll: real, choice: nat, timestamp: Option<real>, now: real)
      returns (reply: H.Reply)
      requires choice < 3
      modifies grid`players, grid`walls
      ensures (grid.State(), reply) == H.HandleMove(grid.config, old(grid.State()), key, direction, roll, choice, timestamp, now)
    {
      if key !in grid.players.entries {
        return H.Raised("KeyError");
      }
      var id := grid.players.entries[key].id;
      var error, moved := grid.Move(key, direction, roll, choice, None, timestamp, now);
      if error.Some? {
        return H.Raised(error.value);
      }
      match moved
      case IllegalMove(_) => reply := H.Published(H.MoveRejection(id));
      case Moved(_, wall) => reply := if wall.Some? then H.Published(H.WallAdded(wall.value)) else H.Quiet;
      case MoveSkipped => reply := H.Quiet;
    }

    /** `handle_donation`, with `split` the share of each of several recipients. */
    method Donation(donorId: string, recipientId: string, amount: real, split: (real, nat) -> real) returns (reply: H.Reply)
      modifies grid`players
      ensures (grid.State(), reply) == H.Donation(grid.config, old(grid.State()), donorId, recipientId, amount, split)
    {
      if !DonationActive(grid.config, grid.round) {
        return H.Quiet;
      }
      var recipients := H.Recipients(grid.config, grid.players, recipientId);
      if recipients.Err? {
        return H.Raised(recipients.error);
      }
      var rs := recipients.value;
      if donorId !in grid.players.entries {
        return H.Raised("KeyError");
      }
      var donor := grid.players.entries[donorId];
      if donor.score < amount || rs == [] {
        return H.Quiet;
      }
      var received := H.Received(grid.config, amount, |rs|, split);
      Give(donorId, rs, amount, received);
      return H.Published(H.DonationProcessed(donorId, recipientId, amount, received));
    }

    /** The donor pays `amount` and each recipient gains `received`. */
    method Give(donorId: string, rs: seq<string>, amount: real, received: real)
      requires donorId in grid.players.entries
      modifies grid`players
      ensures grid.players == H.Donated(old(grid.players), donorId, rs, amount, received)
    {
      var donor := grid.players.entries[donorId];
      grid.players := Set(grid.players, donorId, donor.(score := donor.score - amount));
      Credit(rs, received);
    }

    /** Each of `keys` present in turn gains `amount`: the loops over recipients and neighbours. */
    method Credit(keys: seq<string>, amount: real)
      modifies grid`players
      ensures grid.players == H.Credit(old(grid.players), keys, amount)
    {
      ghost var before := grid.players;
      var i := 0;
      while i < |keys|
        invariant 0 <= i <= |keys|
        invariant grid.players == H.Credit(before, keys[..i], amount)
      {
        var k := keys[i];
        if k in grid.players.entries {
          grid.players := Set(grid.players, k, ExperimentRules.Gained(grid.players.entries[k], amount));
        }
        assert keys[..i + 1][..i] == keys[..i];
        i := i + 1;
      }
      assert keys[..|keys|] == keys;
    }

    /** `handle_plant_food`, with `itemId` the type `spawn_item` draws. */
    method PlantFood(key: string, position: Pos, itemId: string, now: real) returns (reply: H.Reply)
      modifies grid
      ensures (grid.State(), reply) == H.PlantFood(grid.config, old(grid.State()), key, position, itemId, now)
    {
      if grid.config.itemConfig.order == [] {
        return H.Raised("IndexError");
      }
      var cost := Values(grid.config.itemConfig)[0].plantingCost;
      if key !in grid.players.entries {
        return H.Raised("KeyError");
      }
      var player := grid.players.entries[key];
      if player.score < cost || HasItem(grid.items, position) {
        return H.Quiet;
      }
      Charge(key, cost);
      var error := grid.SpawnItem(position, itemId, now);
      reply := if error.Some? then H.Raised(error.value) else H.Quiet;
    }

    /** The player with `key` pays `cost`. */
    method Charge(key: string, cost: real)
      requires key in grid.players.entries
      modifies grid`players
      ensures grid.State() == H.Put(old(grid.State()), key, old(grid.players.entries[key]).(score := old(grid.players.entries[key]).score - cost))
    {
      var player := grid.players.entries[key];
      grid.players := Set(grid.players, key, player.(score := player.score - cost));
    }

    /** `handle_item_consume` */
    method ItemConsume(key: string) returns (reply: H.Reply)
      modifies grid
      ensures (grid.State(), reply) == H.ItemConsume(grid.config, old(grid.State()), key)
    {
      if key !in grid.players.entries {
        return H.Raised("KeyError");
      }
      var player := grid.players.entries[key];
      if player.currentItem.None? || player.currentItem.value.config.calories == 0 {
        return H.Published(H.ConsumeError(player.id, player.currentItem));
      }
      ghost var w := grid.State();
      var used := player.currentItem.value.(remainingUses := player.currentItem.value.remainingUses - 1);
      var gone := used.remainingUses == 0;
      if gone {
        grid.consumed := grid.consumed + [used];
      }
      grid.players := Set(grid.players, key, player.(currentItem := if gone then None else Some(used),
                                                    score := player.score + H.Calories(grid.config, player, used)));
      assert grid.State() == H.Eat(grid.config, w, key);
      var good := player.currentItem.value.config.publicGood;
      if good != 0.0 {
        grid.PayPublicGood(good);
      }
      return H.Quiet;
    }

    /** `handle_item_pick_up` */
    method PickUp(key: string, position: Pos) returns (reply: H.Reply)
      modifies grid`players, grid`items, grid`itemsUpdated
      ensures (grid.State(), reply) == H.PickUp(old(grid.State()), key, position)
    {
      if key !in grid.players.entries {
        return H.Raised("KeyError");
      }
      var player := grid.players.entries[key];
      if player.currentItem.Some? || position !in grid.items.entries {
        return H.Refusal(grid.State(), player, position);
      }
      var it := grid.items.entries[position].(position := None);
      grid.items := Del(grid.items, position).value;
      grid.itemsUpdated := true;
      grid.players := Set(grid.players, key, player.(currentItem := Some(it)));
      return H.Quiet;
    }

    /** `handle_item_drop` */
    method Drop(key: string, position: Pos) returns (reply: H.Reply)
      modifies grid`players, grid`items, grid`itemsUpdated
      ensures (grid.State(), reply) == H.Drop(old(grid.State()), key, position)
    {
      if key !in grid.players.entries {
        return H.Raised("KeyError");
      }
      var player := grid.players.entries[key];
      if player.currentItem.None? || position in grid.items.entries {
        return H.Refusal(grid.State(), player, position);
      }
      grid.items := Set(grid.items, position, player.currentItem.value.(position := Some(position)));
      grid.itemsUpdated := true;
      grid.players := Set(grid.players, key, player.(currentItem := None));
      return H.Quiet;
    }

    /** `handle_item_transition` */
    method ItemTransition(key: string, position: Pos, now: real) returns (reply: H.Reply)
      modifies grid
      ensures (grid.State(), reply) == H.ItemTransition(grid.config, transitions, old(grid.State()), key, position, now)
    {
      if key !in grid.players.entries {
        return H.Raised("KeyError");
      }
      var player := grid.players.entries[key];
      var target := Get(grid.items, position);
      var neighbors := Neighbors(grid.players, key, 1);
      var rule := H.LookUp(transitions, player.currentItem, target);
      if rule.None? || H.TooFewActors(rule.value, |neighbors|) {
        return H.Refusal(grid.State(), player, position);
      }
      var t := rule.value;
      ghost var w := grid.State();
      Spend(key, position, t);
      assert grid.State() == H.Spend(w, key, position, t);
      var error := Replace(key, position, t, H.KindOf(player.currentItem), H.KindOf(target), now);
      if error.Some? {
        return H.Raised(error.value);
      }
      if t.calories != 0 {
        var n := |neighbors| + 1;
        var per := (t.calories / n) as real;
        Credit(neighbors, per);
        var p := grid.players.entries[key];
        grid.players := Set(grid.players, key, ExperimentRules.Gained(ExperimentRules.Gained(p, per), (t.calories % n) as real));
      }
      return H.Quiet;
    }

    /** The first part of a transition: uses adjusted, spent items consumed, actor first. */
    method Spend(key: string, position: Pos, t: H.Transition)
      requires key in grid.players.entries
      modifies grid`players, grid`items, grid`consumed, grid`itemsUpdated
      ensures grid.State() == H.Spend(old(grid.State()), key, position, t)
    {
      ghost var w := grid.State();
      var player := grid.players.entries[key];
      var actor := H.Adjusted(player.currentItem, t.modifyActorUses);
      if actor.Some? && H.Spent(actor.value, t.actorEnd) {
        grid.consumed := grid.consumed + [actor.value];
        grid.itemsUpdated := true;
        grid.players := Set(grid.players, key, player.(currentItem := None));
      } else {
        grid.players := Set(grid.players, key, player.(currentItem := actor));
      }
      assert grid.State() == H.SpendActor(w, key, t);
      if position in grid.items.entries {
        var it := H.Used(grid.items.entries[position], t.modifyTargetUses);
        if H.Spent(it, t.targetEnd) {
          grid.items := Del(grid.items, position).value;
          grid.consumed := grid.consumed + [it];
          grid.itemsUpdated := true;
        } else {
          grid.items := Set(grid.items, position, it);
        }
      }
    }

    /** The second part of a transition: changed types replaced, actor first; `error` is what is raised. */
    method Replace(key: string, position: Pos, t: H.Transition, actorKind: Option<string>, targetKind: Option<string>, now: real)
      returns (error: Option<string>)
      requires key in grid.players.entries
      modifies grid`players, grid`items, grid`itemsUpdated
      ensures (grid.State(), error) == H.Replaced(grid.config, old(grid.State()), key, position, t, actorKind, targetKind, now)
    {
      error := ReplaceActor(key, t, actorKind, now);
      if error.None? {
        error := ReplaceTarget(position, t, targetKind, now);
      }
    }

    /** The actor's side of the second part. */
    method ReplaceActor(key: string, t: H.Transition, actorKind: Option<string>, now: real) returns (error: Option<string>)
      requires key in grid.players.entries
      modifies grid`players, grid`itemsUpdated
      ensures match H.ReplaceActor(grid.config, old(grid.State()), key, t, actorKind, now)
        case Err(e) => error == Some(e) && grid.State() == old(grid.State())
        case Ok(w) => error.None? && grid.State() == w
    {
      if t.actorEnd == actorKind {
        return None;
      }
      var held: Option<Item> := None;
      if t.actorEnd.Some? {
        if t.actorEnd.value !in grid.config.itemConfig.entries {
          return Some("TypeError");
        }
        var made := NewItem(grid.config.itemConfig.entries[t.actorEnd.value], Size(grid.items) + |grid.consumed|, now, Some(Pos(0, 0)), None);
        if made.Err? {
          return Some(made.error);
        }
        held := Some(made.value);
      }
      grid.itemsUpdated := true;
      grid.players := Set(grid.players, key, grid.players.entries[key].(currentItem := held));
      return None;
    }

    /** The target's side of the second part. */
    method ReplaceTarget(position: Pos, t: H.Transition, targetKind: Option<string>, now: real) returns (error: Option<string>)
      modifies grid`items, grid`itemsUpdated
      ensures (grid.State(), error) == H.ReplaceTarget(grid.config, old(grid.State()), position, t, targetKind, now)
    {
      if t.targetEnd == targetKind {
        return None;
      }
      if t.targetEnd.None? || t.targetEnd.value !in grid.config.itemConfig.entries {
        return Some("KeyError");
      }
      var made := NewItem(grid.config.itemConfig.entries[t.targetEnd.value], Size(grid.items) + |grid.consumed|, now, Some(position), None);
      if made.Err? {
        return Some(made.error);
      }
      grid.items := Set(grid.items, position, made.value);
      grid.itemsUpdated := true;
      return None;
    }
  }
}
