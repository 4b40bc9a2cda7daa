/**
 * The message handlers of the game's `Griduniverse` experiment
 * (experiment.py) as rules on the grid's state: what `dispatch` routes a
 * message type to, and what each handler does to the grid and publishes.
 * A handler that raises leaves the grid as it is at that point, which for
 * the transition handler can already be changed. Class `Griduniverse` in
 * module ExperimentGame carries these out on a `Gridworld` object.
 */
module ExperimentHandlers {
  import opened Base
  import opened Dicts
  import opened ExperimentItem
  import opened ExperimentPlayer
  import opened ExperimentWorld
  import ExperimentRules
  import PyStr
  import Maze

  // ---------------------------------------------------------------------
  // Routing

  datatype Handler =
    | OnConnect | OnDisconnect | OnChat | OnChangeColor | OnMove | OnDonation | OnPlantFood
    | OnToggleVisible | OnBuildWall | OnPickUp | OnConsume | OnTransition | OnDrop

  /** The message type each handler answers. */
  function TypeOf(h: Handler): string {
    match h
    case OnConnect => "connect"
    case OnDisconnect => "disconnect"
    case OnChat => "chat"
    case OnChangeColor => "change_color"
    case OnMove => "move"
    case OnDonation => "donation_submitted"
    case OnPlantFood => "plant_food"
    case OnToggleVisible => "toggle_visible"
    case OnBuildWall => "build_wall"
    case OnPickUp => "item_pick_up"
    case OnConsume => "item_consume"
    case OnTransition => "item_transition"
    case OnDrop => "item_drop"
  }

  /** The handlers replay mode keeps. */
  predicate Replayable(h: Handler) {
    h == OnConnect || h == OnDisconnect
  }

  /**
   * `dispatch(msg)` for a message of type `msgType`: connections are always
   * handled, the game's own messages only outside replay mode, and any
   * other type is dropped (`None`).
   */
  function Route(msgType: string, replay: bool): Option<Handler> {
    if msgType == "connect" then Some(OnConnect)
    else if msgType == "disconnect" then Some(OnDisconnect)
    else if replay then None
    else if msgType == "chat" then Some(OnChat)
    else if msgType == "change_color" then Some(OnChangeColor)
    else if msgType == "move" then Some(OnMove)
    else if msgType == "donation_submitted" then Some(OnDonation)
    else if msgType == "plant_food" then Some(OnPlantFood)
    else if msgType == "toggle_visible" then Some(OnToggleVisible)
    else if msgType == "build_wall" then Some(OnBuildWall)
    else if msgType == "item_pick_up" then Some(OnPickUp)
    else if msgType == "item_consume" then Some(OnConsume)
    else if msgType == "item_transition" then Some(OnTransition)
    else if msgType == "item_drop" then Some(OnDrop)
    else None
  }

  /**
   * Every handler gets the messages of its own type, except that replay
   * mode drops all but connections ...
   */
  lemma RouteComplete(h: Handler, replay: bool)
    ensures Route(TypeOf(h), replay) == if Replayable(h) || !replay then Some(h) else None
  {
  }

  /** ... and a routed message goes to the handler of its type: routing and TypeOf are inverse. */
  lemma RouteSound(msgType: string, replay: bool)
    requires Route(msgType, replay).Some?
    ensures TypeOf(Route(msgType, replay).value) == msgType
    ensures Replayable(Route(msgType, replay).value) || !replay
  {
  }

  /** A type no handler answers is dropped in every mode. */
  lemma RouteUnknown(msgType: string, replay: bool)
    requires forall h: Handler :: TypeOf(h) != msgType
    ensures Route(msgType, replay).None?
  {
    if Route(msgType, replay).Some? {
      RouteSound(msgType, replay);
    }
  }

  // ---------------------------------------------------------------------
  // Outcomes

  /**
   * A message a handler publishes. Items travel as items: their
   * serialization reads the clock (maturity) and is not modelled.
   */
  datatype Event =
    | ColorChanged(playerId: string, oldColor: string, newColor: string)
    | MoveRejection(playerId: string)
    | WallAdded(wall: Maze.Wall)
    | DonationProcessed(donorId: string, recipientId: string, amount: real, received: real)
    | ConsumeError(playerId: string, playerItem: Option<Item>)
    | ActionError(playerId: string, position: Pos, item: Option<Item>, playerItem: Option<Item>)

  /** What a handler does besides changing the grid: nothing, publish one event, or raise. */
  datatype Reply = Quiet | Published(event: Event) | Raised(error: string)

  /** The grid with the player at `key` replaced by `p`. */
  function Put(w: World, key: string, p: Player): (r: World)
    ensures r == w.(players := Set(w.players, key, p))
  {
    w.(players := Set(w.players, key, p))
  }

  // ---------------------------------------------------------------------
  // Colour, visibility, walls

  /**
   * `handle_change_color`: the colour must be one of the player colours
   * (`ValueError`); the same colour is no change; with costly colours a
   * player who cannot pay the new colour's cost is ignored, and one who
   * can pays it.
   */
  function ChangeColor(c: Config, w: World, key: string, color: string): (World, Reply) {
    if key !in w.players.entries then (w, Raised("KeyError"))
    else
      var player := w.players.entries[key];
      match IndexIn(PlayerColorNames, color)
      case None => (w, Raised("ValueError"))
      case Some(idx) =>
        if player.colorIdx >= |PlayerColorNames| then (w, Raised("IndexError"))
        else if player.colorIdx == idx then (w, Quiet)
        else if c.costlyColors && idx >= |c.colorCosts| then (w, Raised("IndexError"))
        else if c.costlyColors && player.score < c.colorCosts[idx] then (w, Quiet)
        else
          var score := if c.costlyColors then player.score - c.colorCosts[idx] else player.score;
          (Put(w, key, player.(score := score, color := color, colorIdx := idx, colorName := color)),
           Published(ColorChanged(key, PlayerColorNames[player.colorIdx], color)))
  }

  /**
   * A colour change happens exactly when the colour is known, differs from
   * the player's and, with costly colours, is affordable; it then sets all
   * three colour attributes, charges exactly the colour's cost and changes
   * nothing else. Otherwise the grid is untouched.
   */
  lemma ChangeColorMeaning(c: Config, w: World, key: string, color: string)
    requires key in w.players.entries && w.players.entries[key].colorIdx < |PlayerColorNames|
    requires c.costlyColors ==> |c.colorCosts| == |PlayerColorNames|
    ensures var (r, reply) := ChangeColor(c, w, key, color);
      var p := w.players.entries[key];
      (color !in PlayerColorNames ==> reply == Raised("ValueError") && r == w) &&
      (reply.Published? <==>
        color in PlayerColorNames && PlayerColorNames[p.colorIdx] != color &&
        (c.costlyColors ==> p.score >= c.colorCosts[IndexIn(PlayerColorNames, color).value])) &&
      (reply.Published? ==>
        r.players.entries[key] == p.(score := r.players.entries[key].score, color := color, colorIdx := r.players.entries[key].colorIdx, colorName := color) &&
        PlayerColorNames[r.players.entries[key].colorIdx] == color &&
        r.players.entries[key].score == p.score - (if c.costlyColors then c.colorCosts[r.players.entries[key].colorIdx] else 0.0) &&
        r == Put(w, key, r.players.entries[key]) &&
        reply.event == ColorChanged(key, PlayerColorNames[p.colorIdx], color)) &&
      (!reply.Published? ==> r == w)
  {
    var p := w.players.entries[key];
    var found := IndexIn(PlayerColorNames, color);
    if found.Some? {
      var idx := found.value;
      if PlayerColorNames[p.colorIdx] == color {
        assert p.colorIdx == idx by {
          NamesDistinct();
        }
      } else {
        assert p.colorIdx != idx;
      }
    }
  }

  /** The player colour names are pairwise different. */
  lemma NamesDistinct()
    ensures Distinct(PlayerColorNames)
  {
    var n := PlayerColorNames;
    assert n[0][0] == 'B' && n[1][0] == 'Y' && n[2][0] == 'O' && n[3][0] == 'R' && n[4][0] == 'P' && n[5][0] == 'T';
  }

  /** `handle_toggle_visible` */
  function ToggleVisible(w: World, key: string, visible: bool): (World, Reply) {
    if key !in w.players.entries then (w, Raised("KeyError"))
    else (Put(w, key, w.players.entries[key].(identityVisible := visible)), Quiet)
  }

  /**
   * `handle_build_wall`: a player who can pay the wall-building cost pays
   * it and has the wall pending at `position`, to be built on the next
   * successful move; otherwise nothing happens.
   */
  function BuildWall(c: Config, w: World, key: string, position: Pos): (World, Reply) {
    if key !in w.players.entries then (w, Raised("KeyError"))
    else
      var player := w.players.entries[key];
      if player.score >= c.wallBuildingCost then
        (Put(w, key, player.(score := player.score - c.wallBuildingCost, addWall := Some(position))), Quiet)
      else (w, Quiet)
  }

  /**
   * Building succeeds exactly for a player who can afford it; it debits
   * exactly the cost, and the following move (ExperimentRules.Move) adds
   * that wall and clears the pending one.
   */
  lemma BuildWallMeaning(c: Config, w: World, key: string, position: Pos)
    requires key in w.players.entries
    ensures var r := BuildWall(c, w, key, position).0;
      var p := w.players.entries[key];
      (p.score >= c.wallBuildingCost ==>
        r.players.entries[key].addWall == Some(position) &&
        r.players.entries[key].score == p.score - c.wallBuildingCost &&
        r == Put(w, key, p.(score := r.players.entries[key].score, addWall := Some(position)))) &&
      (p.score < c.wallBuildingCost ==> r == w)
  {
  }

  // ---------------------------------------------------------------------
  // Moving

  /**
   * `handle_move`: the move is made with the player's own tremble rate and
   * the message's timestamp; an illegal move publishes a rejection, a move
   * that built a wall publishes the wall.
   */
  function HandleMove(c: Config, w: World, key: string, direction: string, roll: real, choice: nat,
                      timestamp: Option<real>, now: real): (World, Reply)
    requires choice < 3
  {
    if key !in w.players.entries then (w, Raised("KeyError"))
    else match ExperimentRules.Move(c, w, key, direction, roll, choice, None, timestamp, now)
      case Err(e) => (w, Raised(e))
      case Ok(m) =>
        match m.1
        case IllegalMove(_) => (m.0, Published(MoveRejection(w.players.entries[key].id)))
        case Moved(_, wall) => (m.0, if wall.Some? then Published(WallAdded(wall.value)) else Quiet)
        case MoveSkipped => (m.0, Quiet)
  }

  /** A rejected move publishes a rejection and leaves the player where it was, with its score, turned. */
  lemma HandleMoveRejected(c: Config, w: World, key: string, direction: string, roll: real, choice: nat,
                           timestamp: Option<real>, now: real)
    requires key in w.players.entries && choice < 3
    requires ExperimentRules.Move(c, w, key, direction, roll, choice, None, timestamp, now).Ok?
    requires ExperimentRules.Move(c, w, key, direction, roll, choice, None, timestamp, now).value.1.IllegalMove?
    ensures var (r, reply) := HandleMove(c, w, key, direction, roll, choice, timestamp, now);
      reply == Published(MoveRejection(w.players.entries[key].id)) &&
      r.players.entries[key] == w.players.entries[key].(motionDirection := r.players.entries[key].motionDirection)
  {
    ExperimentRules.MoveRefused(c, w, key, direction, roll, choice, None, timestamp, now);
  }

  /**
   * A move raises exactly when the rule raises, and publishes a wall
   * exactly when it goes through for a player with a pending wall.
   */
  lemma HandleMoveWall(c: Config, w: World, key: string, direction: string, roll: real, choice: nat,
                       timestamp: Option<real>, now: real)
    requires key in w.players.entries && choice < 3
    ensures var (r, reply) := HandleMove(c, w, key, direction, roll, choice, timestamp, now);
      var m := ExperimentRules.Move(c, w, key, direction, roll, choice, None, timestamp, now);
      (reply.Published? && reply.event.WallAdded? <==> m.Ok? && m.value.1.Moved? && w.players.entries[key].addWall.Some?) &&
      (reply.Raised? <==> m.Err?)
  {
    var m := ExperimentRules.Move(c, w, key, direction, roll, choice, None, timestamp, now);
    match m {
      case Err(e) =>
        assert HandleMove(c, w, key, direction, roll, choice, timestamp, now) == (w, Raised(e));
      case Ok(v) =>
        match v.1 {
          case IllegalMove(_) =>
            assert HandleMove(c, w, key, direction, roll, choice, timestamp, now) ==
              (v.0, Published(MoveRejection(w.players.entries[key].id)));
          case Moved(_, wall) =>
            ExperimentRules.MoveSucceeds(c, w, key, direction, roll, choice, None, timestamp, now, key);
            assert HandleMove(c, w, key, direction, roll, choice, timestamp, now) ==
              (v.0, if wall.Some? then Published(WallAdded(wall.value)) else Quiet);
          case MoveSkipped =>
            assert HandleMove(c, w, key, direction, roll, choice, timestamp, now) == (v.0, Quiet);
        }
    }
  }

  // ---------------------------------------------------------------------
  // Scores

  /** Each player of `keys` in turn gains `amount` (a player listed twice gains twice). */
  function Credit(players: Dict<string, Player>, keys: seq<string>, amount: real): (r: Dict<string, Player>)
    ensures r.order == players.order && r.entries.Keys == players.entries.Keys
    decreases |keys|
  {
    if keys == [] then players
    else
      var prev := Credit(players, keys[..|keys| - 1], amount);
      var k := keys[|keys| - 1];
      if k in prev.entries then Set(prev, k, ExperimentRules.Gained(prev.entries[k], amount)) else prev
  }

  /** With distinct keys, exactly the listed players gain `amount`, once each. */
  lemma {:induction false} CreditMeaning(players: Dict<string, Player>, keys: seq<string>, amount: real, k: string)
    requires Distinct(keys) && k in players.entries
    ensures Credit(players, keys, amount).entries[k] ==
      if k in keys then ExperimentRules.Gained(players.entries[k], amount) else players.entries[k]
    decreases |keys|
  {
    if keys != [] {
      var n := |keys| - 1;
      var init := keys[..n];
      assert Distinct(init) by {
        forall a, b | 0 <= a < b < n ensures init[a] != init[b] {
          assert init[a] == keys[a] && init[b] == keys[b];
        }
      }
      CreditMeaning(players, init, amount, k);
      assert k in keys <==> k in init || k == keys[n];
      if k == keys[n] {
        assert k !in init by {
          forall a | 0 <= a < n ensures init[a] != k {
            assert init[a] == keys[a];
          }
        }
      }
    }
  }

  /** The keys among `keys` of the players whose colour index is `idx`, in order. */
  function WithColorIn(players: Dict<string, Player>, keys: seq<string>, idx: int): (ks: seq<string>)
    requires forall j :: 0 <= j < |keys| ==> keys[j] in players.entries
    ensures forall k :: k in ks <==> k in keys && players.entries[k].colorIdx == idx
    ensures Distinct(keys) ==> Distinct(ks)
  {
    if keys == [] then []
    else
      var rest := WithColorIn(players, keys[1..], idx);
      assert forall x :: x in keys <==> x == keys[0] || x in keys[1..];
      assert Distinct(keys) ==> Distinct(keys[1..]) && keys[0] !in keys[1..] by {
        if Distinct(keys) {
          forall a, b | 0 <= a < b < |keys| - 1 ensures keys[1..][a] != keys[1..][b] {
            assert keys[1..][a] == keys[a + 1] && keys[1..][b] == keys[b + 1];
          }
          forall a | 0 <= a < |keys| - 1 ensures keys[1..][a] != keys[0] {
            assert keys[1..][a] == keys[a + 1];
          }
        }
      }
      if players.entries[keys[0]].colorIdx == idx then [keys[0]] + rest else rest
  }

  /** `players_with_color(color_id)`: `int(color_id)` (`ValueError` for a non-number), then the players of that colour. */
  function WithColor(players: Dict<string, Player>, colorId: string): (r: Result<seq<string>>)
    ensures r.Ok? ==> Distinct(r.value) && forall k :: k in r.value ==> k in players.entries
  {
    InOrderAll(players);
    Wf(players);
    match PyStr.ParseInt(colorId)
    case None => Err("ValueError")
    case Some(idx) => Ok(WithColorIn(players, players.order, idx))
  }

  /**
   * The recipients of a donation addressed to `recipientId`: a team
   * (`group:<colour index>`) when group donation is enabled, everyone
   * (`all`) when public donation is, else the one player of that id when
   * individual donation is; otherwise no one.
   */
  function Recipients(c: Config, players: Dict<string, Player>, recipientId: string): (r: Result<seq<string>>)
    ensures r.Ok? ==> Distinct(r.value) && forall k :: k in r.value ==> k in players.entries
  {
    InOrderAll(players);
    Wf(players);
    if PyStr.StartsWith(recipientId, "group:") && GroupDonationEnabled(c) then WithColor(players, recipientId[6..])
    else if recipientId == "all" && c.donationPublic then Ok(players.order)
    else if c.donationIndividual && recipientId in players.entries then Ok([recipientId])
    else Ok([])
  }

  /**
   * `handle_donation` while donation is active: a donor with at least
   * `amount` and at least one recipient pays `amount`; then every
   * recipient gains `amount` times the multiplier, split among several
   * recipients by `split` (the source rounds that share to 2 places).
   */
  function Donation(c: Config, w: World, donorId: string, recipientId: string, amount: real,
                    split: (real, nat) -> real): (World, Reply) {
    if !DonationActive(c, w.round) then (w, Quiet)
    else match Recipients(c, w.players, recipientId)
      case Err(e) => (w, Raised(e))
      case Ok(rs) =>
        if donorId !in w.players.entries then (w, Raised("KeyError"))
        else
          var donor := w.players.entries[donorId];
          if donor.score < amount || rs == [] then (w, Quiet)
          else
            var received := Received(c, amount, |rs|, split);
            (w.(players := Donated(w.players, donorId, rs, amount, received)),
             Published(DonationProcessed(donorId, recipientId, amount, received)))
  }

  /** The donor pays `amount`, then each of `rs` gains `received`. */
  function Donated(players: Dict<string, Player>, donorId: string, rs: seq<string>, amount: real, received: real): Dict<string, Player>
    requires donorId in players.entries
  {
    var donor := players.entries[donorId];
    Credit(Set(players, donorId, donor.(score := donor.score - amount)), rs, received)
  }

  /**
   * A donation changes scores only: the donor loses `amount`, each
   * recipient gains its share (a donor among the recipients gets both),
   * and every other player keeps its score.
   */
  lemma DonatedMeaning(players: Dict<string, Player>, donorId: string, rs: seq<string>, amount: real, received: real, k: string)
    requires donorId in players.entries && k in players.entries && Distinct(rs)
    ensures var r := Donated(players, donorId, rs, amount, received);
      var p := players.entries[k];
      r.order == players.order && r.entries.Keys == players.entries.Keys &&
      r.entries[k] == p.(score := r.entries[k].score) &&
      r.entries[k].score == p.score - (if k == donorId then amount else 0.0) + (if k in rs then received else 0.0)
  {
    var donor := players.entries[donorId];
    var debited := Set(players, donorId, donor.(score := donor.score - amount));
    CreditMeaning(debited, rs, received, k);
  }

  /** What each recipient of a donation gets. */
  function Received(c: Config, amount: real, recipients: nat, split: (real, nat) -> real): real {
    var donated := amount * c.donationMultiplier;
    if recipients > 1 then split(donated, recipients) else donated
  }

  /** A donation while donation is inactive, from a donor who cannot pay, or with no recipient does nothing. */
  lemma DonationIgnored(c: Config, w: World, donorId: string, recipientId: string, amount: real, split: (real, nat) -> real)
    requires donorId in w.players.entries && Recipients(c, w.players, recipientId).Ok?
    requires !DonationActive(c, w.round) || w.players.entries[donorId].score < amount || Recipients(c, w.players, recipientId).value == []
    ensures Donation(c, w, donorId, recipientId, amount, split) == (w, Quiet)
  {
  }

  /**
   * A donation that goes through leaves everything but the players alone
   * and gives every recipient the same share (DonatedMeaning says what
   * happens to each score).
   */
  lemma DonationMeaning(c: Config, w: World, donorId: string, recipientId: string, amount: real,
                        split: (real, nat) -> real, rs: seq<string>)
    requires donorId in w.players.entries && Recipients(c, w.players, recipientId) == Ok(rs)
    requires DonationActive(c, w.round) && w.players.entries[donorId].score >= amount && rs != []
    ensures Distinct(rs)
    ensures var received := Received(c, amount, |rs|, split);
      Donation(c, w, donorId, recipientId, amount, split) ==
      (w.(players := Donated(w.players, donorId, rs, amount, received)),
       Published(DonationProcessed(donorId, recipientId, amount, received)))
  {
  }

  /** A donation to one other player moves `amount` times the multiplier to them and takes `amount` from the donor. */
  lemma DonationToOne(c: Config, w: World, donorId: string, recipientId: string, amount: real, split: (real, nat) -> real)
    requires donorId in w.players.entries && recipientId in w.players.entries && recipientId != donorId
    requires DonationActive(c, w.round) && c.donationIndividual && recipientId != "all"
    requires !PyStr.StartsWith(recipientId, "group:")
    requires w.players.entries[donorId].score >= amount
    ensures var r := Donation(c, w, donorId, recipientId, amount, split).0;
      r.players.entries[donorId].score == w.players.entries[donorId].score - amount &&
      r.players.entries[recipientId].score == w.players.entries[recipientId].score + amount * c.donationMultiplier
  {
    assert Recipients(c, w.players, recipientId) == Ok([recipientId]);
    DonationMeaning(c, w, donorId, recipientId, amount, split, [recipientId]);
    var received := Received(c, amount, 1, split);
    DonatedMeaning(w.players, donorId, [recipientId], amount, received, donorId);
    DonatedMeaning(w.players, donorId, [recipientId], amount, received, recipientId);
  }

  // ---------------------------------------------------------------------
  // Planting and consuming

  /**
   * `handle_plant_food`: the planting cost is the first configured item
   * type's (`IndexError` with none configured); a player who can pay it,
   * at a cell with no item, pays and an item is spawned there. `itemId`
   * is the type `spawn_item` draws at random.
   */
  function PlantFood(c: Config, w: World, key: string, position: Pos, itemId: string, now: real): (World, Reply) {
    if c.itemConfig.order == [] then (w, Raised("IndexError"))
    else
      var cost := Values(c.itemConfig)[0].plantingCost;
      if key !in w.players.entries then (w, Raised("KeyError"))
      else
        var player := w.players.entries[key];
        if player.score < cost || HasItem(w.items, position) then (w, Quiet)
        else
          var w1 := Put(w, key, player.(score := player.score - cost));
          match SpawnedAt(c, w1, position, itemId, now)
          case Err(e) => (w1, Raised(e))
          case Ok(w2) => (w2, Quiet)
  }

  /**
   * Planting on an empty, affordable cell puts exactly one new item of the
   * drawn type there and charges exactly the planting cost; anywhere else,
   * or for a player who cannot pay, nothing changes.
   */
  lemma PlantFoodMeaning(c: Config, w: World, key: string, position: Pos, itemId: string, now: real)
    requires c.itemConfig.order != [] && key in w.players.entries
    ensures var (r, reply) := PlantFood(c, w, key, position, itemId, now);
      var cost := c.itemConfig.entries[c.itemConfig.order[0]].plantingCost;
      var p := w.players.entries[key];
      (p.score < cost || HasItem(w.items, position) ==> r == w && reply == Quiet) &&
      (reply == Quiet && r != w ==>
        r.players == Set(w.players, key, p.(score := p.score - cost)) &&
        position in r.items.entries && r.items.entries[position].config == c.itemConfig.entries[itemId] &&
        r.items.entries == w.items.entries[position := r.items.entries[position]] &&
        Size(r.items) == Size(w.items) + 1)
  {
    var cost := Values(c.itemConfig)[0].plantingCost;
    var p := w.players.entries[key];
    if p.score < cost || HasItem(w.items, position) {
      assert PlantFood(c, w, key, position, itemId, now) == (w, Quiet);
    } else {
      var w1 := Put(w, key, p.(score := p.score - cost));
      if SpawnedAt(c, w1, position, itemId, now).Ok? {
        assert PlantFood(c, w, key, position, itemId, now) == (SpawnedAt(c, w1, position, itemId, now).value, Quiet);
        PlantStored(c, w, w1, position, itemId, now);
      } else {
        assert PlantFood(c, w, key, position, itemId, now).1.Raised?;
      }
    }
  }

  /** The spawn that follows a paid planting puts one new item in the free cell and leaves the players as paid. */
  lemma PlantStored(c: Config, w: World, w1: World, position: Pos, itemId: string, now: real)
    requires w1.items == w.items && !HasItem(w.items, position)
    requires SpawnedAt(c, w1, position, itemId, now).Ok?
    ensures var r := SpawnedAt(c, w1, position, itemId, now).value;
      r.players == w1.players &&
      position in r.items.entries && r.items.entries[position].config == c.itemConfig.entries[itemId] &&
      r.items.entries == w.items.entries[position := r.items.entries[position]] &&
      Size(r.items) == Size(w.items) + 1
  {
    SpawnResult(c, w1, position, itemId, now);
    SetGet(w1.items, position, SpawnedItem(c, w1, position, itemId, now), position);
  }

  /**
   * `handle_item_consume`: a player holding an item with calories uses it
   * once; the item leaves the hands for the consumed list exactly when its
   * uses reach 0; the player gains its calories (times the grid's relative
   * deprivation for colour index 0), then every player gains its public
   * good. Empty hands or a calorie-free item publish an error.
   */
  function ItemConsume(c: Config, w: World, key: string): (World, Reply) {
    if key !in w.players.entries then (w, Raised("KeyError"))
    else
      var player := w.players.entries[key];
      if player.currentItem.None? || player.currentItem.value.config.calories == 0 then
        (w, Published(ConsumeError(player.id, player.currentItem)))
      else
        var w1 := Eat(c, w, key);
        var good := player.currentItem.value.config.publicGood;
        (if good != 0.0 then w1.(players := ExperimentRules.Bonus(w1.players, good)) else w1, Quiet)
  }

  /** The eater's part of `handle_item_consume`: one use gone, the item perhaps consumed, the calories gained. */
  function Eat(c: Config, w: World, key: string): World
    requires key in w.players.entries && w.players.entries[key].currentItem.Some?
  {
    var player := w.players.entries[key];
    var used := player.currentItem.value.(remainingUses := player.currentItem.value.remainingUses - 1);
    var gone := used.remainingUses == 0;
    var fed := player.(currentItem := if gone then None else Some(used),
                       score := player.score + Calories(c, player, used));
    Put(w.(consumed := w.consumed + if gone then [used] else []), key, fed)
  }

  /** What eating `it` is worth to `p`. */
  function Calories(c: Config, p: Player, it: Item): real {
    if p.colorIdx > 0 then it.config.calories as real else it.config.calories as real * c.relativeDeprivation
  }

  /** Empty hands or a calorie-free item publish an error and change nothing; anything else is eaten quietly. */
  lemma ItemConsumeRefused(c: Config, w: World, key: string)
    requires key in w.players.entries
    ensures var (r, reply) := ItemConsume(c, w, key);
      var p := w.players.entries[key];
      (reply.Published? <==> p.currentItem.None? || p.currentItem.value.config.calories == 0) &&
      (reply.Published? ==> r == w && reply.event == ConsumeError(p.id, p.currentItem)) &&
      (!reply.Published? ==> reply == Quiet)
  {
  }

  /**
   * Eating uses the item exactly once; it leaves the hands for the
   * consumed list exactly when no uses are left (a count already below 0
   * stays in the hands), and the eater gains the item's calories.
   */
  lemma EatMeaning(c: Config, w: World, key: string, k: string)
    requires key in w.players.entries && w.players.entries[key].currentItem.Some? && k in w.players.entries
    ensures var r := Eat(c, w, key);
      var p := w.players.entries[key];
      var it := p.currentItem.value;
      var used := it.(remainingUses := it.remainingUses - 1);
      r.walls == w.walls && r.items == w.items && r.round == w.round && r.players.order == w.players.order &&
      r.players.entries.Keys == w.players.entries.Keys &&
      (used.remainingUses == 0 ==> r.consumed == w.consumed + [used] && r.players.entries[key].currentItem.None?) &&
      (used.remainingUses != 0 ==> r.consumed == w.consumed && r.players.entries[key].currentItem == Some(used)) &&
      r.players.entries[key].score == p.score + Calories(c, p, it) &&
      (k != key ==> r.players.entries[k] == w.players.entries[k])
  {
    var p := w.players.entries[key];
    var it := p.currentItem.value;
    assert Calories(c, p, it.(remainingUses := it.remainingUses - 1)) == Calories(c, p, it);
  }

  /** Every player, the eater too, then gains the item's public good. */
  lemma ItemConsumeMeaning(c: Config, w: World, key: string, k: string)
    requires key in w.players.entries && k in w.players.entries
    requires ItemConsume(c, w, key).1 == Quiet
    ensures var r := ItemConsume(c, w, key).0;
      var it := w.players.entries[key].currentItem.value;
      var e := Eat(c, w, key);
      r == e.(players := r.players) && r.players.order == e.players.order &&
      r.players.entries[k] == e.players.entries[k].(score := e.players.entries[k].score + it.config.publicGood)
  {
    var it := w.players.entries[key].currentItem.value;
    var e := Eat(c, w, key);
    EatMeaning(c, w, key, k);
    if it.config.publicGood == 0.0 {
      assert e.players.entries[k].(score := e.players.entries[k].score + 0.0) == e.players.entries[k];
    }
  }

  // ---------------------------------------------------------------------
  // Picking up and dropping

  /** The error a refused item action publishes: the cell, its item and the player's item. */
  function Refusal(w: World, p: Player, position: Pos): Reply {
    Published(ActionError(p.id, position, Get(w.items, position), p.currentItem))
  }

  /**
   * `handle_item_pick_up`: with empty hands and an item at the cell, the
   * item leaves the grid for the player's hands, its position cleared;
   * otherwise an error is published.
   */
  function PickUp(w: World, key: string, position: Pos): (World, Reply) {
    if key !in w.players.entries then (w, Raised("KeyError"))
    else
      var player := w.players.entries[key];
      if player.currentItem.Some? || position !in w.items.entries then (w, Refusal(w, player, position))
      else
        var it := w.items.entries[position].(position := None);
        (Put(w.(items := Del(w.items, position).value, itemsUpdated := true), key, player.(currentItem := Some(it))), Quiet)
  }

  /**
   * `handle_item_drop`: with an item in hand and no item at the cell, the
   * item goes to the cell with that position and leaves the hands;
   * otherwise an error is published.
   */
  function Drop(w: World, key: string, position: Pos): (World, Reply) {
    if key !in w.players.entries then (w, Raised("KeyError"))
    else
      var player := w.players.entries[key];
      if player.currentItem.None? || position in w.items.entries then (w, Refusal(w, player, position))
      else
        var it := player.currentItem.value.(position := Some(position));
        (Put(w.(items := Set(w.items, position, it), itemsUpdated := true), key, player.(currentItem := None)), Quiet)
  }

  /**
   * A pick-up is refused, with the grid untouched, exactly when the hands
   * are full or the cell is empty; otherwise the cell's item is in the
   * hands and no longer on the grid.
   */
  lemma PickUpMeaning(w: World, key: string, position: Pos)
    requires key in w.players.entries
    ensures var (r, reply) := PickUp(w, key, position);
      var p := w.players.entries[key];
      (reply.Published? <==> p.currentItem.Some? || position !in w.items.entries) &&
      (reply.Published? ==> r == w && reply.event.ActionError?) &&
      (reply == Quiet ==>
        r.players.entries[key] == p.(currentItem := Some(w.items.entries[position].(position := None))) &&
        r.items.entries == w.items.entries - {position} && Size(r.items) == Size(w.items) - 1 &&
        r.players.order == w.players.order && r.consumed == w.consumed)
  {
    var p := w.players.entries[key];
    if p.currentItem.None? && position in w.items.entries {
      ExperimentRules.DelSize(w.items, position);
    }
  }

  /**
   * A drop is refused, with the grid untouched, exactly when the hands are
   * empty or the cell is taken; otherwise the held item is at the cell.
   */
  lemma DropMeaning(w: World, key: string, position: Pos)
    requires key in w.players.entries
    ensures var (r, reply) := Drop(w, key, position);
      var p := w.players.entries[key];
      (reply.Published? <==> p.currentItem.None? || position in w.items.entries) &&
      (reply.Published? ==> r == w && reply.event.ActionError?) &&
      (reply == Quiet ==>
        r.players.entries[key] == p.(currentItem := None) &&
        r.items.entries == w.items.entries[position := p.currentItem.value.(position := Some(position))] &&
        Size(r.items) == Size(w.items) + 1 &&
        r.players.order == w.players.order && r.consumed == w.consumed)
  {
    var p := w.players.entries[key];
    if p.currentItem.Some? && position !in w.items.entries {
      SetGet(w.items, position, p.currentItem.value.(position := Some(position)), position);
    }
  }

  /**
   * Picking up an item and dropping it back on its cell restores the grid
   * but for the order of the items and the change flag: the cell holds the
   * same item, the player the same hands.
   */
  lemma PickUpThenDrop(w: World, key: string, position: Pos)
    requires key in w.players.entries && w.players.entries[key].currentItem.None?
    requires position in w.items.entries && w.items.entries[position].position == Some(position)
    ensures var (r1, reply1) := PickUp(w, key, position);
      var (r2, reply2) := Drop(r1, key, position);
      reply1 == Quiet && reply2 == Quiet &&
      r2 == w.(items := r2.items, itemsUpdated := true) && r2.items.entries == w.items.entries
  {
    var p := w.players.entries[key];
    var it := w.items.entries[position];
    var held := p.(currentItem := Some(it.(position := None)));
    var items1 := Del(w.items, position).value;
    var r1 := w.(items := items1, itemsUpdated := true, players := Set(w.players, key, held));
    assert PickUp(w, key, position) == (r1, Quiet);
    assert it.(position := None).(position := Some(position)) == it;
    var players2 := Set(r1.players, key, p);
    assert players2.entries == w.players.entries;
    assert players2.order == w.players.order;
    var items2 := Set(items1, position, it);
    assert items2.entries == w.items.entries;
    assert Drop(r1, key, position) == (r1.(items := items2, players := players2), Quiet);
  }

  // ---------------------------------------------------------------------
  // Transitions

  /** A key of the transition table: the actor's and the target's item types, and whether it is the target's last-use rule. */
  datatype TransitionKey = TransitionKey(last: bool, actor: Option<string>, target: Option<string>)

  /**
   * One transition rule: the item types the actor and the target become
   * (`None` for nothing), the number of players it needs (0 for any), the
   * uses it adds to each side and the calories it shares out (0 for none).
   */
  datatype Transition = Transition(
    actorEnd: Option<string>, targetEnd: Option<string>, requiredActors: int,
    modifyActorUses: int, modifyTargetUses: int, calories: int)

  /** `item and item.item_id` */
  function KindOf(it: Option<Item>): Option<string> {
    if it.Some? then Some(ItemId(it.value)) else None
  }

  /** The rule for the actor's item and the target: the last-use rule when the target has one use left and there is one, else the standard rule. */
  function LookUp(ts: map<TransitionKey, Transition>, actor: Option<Item>, target: Option<Item>): Option<Transition> {
    var key := TransitionKey(false, KindOf(actor), KindOf(target));
    var lastKey := key.(last := true);
    if target.Some? && target.value.remainingUses == 1 && lastKey in ts then Some(ts[lastKey])
    else if key in ts then Some(ts[key])
    else None
  }

  /**
   * The last-use rule is consulted only for a target with exactly one use
   * left and wins when present; otherwise the standard rule applies, and
   * no rule means no transition.
   */
  lemma LookUpMeaning(ts: map<TransitionKey, Transition>, actor: Option<Item>, target: Option<Item>)
    ensures var r := LookUp(ts, actor, target);
      var key := TransitionKey(false, KindOf(actor), KindOf(target));
      var lastKey := key.(last := true);
      (r.Some? ==> r.value in ts.Values) &&
      (target.Some? && target.value.remainingUses == 1 && lastKey in ts ==> r == Some(ts[lastKey])) &&
      (!(target.Some? && target.value.remainingUses == 1) ==> r == if key in ts then Some(ts[key]) else None) &&
      (r.None? <==> key !in ts && !(target.Some? && target.value.remainingUses == 1 && lastKey in ts))
  {
  }

  /** `required_actors and len(neighbors) + 1 < required_actors` */
  predicate TooFewActors(t: Transition, neighbors: nat) {
    t.requiredActors != 0 && neighbors + 1 < t.requiredActors
  }

  /** `modify_uses` reaches only an item with uses left. */
  function Used(it: Item, delta: int): Item {
    if it.remainingUses != 0 then it.(remainingUses := it.remainingUses + delta) else it
  }

  /** An item a transition consumes: none left, or its type changes. */
  predicate Spent(it: Item, end: Option<string>) {
    it.remainingUses < 1 || end != Some(ItemId(it))
  }

  /** An item after `modify_uses`, if there is one. */
  function Adjusted(it: Option<Item>, delta: int): Option<Item> {
    if it.Some? then Some(Used(it.value, delta)) else None
  }

  /** The first part on the actor's side: the held item's uses adjusted, and the item consumed (leaving the hands) when spent. */
  function SpendActor(w: World, key: string, t: Transition): (r: World)
    requires key in w.players.entries
    ensures r.items == w.items && r.walls == w.walls && r.round == w.round && key in r.players.entries
    ensures r.players == Set(w.players, key, w.players.entries[key].(currentItem := r.players.entries[key].currentItem))
  {
    var player := w.players.entries[key];
    var a := Adjusted(player.currentItem, t.modifyActorUses);
    if a.Some? && Spent(a.value, t.actorEnd) then
      Put(w.(consumed := w.consumed + [a.value], itemsUpdated := true), key, player.(currentItem := None))
    else Put(w, key, player.(currentItem := a))
  }

  /** The first part on the target's side: the cell's item's uses adjusted, and the item consumed (leaving the cell) when spent. */
  function SpendTarget(w: World, position: Pos, t: Transition): (r: World)
    ensures r.players == w.players && r.walls == w.walls && r.round == w.round
  {
    if position !in w.items.entries then w
    else
      var b := Used(w.items.entries[position], t.modifyTargetUses);
      if Spent(b, t.targetEnd) then
        w.(items := Del(w.items, position).value, consumed := w.consumed + [b], itemsUpdated := true)
      else w.(items := Set(w.items, position, b))
  }

  /** The first part of a transition: both sides spent, actor first. */
  function Spend(w: World, key: string, position: Pos, t: Transition): (r: World)
    requires key in w.players.entries
    ensures r.players.order == w.players.order && r.players.entries.Keys == w.players.entries.Keys
  {
    SpendTarget(SpendActor(w, key, t), position, t)
  }

  /** The player at `key` now holds `it`. */
  function Hold(w: World, key: string, it: Option<Item>): (r: World)
    requires key in w.players.entries
    ensures r.players == Set(w.players, key, w.players.entries[key].(currentItem := it))
  {
    Put(w.(itemsUpdated := true), key, w.players.entries[key].(currentItem := it))
  }

  /**
   * The second part on the actor's side: a changed type puts a new item of
   * the end type (at the default position (0, 0)) or nothing in the
   * hands, an unknown end type raising `TypeError`. New items are
   * numbered like spawned ones.
   */
  function ReplaceActor(c: Config, w: World, key: string, t: Transition, actorKind: Option<string>, now: real): (r: Result<World>)
    requires key in w.players.entries
    ensures r.Ok? ==> r.value.items == w.items && r.value.consumed == w.consumed && key in r.value.players.entries
    ensures r.Ok? ==> r.value.players == Set(w.players, key, w.players.entries[key].(currentItem := r.value.players.entries[key].currentItem))
  {
    if t.actorEnd == actorKind then Ok(w)
    else if t.actorEnd.None? then Ok(Hold(w, key, None))
    else if t.actorEnd.value !in c.itemConfig.entries then Err("TypeError")
    else match NewItem(c.itemConfig.entries[t.actorEnd.value], Size(w.items) + |w.consumed|, now, Some(Pos(0, 0)), None)
      case Err(e) => Err(e)
      case Ok(it) => Ok(Hold(w, key, Some(it)))
  }

  /** The second part on the target's side: a changed type puts a new item of the end type at the cell, raising `KeyError` for `None` or an unknown type. */
  function ReplaceTarget(c: Config, w: World, position: Pos, t: Transition, targetKind: Option<string>, now: real): (r: (World, Option<string>))
    ensures r.0.players == w.players && r.0.consumed == w.consumed
  {
    if t.targetEnd == targetKind then (w, None)
    else if t.targetEnd.None? || t.targetEnd.value !in c.itemConfig.entries then (w, Some("KeyError"))
    else match NewItem(c.itemConfig.entries[t.targetEnd.value], Size(w.items) + |w.consumed|, now, Some(position), None)
      case Err(e) => (w, Some(e))
      case Ok(it) => (w.(items := Set(w.items, position, it), itemsUpdated := true), None)
  }

  /** The second part of a transition: the actor's side, then the target's, an exception stopping it where it is raised. */
  function Replaced(c: Config, w: World, key: string, position: Pos, t: Transition,
                    actorKind: Option<string>, targetKind: Option<string>, now: real): (r: (World, Option<string>))
    requires key in w.players.entries
    ensures r.0.players.order == w.players.order && r.0.players.entries.Keys == w.players.entries.Keys
  {
    match ReplaceActor(c, w, key, t, actorKind, now)
    case Err(e) => (w, Some(e))
    case Ok(w1) => ReplaceTarget(c, w1, position, t, targetKind, now)
  }

  /**
   * The last part: `calories` shared among the actor and its neighbours,
   * `calories // (n + 1)` each, the actor also getting the remainder.
   */
  function Shared(players: Dict<string, Player>, key: string, neighbors: seq<string>, calories: int): Dict<string, Player>
    requires key in players.entries
  {
    if calories == 0 then players
    else
      var n := |neighbors| + 1;
      var credited := Credit(players, neighbors, (calories / n) as real);
      Set(credited, key, ExperimentRules.Gained(ExperimentRules.Gained(credited.entries[key], (calories / n) as real), (calories % n) as real))
  }

  /** A rule that applies, in its three parts, an exception stopping it where it is raised. */
  function Applied(c: Config, w: World, key: string, position: Pos, t: Transition, neighbors: seq<string>, now: real): (World, Reply)
    requires key in w.players.entries
  {
    var player := w.players.entries[key];
    var w1 := Spend(w, key, position, t);
    var (w2, e) := Replaced(c, w1, key, position, t, KindOf(player.currentItem), KindOf(Get(w.items, position)), now);
    if e.Some? then (w2, Raised(e.value))
    else (w2.(players := Shared(w2.players, key, neighbors, t.calories)), Quiet)
  }

  /**
   * `handle_item_transition` for the player at `key` and the cell at
   * `position`: no rule, or too few players within reach, publishes an
   * error and changes nothing; otherwise the rule is applied in its three
   * parts, an exception stopping it where it is raised.
   */
  function ItemTransition(c: Config, ts: map<TransitionKey, Transition>, w: World, key: string, position: Pos, now: real): (World, Reply) {
    if key !in w.players.entries then (w, Raised("KeyError"))
    else
      var player := w.players.entries[key];
      var target := Get(w.items, position);
      var neighbors := Neighbors(w.players, key, 1);
      match LookUp(ts, player.currentItem, target)
      case None => (w, Refusal(w, player, position))
      case Some(t) =>
        if TooFewActors(t, |neighbors|) then (w, Refusal(w, player, position))
        else Applied(c, w, key, position, t, neighbors, now)
  }

  /** No rule, or too few players within reach, publishes an error and changes nothing; a rule that applies never publishes. */
  lemma TransitionRefused(c: Config, ts: map<TransitionKey, Transition>, w: World, key: string, position: Pos, now: real)
    requires key in w.players.entries
    ensures var (r, reply) := ItemTransition(c, ts, w, key, position, now);
      var p := w.players.entries[key];
      var t := LookUp(ts, p.currentItem, Get(w.items, position));
      (t.None? || TooFewActors(t.value, |Neighbors(w.players, key, 1)|) <==> reply.Published?) &&
      (reply.Published? ==> r == w && reply == Refusal(w, p, position))
  {
  }

  /**
   * What the first part does: each side's uses change by the rule's amount
   * unless it had none left; a spent actor item leaves the hands and a
   * spent target leaves the cell, each appended to the consumed items
   * (actor first); every other cell and player is untouched.
   */
  lemma SpendMeaning(w: World, key: string, position: Pos, t: Transition, q: Pos, k: string)
    requires key in w.players.entries
    ensures var r := Spend(w, key, position, t);
      var held := w.players.entries[key].currentItem;
      var a := if held.Some? then Some(Used(held.value, t.modifyActorUses)) else None;
      var b := if position in w.items.entries then Some(Used(w.items.entries[position], t.modifyTargetUses)) else None;
      var actorGone := a.Some? && Spent(a.value, t.actorEnd);
      var targetGone := b.Some? && Spent(b.value, t.targetEnd);
      r.walls == w.walls && r.round == w.round &&
      r.players.entries[key] == w.players.entries[key].(currentItem := r.players.entries[key].currentItem) &&
      r.players.entries[key].currentItem == (if actorGone then None else a) &&
      (position in r.items.entries <==> b.Some? && !targetGone) &&
      (position in r.items.entries ==> r.items.entries[position] == b.value) &&
      r.consumed == w.consumed + (if actorGone then [a.value] else []) + (if targetGone then [b.value] else []) &&
      (q != position ==> (q in r.items.entries <==> q in w.items.entries) &&
                         (q in r.items.entries ==> r.items.entries[q] == w.items.entries[q])) &&
      (k != key && k in w.players.entries ==> r.players.entries[k] == w.players.entries[k])
  {
  }

  /** `modify_uses` changes an item's uses by exactly the rule's amount, unless none are left, and nothing else about it. */
  lemma UsedMeaning(it: Item, delta: int)
    ensures Used(it, delta) == it.(remainingUses := Used(it, delta).remainingUses)
    ensures Used(it, delta).remainingUses == if it.remainingUses == 0 then 0 else it.remainingUses + delta
  {
  }

  /** The neighbours of a player are distinct keys. */
  lemma {:induction false} NeighborsDistinct(players: Dict<string, Player>, key: string, d: int, keys: seq<string>)
    requires key in players.entries && Distinct(keys)
    requires forall j :: 0 <= j < |keys| ==> keys[j] in players.entries
    ensures Distinct(NeighborsIn(players, key, d, keys))
  {
    if keys != [] {
      assert Distinct(keys[1..]) by {
        forall a, b | 0 <= a < b < |keys| - 1 ensures keys[1..][a] != keys[1..][b] {
          assert keys[1..][a] == keys[a + 1] && keys[1..][b] == keys[b + 1];
        }
      }
      assert keys[0] !in keys[1..] by {
        forall a | 0 <= a < |keys| - 1 ensures keys[1..][a] != keys[0] {
          assert keys[1..][a] == keys[a + 1];
        }
      }
      NeighborsDistinct(players, key, d, keys[1..]);
    }
  }

  /** The neighbours of a player are distinct and do not include the player. */
  lemma NeighborsShape(players: Dict<string, Player>, key: string)
    requires key in players.entries
    ensures Distinct(Neighbors(players, key, 1)) && key !in Neighbors(players, key, 1)
  {
    InOrderAll(players);
    Wf(players);
    NeighborsDistinct(players, key, 1, players.order);
  }

  /**
   * Calories are conserved: each of the `n - 1` neighbours gains
   * `calories // n`, the actor that and `calories % n` as well, which adds
   * up to `calories`; no one else's score changes.
   */
  lemma SharedMeaning(players: Dict<string, Player>, key: string, neighbors: seq<string>, calories: int, k: string)
    requires key in players.entries && k in players.entries
    requires Distinct(neighbors) && key !in neighbors
    ensures var n := |neighbors| + 1;
      var r := Shared(players, key, neighbors, calories);
      var p := players.entries[k];
      var per := (calories / n) as real;
      |neighbors| * (calories / n) + ((calories / n) + calories % n) == calories &&
      r.order == players.order && r.entries.Keys == players.entries.Keys &&
      r.entries[k] == (if calories == 0 then p
        else if k == key then ExperimentRules.Gained(ExperimentRules.Gained(p, per), (calories % n) as real)
        else if k in neighbors then ExperimentRules.Gained(p, per) else p)
  {
    if calories != 0 {
      var n := |neighbors| + 1;
      CreditMeaning(players, neighbors, (calories / n) as real, k);
      CreditMeaning(players, neighbors, (calories / n) as real, key);
    }
  }

  /**
   * The actor's side of the second part: an unchanged type leaves the
   * hands alone, `None` empties them, a configured type puts a fresh item
   * of it there with its full uses, and an unknown type raises `TypeError`.
   */
  lemma ReplaceActorMeaning(c: Config, w: World, key: string, t: Transition, actorKind: Option<string>, now: real)
    requires key in w.players.entries
    ensures var r := ReplaceActor(c, w, key, t, actorKind, now);
      (t.actorEnd == actorKind ==> r == Ok(w)) &&
      (t.actorEnd != actorKind && t.actorEnd.Some? && t.actorEnd.value !in c.itemConfig.entries ==> r == Err("TypeError")) &&
      (r.Ok? && t.actorEnd != actorKind ==> r.value.players.entries[key].currentItem.None? == t.actorEnd.None?) &&
      (r.Ok? && t.actorEnd != actorKind && t.actorEnd.Some? ==>
         var it := r.value.players.entries[key].currentItem.value;
         t.actorEnd.value in c.itemConfig.entries && it.config == c.itemConfig.entries[t.actorEnd.value] &&
         it.remainingUses == c.itemConfig.entries[t.actorEnd.value].nUses)
  {
  }

  /**
   * The target's side: an unchanged type leaves the cells alone, a
   * configured type puts a fresh item of it at the cell with its full uses
   * and the cell's own position, and `None` or an unknown type raises
   * `KeyError`; no other cell changes.
   */
  lemma ReplaceTargetMeaning(c: Config, w: World, position: Pos, t: Transition, targetKind: Option<string>, now: real, other: Pos)
    ensures var (r, e) := ReplaceTarget(c, w, position, t, targetKind, now);
      (other != position ==> Get(r.items, other) == Get(w.items, other)) &&
      (t.targetEnd == targetKind ==> r == w && e.None?) &&
      ((t.targetEnd != targetKind && (t.targetEnd.None? || t.targetEnd.value !in c.itemConfig.entries)) ==>
         r == w && e == Some("KeyError")) &&
      (e.None? && t.targetEnd != targetKind ==>
         t.targetEnd.Some? && t.targetEnd.value in c.itemConfig.entries &&
         position in r.items.entries &&
         r.items.entries[position].config == c.itemConfig.entries[t.targetEnd.value] &&
         r.items.entries[position].position == Some(position) &&
         r.items.entries[position].remainingUses == c.itemConfig.entries[t.targetEnd.value].nUses)
  {
  }

  /**
   * A rule whose `target_end` is `None` for a target that exists spends
   * the target (off the cell, onto the consumed list) and then raises
   * `KeyError` looking up the configuration of `None`, so the
   * transition stops half done.
   */
  lemma NullTargetEndRaises(c: Config, ts: map<TransitionKey, Transition>, w: World, key: string, position: Pos, now: real)
    requires key in w.players.entries && position in w.items.entries
    requires var p := w.players.entries[key];
      var t := LookUp(ts, p.currentItem, Get(w.items, position));
      t.Some? && t.value.targetEnd.None? && t.value.actorEnd == KindOf(p.currentItem) &&
      !TooFewActors(t.value, |Neighbors(w.players, key, 1)|)
    ensures var (r, reply) := ItemTransition(c, ts, w, key, position, now);
      var t := LookUp(ts, w.players.entries[key].currentItem, Get(w.items, position)).value;
      reply == Raised("KeyError") && position !in r.items.entries &&
      |r.consumed| > |w.consumed| && r.consumed[|r.consumed| - 1] == Used(w.items.entries[position], t.modifyTargetUses)
  {
    var p := w.players.entries[key];
    var t := LookUp(ts, p.currentItem, Get(w.items, position)).value;
    var w0 := SpendActor(w, key, t);
    var w1 := SpendTarget(w0, position, t);
    assert Spent(Used(w.items.entries[position], t.modifyTargetUses), t.targetEnd);
    assert position !in w1.items.entries && w1.consumed[|w1.consumed| - 1] == Used(w.items.entries[position], t.modifyTargetUses);
    assert ReplaceActor(c, w1, key, t, KindOf(p.currentItem), now) == Ok(w1);
    assert ReplaceTarget(c, w1, position, t, KindOf(Get(w.items, position)), now) == (w1, Some("KeyError"));
  }

  /** The sharing of calories once both other parts have succeeded. */
  lemma AppliedCalories(c: Config, w: World, key: string, position: Pos, t: Transition, neighbors: seq<string>, now: real, k: string)
    requires key in w.players.entries && k in w.players.entries
    requires Distinct(neighbors) && key !in neighbors
    ensures var (r, reply) := Applied(c, w, key, position, t, neighbors, now);
      var n := |neighbors| + 1;
      reply == Quiet ==>
        k in r.players.entries &&
        r.players.entries[k].score == w.players.entries[k].score +
          (if t.calories == 0 then 0.0
           else if k == key then (t.calories / n) as real + (t.calories % n) as real
           else if k in neighbors then (t.calories / n) as real else 0.0)
  {
    var p := w.players.entries[key];
    var w1 := Spend(w, key, position, t);
    var (w2, e) := Replaced(c, w1, key, position, t, KindOf(p.currentItem), KindOf(Get(w.items, position)), now);
    if e.None? {
      assert w1.players.entries[k].score == w.players.entries[k].score;
      assert w2.players.entries[k].score == w.players.entries[k].score;
      SharedMeaning(w2.players, key, neighbors, t.calories, k);
    }
  }

  /**
   * A transition that completes shares its calories exactly: the actor
   * gains `calories // n + calories % n`, each of its `n - 1` neighbours
   * `calories // n`, every other player nothing, and the gains add up to
   * `calories`.
   */
  lemma TransitionCalories(c: Config, ts: map<TransitionKey, Transition>, w: World, key: string, position: Pos, now: real, k: string)
    requires key in w.players.entries && k in w.players.entries
    ensures var (r, reply) := ItemTransition(c, ts, w, key, position, now);
      var p := w.players.entries[key];
      var t := LookUp(ts, p.currentItem, Get(w.items, position));
      var neighbors := Neighbors(w.players, key, 1);
      var n := |neighbors| + 1;
      reply == Quiet ==>
        t.Some? && k in r.players.entries &&
        |neighbors| * (t.value.calories / n) + (t.value.calories / n + t.value.calories % n) == t.value.calories &&
        r.players.entries[k].score == w.players.entries[k].score +
          (if t.value.calories == 0 then 0.0
           else if k == key then (t.value.calories / n) as real + (t.value.calories % n) as real
           else if k in neighbors then (t.value.calories / n) as real else 0.0)
  {
    var p := w.players.entries[key];
    var neighbors := Neighbors(w.players, key, 1);
    var t := LookUp(ts, p.currentItem, Get(w.items, position));
    if t.Some? {
      NeighborsShape(w.players, key);
      AppliedCalories(c, w, key, position, t.value, neighbors, now, k);
      SharedMeaning(w.players, key, neighbors, t.value.calories, k);
    }
  }
}
