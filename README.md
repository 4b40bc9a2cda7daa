# Griduniverse game rules in Dafny

This project models the deterministic rules of Griduniverse, a multiplayer grid game for group-behaviour experiments, and proves what those rules promise. On a shared grid, players hold scores, colours and at most one carried item, while walls and items sit at positions. A `Gridworld` enforces movement, round timing, item spawning, consumption, replenishment, contagion and automatic item transitions. A `Griduniverse` experiment routes player messages to handlers for moving, changing colour, donating, planting, building walls, and picking up, dropping, consuming or combining items.

Around that core, the project also models:
- the maze generator and its pruning;
- the A* path finder the bots use;
- the CSV layout parser;
- the bots' decision helpers;
- the browser's item index and colour blending;
- the older Python-2 copies of the grid and maze code.

Each source file is a module:

| module | file | models |
|---|---|---|
| `Base`, `PyStr`, `Dicts` | `base.dfy`, `py_str.dfy`, `dicts.dfy` | positions, `Option`/`Result`, Python's string helpers (`strip`, `split`, `int`, `replace`) and the insertion-ordered `dict` |
| `ExperimentItem` | `experiment_item.dfy` | `Item` and its read-only view onto the shared item-type configuration |
| `ExperimentPlayer` | `experiment_player.dfy` | `Player` construction, `neighbors`, `serialize` |
| `ExperimentWorld` | `experiment_world.dfy` | the grid state, occupancy, round timing and round-parity flags, `spawn_item`, `trigger_transitions`, `items_changed` |
| `ExperimentRules` | `experiment_rules.dfy` | `consume`, `replenish_items`, `spread_contagion`, `Player.move`, as functions of the state |
| `ExperimentState` | `experiment_state.dfy` | `serialize` and `deserialize` |
| `ExperimentGrid` | `experiment_grid.dfy` | the class `Gridworld`, whose methods update its fields in place and are proved against those functions |
| `ExperimentHandlers`, `ExperimentGame` | `experiment_handlers.dfy`, `experiment_game.dfy` | `dispatch` and the handlers as functions, and the class `Griduniverse` whose methods apply them to its grid |
| `ExperimentText` | `experiment_text.dfy` | `parse_message`, `PluralFormatter`, `isplit` |
| `Maze`, `MazeUtils` | `maze.dfy`, `maze_utils.dfy` | `labyrinth`, `_generate`, `_prune`, `_classify_terminals`, `Wall`; `maze_to_graph`, `find_path_astar`, `positions_to_maze`, `labyrinth_to_maze` |
| `CsvGridworlds`, `Bots`, `ItemsJs` | `csv_gridworlds.dfy`, `bots.dfy`, `items_js.dfy` | `matrix2gridworld`; the bots' helpers and the bot's message handling; the `GridItems` index and colour parsing |
| `LegacyGrid`, `LegacyMaze` | `legacy_grid.dfy`, `legacy_maze.dfy` | the root `grid.py` and `maze.py` |

The models use the following conventions:
- Time (`time.time()`) and randomness (`random.random`, `choice`, `shuffle`, `sample`, `randrange`, the spawn positions) are parameters: a number, a chosen index, a function from the draw's number to its outcome.
- Scores and times are exact `real`s.
- A Python exception is an error value naming its class (`Err("KeyError")`). Where the source raises part-way through, the model keeps what the code had already changed.

## Behaviour of the code the model keeps

Some of what the code does is easy to misread. The model follows the code in each case:
- **The serialize round trip is lossy.** `serialize` writes each player's `motion_timestamp` and carried item (`current_item`), but `Player.__init__` ignores both keys and starts every player with `motion_timestamp = 0` and an empty hand. The tremble rate, motion cost, `last_timestamp` and pending wall are not written at all. So `deserialize(serialize(g))` resets exactly these fields, and `ExperimentState.SerializeRoundTrip` states what comes back.
- **Donation rounding.** The donation share is `round(donated / n, 2)`, computed only when there is more than one recipient; a single recipient receives the whole multiplied amount. The split is a parameter, because Python's float `round` is not modelled.
- **The baseline team does not consume.** For a colour-0 player `Gridworld.consume` reads `self.grid.relative_deprivation`, and a `Gridworld` has no `grid` attribute. The model therefore raises `AttributeError` after the item has already been taken (`ExperimentRules.ColorZeroRaises`). The handler `handle_item_consume` reads the attribute of the grid itself and credits `calories × relative_deprivation`.
- **The public good comes from the last item.** `Gridworld.consume` pays each player `public_good × consumed`, where `public_good` belongs to the last item the loop inspected, not to each item eaten (`ExperimentRules.PublicGoodFromLastInspected`).
- **`is_even_round` is true on odd rounds.** It is `bool(round % 2)`, so with alternation on, donation runs on odd rounds.
- **One pruning test does not match the code.** The test that prunes a 10 by 10 labyrinth at density 0.5 and contiguity 0.5 expects 12 walls. The code keeps 25 walls after the first phase, then removes `round(12.5) = 12` of them (Python rounds half to even), which leaves 13. The model follows the code.
- **The old grid skips food.** The legacy `consume` removes food from the list it is iterating, so the food after an eaten one is skipped in that pass (`LegacyGrid.ConsumeSkips`). The model follows the list iterator.
- **Contagion colours go stale.** `spread_contagion` sets only `player.color`; `color_idx` and `color_name` keep their old values. In the current `Gridworld` the contagion hierarchy is never set up: `random.shuffle` of a `range` raises under Python 3 before any hierarchy exists. So `rank` is always 1, and `<=` lets any strict-majority colour spread.

## Model

| member | source | states |
|---|---|---|
| Base.Manhattan | dlgr/griduniverse/bots.py:234-239 | the distance is \|Δrow\| + \|Δcol\|, and it is 0 exactly for equal positions |
| Base.StepDistance | dlgr/griduniverse/maze_utils.py:39-40 | one orthogonal step changes the Manhattan distance to any goal by at most 1 (the heuristic is consistent) |
| Bots.TranslateDirections | dlgr/griduniverse/bots.py:241-250 | the key sequence has the length of the direction string; each N/S/E/W becomes exactly the arrow key for that direction, and every other letter becomes `None` (`lookup.get`) |
| Bots.TranslatedStep | dlgr/griduniverse/bots.py:241-250 | pressing the key translated from a direction letter moves a position exactly as the pathfinder's step for that letter |
| Bots.TranslatedWalk | dlgr/griduniverse/bots.py:270-282 | following the translated keys of a path walks to the same cell as following the path's letters |
| Bots.ExpectedPositions | dlgr/griduniverse/bots.py:200-232 | with the bot's own position unknown the positions come back unchanged; otherwise only the bot's own entry may change, to the target cell, and it stays put when the target is a wall or held by a player |
| Bots.ExpectedBlocked | dlgr/griduniverse/bots.py:224-229 | the predicted position is either the current one or a cell that is neither a wall nor any player's position |
| Bots.ExpectedPositionsAsWritten | dlgr/griduniverse/bots.py:200-232 | as written: an unknown own position returns the positions unchanged; otherwise every other id keeps its position, and the bot takes the tuple it builds for the key unless that tuple is a wall or equals a player position as Python compares them, in which case it stays put |
| Bots.ExpectedIgnoresAllPlayers | dlgr/griduniverse/bots.py:226-229 | with every player position a JSON list, an arrow key is blocked by walls alone: the check against the other players never fires |
| Bots.ExpectedIgnoresPlayers | dlgr/griduniverse/bots.py:226-229 | with positions held as JSON lists the occupancy test compares a tuple with lists and never matches, so a bot is predicted to step onto another player; the intended version keeps it in place |
| Bots.FoodTarget | dlgr/griduniverse/bots.py:474-489 | `{}` when the bot's position is unknown; otherwise a single entry for the bot, `None` exactly when no distance is truthy (all 0 or None), else the first index of the smallest truthy distance |
| Bots.RowPairsMembers | dlgr/griduniverse/bots.py:595-600 | a pairing is collected from a player's row exactly when that food's distance is known (not `None`) and equal to it |
| Bots.ReachableMembers | dlgr/griduniverse/bots.py:595-600 | a pairing is collected exactly when some player row records that distance for that food |
| Bots.CollectPairs | dlgr/griduniverse/bots.py:595-600 | the loop over players and foods collects exactly the reachable pairings, in order |
| Bots.SortFacts | dlgr/griduniverse/bots.py:603-606 | sorting by distance gives an ascending sequence and a permutation of its input |
| Bots.Greedy | dlgr/griduniverse/bots.py:611-622 | every choice comes from a scanned pairing, no food is chosen twice, and every scanned pairing is either taken or blocked by an earlier one that used its player or its food |
| Bots.LogicalTargets | dlgr/griduniverse/bots.py:574-622 | `AdvantageSeekingBot.get_logical_targets`: each choice is a reachable pairing, no two players share a food, and every reachable pairing is dominated by an assigned pairing at most as far that shares its player or its food (so the closest pair is always assigned) |
| Bots.GreedyOnPairs | dlgr/griduniverse/bots.py:603-622 | the greedy scan over any distance-sorted permutation of the pairings meets the two matching properties above |
| Bots.PlayerSpread | dlgr/griduniverse/bots.py:549-572 | the mean pairwise Manhattan distance is never negative, and is 0 with fewer than two players |
| Bots.SpreadZero | dlgr/griduniverse/bots.py:549-572 | with two or more players the spread is 0 exactly when all players share one position |
| Bots.SpreadTwo | dlgr/griduniverse/bots.py:549-572 | the spread of two players is their Manhattan distance |
| Bots.MergeState | dlgr/griduniverse/bots.py:335-346 | `handle_state`: every top-level key of the update replaces the stored one, every other stored key is kept; the decoded `grid` entries update the stored `grid` field by field, so absent fields (walls, food) keep their old values |
| Bots.MoveFor | dlgr/griduniverse/bots.py:367-398 | a move message exists exactly for the four arrow keys, with the bot's id and the move naming that key |
| Bots.GridBot.HandleState | dlgr/griduniverse/bots.py:335-346 | the stored grid becomes the merge of the old grid and the update; the quorum flags and published messages are unchanged |
| Bots.GridBot.HandleStop | dlgr/griduniverse/bots.py:348-351 | `remaining_time` becomes 0 and nothing else changes |
| Bots.GridBot.HandleQuorum | dlgr/griduniverse/bots.py:353-360 | the quorum flag is set when `q` equals `n`; a message with `q` but no `n` raises `KeyError`; nothing else changes |
| Bots.GridBot.OnSignup | dlgr/griduniverse/bots.py:400-410 | the quorum flag is set when `n == q`, the skip flag when the status is `overrecruited`; nothing else changes |
| Bots.GridBot.SendNextKey | dlgr/griduniverse/bots.py:367-398 | exactly one move message is published for an arrow key and none for any other key |
| Bots.IsStillOnGrid | dlgr/griduniverse/bots.py:362-365 | false with no `remaining_time`; for a number, whether it exceeds 0.25 |
| CsvGridworlds.DigitRunEnd | dlgr/griduniverse/csv_gridworlds.py:6 | the `\d+` of the player pattern: the end of the maximal run of digits starting at `i` |
| CsvGridworlds.ColorOf | dlgr/griduniverse/csv_gridworlds.py:59-69 | `cK` fails with `ValueError` exactly when `K - 1 >= len(color_names)`; otherwise it names a player colour (`c0` indexes -1, the last name) |
| CsvGridworlds.ClassifyWall | dlgr/griduniverse/csv_gridworlds.py:45-51 | a cell is a wall exactly when its stripped token is `w` |
| CsvGridworlds.ScanRow | dlgr/griduniverse/csv_gridworlds.py:42-82 | the inner loop over one row extends the scan of the rows before it by exactly that row's cells, left to right |
| CsvGridworlds.Matrix2Gridworld | dlgr/griduniverse/csv_gridworlds.py:10-84 | the loops compute the row-major scan of every cell: `rows` is `len(matrix)`, `columns` is `len(matrix[0])` (0 for an empty matrix), and each of `walls`, `players`, `items` is present only when a cell of that kind was seen; the first invalid cell raises `ValueError` |
| CsvGridworlds.ScanStops | dlgr/griduniverse/csv_gridworlds.py:61-69 | once a cell raises, no later cell changes the outcome |
| CsvGridworlds.PrefixStops | dlgr/griduniverse/csv_gridworlds.py:61-69 | an error raised in the first rows is the error of the whole matrix |
| CsvGridworlds.ScanError | dlgr/griduniverse/csv_gridworlds.py:59-82 | the parse fails exactly when some cell is invalid, and then with `ValueError` |
| CsvGridworlds.ScanLists | dlgr/griduniverse/csv_gridworlds.py:50-76 | a parsed position is a wall exactly when some scanned cell there is a wall, and the `k`-th item gets id `k + 1` |
| CsvGridworlds.CellsOrdered | dlgr/griduniverse/csv_gridworlds.py:41-44 | cells are visited in strictly ascending row-major order |
| CsvGridworlds.WallsOrdered | dlgr/griduniverse/csv_gridworlds.py:50-51 | walls are appended in strictly ascending row-major order |
| CsvGridworlds.CellsAt | dlgr/griduniverse/csv_gridworlds.py:41-44 | each visited cell lies inside the matrix and carries its own token |
| CsvGridworlds.CellsCover | dlgr/griduniverse/csv_gridworlds.py:41-44 | every cell of the matrix is visited |
| CsvGridworlds.MatrixWalls | dlgr/griduniverse/csv_gridworlds.py:41-51 | a successful parse lists, in ascending row-major order, exactly the positions whose stripped token is `w` |
| CsvGridworlds.ItemWithUses | dlgr/griduniverse/csv_gridworlds.py:72-82 | `name\|n` is an item of type `name` with `remaining_uses = n` |
| CsvGridworlds.PlayerWithColor | dlgr/griduniverse/csv_gridworlds.py:52-71 | `pIcK` is player `I` with colour `color_names[K-1]` (index -1 for `K = 0`), and invalid when `K` exceeds the number of colours |
| CsvGridworlds.PlayerColorKind | dlgr/griduniverse/csv_gridworlds.py:59-69 | a matched colour suffix resolves to `color_names[K-1]` or raises, as above |
| CsvGridworlds.PlayerTokenOf | dlgr/griduniverse/csv_gridworlds.py:46-53 | the player pattern matches `pIcK` with groups `pI` and `cK` |
| ExperimentItem.ConfigValue | dlgr/griduniverse/experiment.py:884-889 | `__getattr__` finds a value exactly for the keys of the shared type configuration |
| ExperimentItem.NamesInstanceFieldMeaning | dlgr/griduniverse/experiment.py:879-906 | construction is refused exactly when the type configuration itself names `position` or `remaining_uses`, since `__setattr__` then rejects the instance field |
| ExperimentItem.NewItemSound | dlgr/griduniverse/experiment.py:879-882 | every item `__post_init__` builds keeps its instance attributes apart from the type's keys |
| ExperimentItem.NewItemView | dlgr/griduniverse/experiment.py:873-889 | a new item fails exactly as above; otherwise it reads each configuration key from its type, has the type's `item_id`, and `remaining_uses` defaults to `n_uses` |
| ExperimentItem.ConfigReadOnly | dlgr/griduniverse/experiment.py:891-906 | assigning a type-derived attribute, `id`, `creation_timestamp` or `item_id` raises `TypeError` |
| ExperimentItem.SetThenGet | dlgr/griduniverse/experiment.py:891-906 | an accepted assignment is read back, keeps the shared configuration, and leaves every type-derived attribute as it was |
| ExperimentItem.SharedConfig | dlgr/griduniverse/experiment.py:864-889 | two items of one type read every configuration key identically, from the one shared map |
| ExperimentItem.SerializeItem | dlgr/griduniverse/experiment.py:914-923 | the serialized item carries its id, type id, position, maturity, creation time and remaining uses |
| ExperimentPlayer.NeighborMeaning | dlgr/griduniverse/experiment.py:1066-1071 | `is_neighbor` holds exactly within Manhattan distance `d`, symmetrically; a diagonal player is not a neighbour at `d = 1` |
| ExperimentPlayer.Neighbors | dlgr/griduniverse/experiment.py:1073-1081 | the neighbours are exactly the other players within distance `d`, never the player itself |
| ExperimentPlayer.NeighborsShorter | dlgr/griduniverse/experiment.py:1076-1081 | the player itself is never counted, so the list is shorter than the players scanned |
| ExperimentPlayer.IndexIn | dlgr/griduniverse/experiment.py:965-971 | `list.index`: the first position of the value, and `ValueError` (`None`) exactly when it is absent |
| ExperimentPlayer.PlayerFromState | dlgr/griduniverse/experiment.py:581-591 | as written: a state whose colour is missing or unknown is refused with `ValueError`; otherwise the player keeps its id and colour and its colour index names that colour |
| ExperimentPlayer.PlayerFromStateIntended | dlgr/griduniverse/experiment.py:970-974 | a colourless state gets the drawn colour index; a coloured one is treated as written |
| ExperimentPlayer.ColorlessPlayerRejected | dlgr/griduniverse/experiment.py:583-589 | a layout player without a colour, such as `p1`, makes the as-written `deserialize` raise while the intended one accepts it |
| ExperimentPlayer.SerializePlayer | dlgr/griduniverse/experiment.py:1083-1099 | the serialized player carries all thirteen keys: id, position, colour name, score, payoff, the motion settings and `motion_timestamp`, name, identity flag, recruiter, and the carried item as its own state (`null` for an empty hand) |
| ExperimentPlayer.PlayerRoundTrip | dlgr/griduniverse/experiment.py:1083-1099 | serializing a player and building it again keeps what `Player.__init__` reads from the state and resets the rest: motion cost, tremble rate, last timestamp and pending wall are not written, and `motion_timestamp` and the carried item are written but ignored |
| ExperimentPlayer.ColorIndex | dlgr/griduniverse/experiment.py:968-974 | the colour names are distinct, so the colour set on a player maps back to its own index |
| ExperimentWorld.Occupancy | dlgr/griduniverse/experiment.py:357-360 | `can_occupy`, through `_empty`, `has_player` and `has_wall` (lines 820-838): an empty cell can be occupied; a wall cell never can; with overlap, exactly the wall-free cells can; without overlap a player's own cell cannot |
| ExperimentWorld.RemainingRoundTime | dlgr/griduniverse/experiment.py:370-382 | never negative; 0 exactly before the game starts or once the round's time is used up; otherwise `time_per_round` minus the elapsed time |
| ExperimentWorld.AlternatingRounds | dlgr/griduniverse/experiment.py:396-432 | with alternation and donation enabled, donation is active exactly on odd rounds (`is_even_round` is `round % 2`), consumption exactly on even ones, and movement exactly when consumption is |
| ExperimentWorld.SteadyRounds | dlgr/griduniverse/experiment.py:400-432 | without alternation, consumption and movement are always on, and donation is active exactly when enabled |
| ExperimentWorld.ResetMotion | dlgr/griduniverse/experiment.py:454-455 | every player, in the same order, has `motion_timestamp = 0` and nothing else changed |
| ExperimentWorld.RoundCompletion | dlgr/griduniverse/experiment.py:441-455 | nothing changes before the game starts or while time remains; otherwise the round goes up by exactly one, and unless the game is then over the start time is reset (plus the leaderboard delay) and every motion timestamp becomes 0; walls, items and consumed items never change |
| ExperimentWorld.RoundRestarts | dlgr/griduniverse/experiment.py:445-455 | a completed round that does not end the game restarts the clock and zeroes, and only zeroes, each player's motion timestamp; with no leaderboard the new round has its full time |
| ExperimentWorld.StoppedRestored | dlgr/griduniverse/experiment.py:454-455 | resetting a player's motion changes only its motion timestamp |
| ExperimentWorld.SpawnFails | dlgr/griduniverse/experiment.py:879-906 | a spawn fails exactly for an unknown type or a type whose configuration names an instance field (`position`, `remaining_uses`) |
| ExperimentWorld.SpawnRefused | dlgr/griduniverse/experiment.py:670-675 | the error of a refused spawn is the one the `Item` constructor raises |
| ExperimentWorld.SpawnResult | dlgr/griduniverse/experiment.py:670-677 | a spawn stores the new item, with id `len(items) + len(items_consumed)`, at the position and sets `items_updated` |
| ExperimentWorld.SpawnStores | dlgr/griduniverse/experiment.py:670-677 | after a spawn the cell holds the new item, every other cell keeps its item, and the item count grows by one exactly when the cell was free |
| ExperimentWorld.DueChange | dlgr/griduniverse/experiment.py:703-715 | a due automatic transition names the cell it was found in |
| ExperimentWorld.ApplyChange | dlgr/griduniverse/experiment.py:717-722 | applying one change sets (or deletes, for a `None` target) exactly that cell |
| ExperimentWorld.ChangesAt | dlgr/griduniverse/experiment.py:700-722 | after all changes, each cell holds what its own due change says, or its old item when none was due |
| ExperimentWorld.TransitionsMeaning | dlgr/griduniverse/experiment.py:700-722 | `trigger_transitions` touches only the items, and each cell ends with its due change computed from the items before any update |
| ExperimentWorld.SerializeItems | dlgr/griduniverse/experiment.py:914-923 | one serialized entry per item, in dictionary order |
| ExperimentWorld.ChangedFromSerialized | dlgr/griduniverse/experiment.py:687-698 | no item reads as changed against its own serialization |
| ExperimentWorld.ItemsUnchangedSinceSerialized | dlgr/griduniverse/experiment.py:687-698 | `items_changed` is false against the serialization of the current items |
| ExperimentWorld.UnchangedMeaning | dlgr/griduniverse/experiment.py:687-698 | when `items_changed` is false, every remembered item is found at its position with the same id and maturity |
| ExperimentState.Serialized | dlgr/griduniverse/experiment.py:552-566 | `walls` and `items` are present exactly when included; there is one player entry per player, plus the round and `donation_active` |
| ExperimentState.WallFromState | dlgr/griduniverse/experiment.py:595-599 | a wall read back keeps its position |
| ExperimentState.WallRoundTrip | dlgr/griduniverse/maze.py:15-22 | both serialized forms of a wall read back, through the wall rebuild of `deserialize` (experiment.py lines 595-599), as the wall |
| ExperimentState.ItemFromState | dlgr/griduniverse/experiment.py:603-610 | an item state with a missing or unknown type raises `KeyError`; a rebuilt item takes its type's shared configuration and has a position |
| ExperimentState.AbsentKeysKept | dlgr/griduniverse/experiment.py:593-601 | without `walls` and `items` keys, `deserialize` changes only the round and the players |
| ExperimentState.PartialRoundTrip | dlgr/griduniverse/experiment.py:552-601 | reading back a state serialized without walls or items keeps the grid's walls and items |
| ExperimentState.WrongSizeRefused | dlgr/griduniverse/experiment.py:569-577 | a state of the wrong size raises `ValueError` and changes nothing |
| ExperimentState.BuiltAll | dlgr/griduniverse/experiment.py:582-591 | when every entry builds, all are built, in order |
| ExperimentState.InsertAll | dlgr/griduniverse/experiment.py:591-610 | re-inserting a dictionary's values under their own keys rebuilds that dictionary, order included |
| ExperimentState.PlayersRebuilt | dlgr/griduniverse/experiment.py:581-591 | every serialized player of a restorable grid rebuilds, with the fields serialization does not carry reset |
| ExperimentState.PlayersReinserted | dlgr/griduniverse/experiment.py:591 | players keyed by their ids come back under the same keys, in the same order |
| ExperimentState.WallsRoundTrip | dlgr/griduniverse/experiment.py:593-599 | serialized walls read back as the same wall dictionary |
| ExperimentState.ItemsRoundTrip | dlgr/griduniverse/experiment.py:601-610 | serialized items read back as the same item dictionary |
| ExperimentState.SerializeRoundTrip | dlgr/griduniverse/experiment.py:552-610 | `deserialize(serialize())` restores the grid, except that each player's motion cost, tremble rate, timestamps, pending wall and carried item return to their defaults |
| ExperimentRules.Bonus | dlgr/griduniverse/experiment.py:652-654 | every player, and no one else, gains the same amount; the players' order is kept |
| ExperimentRules.DelSize | dlgr/griduniverse/experiment.py:631 | deleting an item's cell removes exactly one entry |
| ExperimentRules.ReplaceAccounts | dlgr/griduniverse/experiment.py:635-639 | replacing an eaten item (respawn or count decrement) leaves players, walls and the consumed list alone and adds at most one item |
| ExperimentRules.EatAccounts | dlgr/griduniverse/experiment.py:631-650 | eating keeps the roster, appends exactly the eaten item to `items_consumed`, counts one more consumption and never grows the item map; a raise still leaves the item consumed |
| ExperimentRules.VisitAccounts | dlgr/griduniverse/experiment.py:624-650 | one player's visit consumes at most one item, and the consumed list grows by exactly the number eaten |
| ExperimentRules.ConsumeAccounts | dlgr/griduniverse/experiment.py:622-650 | over all players, at most one item per player is eaten, and every eaten item is appended to `items_consumed` |
| ExperimentRules.EatShape | dlgr/griduniverse/experiment.py:631-650 | an uneventful eat removes the item, replaces it, feeds the player and records the item as the last one inspected |
| ExperimentRules.EatScores | dlgr/griduniverse/experiment.py:643-648 | a player with a colour index above 0 gains exactly the item's calories, and every other player is unchanged |
| ExperimentRules.ColorZeroRaises | dlgr/griduniverse/experiment.py:645-647 | a colour-0 player reaching the score update raises `AttributeError` (`self.grid` does not exist), after the item was already removed and recorded as consumed |
| ExperimentRules.NothingToEat | dlgr/griduniverse/experiment.py:622-654 | with no player standing on an item, `consume` changes nothing |
| ExperimentRules.NothingUnderfoot | dlgr/griduniverse/experiment.py:624-628 | the loop over players eats nothing when no player stands on an item |
| ExperimentRules.PublicGoodFromLastInspected | dlgr/griduniverse/experiment.py:652-654 | the public-good bonus, `public_good × consumed` of the last item inspected, goes to every player, and only when something was consumed |
| ExperimentRules.ReplenishPlan | dlgr/griduniverse/experiment.py:757-774 | the intended plan: add `delta` items when `delta ≥ 0`; remove `-delta` items when over the target and the type limits quantity; never both |
| ExperimentRules.PlanReachesTarget | dlgr/griduniverse/experiment.py:757-774 | for a type that limits quantity, the items added minus those removed is exactly `delta` |
| ExperimentRules.OneShortIsCulled | dlgr/griduniverse/experiment.py:760-770 | as written, a limited type lacking exactly one item loses one (`add_items` is `delta > 1`), where the intended plan adds one |
| ExperimentRules.PlansAgreeElsewhere | dlgr/griduniverse/experiment.py:760-774 | for every other `delta` the as-written and intended plans agree |
| ExperimentRules.Clamp | dlgr/griduniverse/experiment.py:739-749 | the target count is clamped to `[0, rows × columns]` and unchanged when already inside |
| ExperimentRules.OfType | dlgr/griduniverse/experiment.py:725-727 | the items of one type, taken from the snapshot |
| ExperimentRules.UprootShrinks | dlgr/griduniverse/experiment.py:764-770 | culling one item only removes items, never more than one |
| ExperimentRules.CullShrinks | dlgr/griduniverse/experiment.py:762-772 | a run of culls only removes items and touches nothing but the items |
| ExperimentRules.SpawnAdds | dlgr/griduniverse/experiment.py:656-685 | a spawn touches only the items and adds at most one |
| ExperimentRules.GrowAdds | dlgr/griduniverse/experiment.py:762-765 | `n` spawns add at most `n` items and touch nothing else |
| ExperimentRules.GrowIntoFreeCells | dlgr/griduniverse/experiment.py:762-765 | spawned into free cells, `n` spawns add exactly `n` items |
| ExperimentRules.ReplenishTypeAdjusts | dlgr/griduniverse/experiment.py:728-774 | replenishing one type touches only the items and sets that type's `item_count` to its clamped target |
| ExperimentRules.AdjustKeeps | dlgr/griduniverse/experiment.py:759-774 | the add-or-remove loop touches only the items and not the counts |
| ExperimentRules.ReplenishTypeKeeps | dlgr/griduniverse/experiment.py:728-774 | replenishing one type leaves players, walls and the consumed list unchanged |
| ExperimentRules.ReplenishKeepsPlayers | dlgr/griduniverse/experiment.py:724-774 | `replenish_items` over all types leaves players, walls and the consumed list unchanged |
| ExperimentRules.ReplenishTypeCount | dlgr/griduniverse/experiment.py:739-749 | the new `item_count` lies in `[0, rows × columns]` and equals the grown value when that is already inside |
| ExperimentRules.Seen | dlgr/griduniverse/experiment.py:843-845 | the colours counted are the neighbours' followed by the player's own |
| ExperimentRules.SpreadMeaning | dlgr/griduniverse/experiment.py:843-849 | a player takes a colour exactly when it has neighbours and that colour holds a strict majority of the colours seen (ranks are all 1, as without a hierarchy) |
| ExperimentRules.Updates | dlgr/griduniverse/experiment.py:842-849 | updates are collected only for scanned players |
| ExperimentRules.Recolor | dlgr/griduniverse/experiment.py:851-852 | applying updates keeps the roster and its order |
| ExperimentRules.RecolorUpdates | dlgr/griduniverse/experiment.py:840-852 | every player is recoloured by the majority computed from the colours before any update, so the result does not depend on the scan order |
| ExperimentRules.SpreadContagionMeaning | dlgr/griduniverse/experiment.py:840-852 | after `spread_contagion` each player has exactly the colour its own neighbourhood decided |
| ExperimentRules.Heading | dlgr/griduniverse/experiment.py:991-1008 | without a tremble the requested direction is kept; a tremble of an unknown direction raises (`list.remove`) |
| ExperimentRules.MoveDisabled | dlgr/griduniverse/experiment.py:1001-1002 | with movement disabled, `move` returns nothing and changes nothing |
| ExperimentRules.MoveRaises | dlgr/griduniverse/experiment.py:1004-1008 | `move` raises exactly when movement is enabled, a tremble happens and the direction is unknown |
| ExperimentRules.MoveRefused | dlgr/griduniverse/experiment.py:1029-1046 | a refused move changes only `motion_direction`; the message is the wait-time one exactly when the wait has not passed, else the cost one exactly when the player cannot pay, else "not open" for the target |
| ExperimentRules.MoveSucceeds | dlgr/griduniverse/experiment.py:1048-1064 | a move goes to the clamped target the grid lets it occupy, debits exactly `motion_cost`, clears `add_wall`, builds the pending wall (once) and reports it, and leaves items and other players unchanged |
| ExperimentRules.AttemptStaysInside | dlgr/griduniverse/experiment.py:1012-1027 | from inside the grid, an attempted move ends inside, at most one step away |
| ExperimentRules.MoveStaysInside | dlgr/griduniverse/experiment.py:998-1064 | a player inside the grid stays inside, at most one step from where it was |
| ExperimentRules.TargetInside | dlgr/griduniverse/experiment.py:1014-1027 | the clamped target of a step stays inside and at most one step away |
| ExperimentRules.MoveAgainstEdge | dlgr/griduniverse/experiment.py:1014-1027 | moving up from the top row without overlap is refused as "not open", since the player's own cell counts as occupied; with overlap it "moves" in place and still pays `motion_cost` |
| ExperimentText.ParseMessageAsWritten | dlgr/griduniverse/experiment.py:1321-1329 | a body comes back exactly when the message starts with `channel:` |
| ExperimentText.ParseMessage | dlgr/griduniverse/experiment.py:1321-1329 | a body comes back exactly for a message starting with `channel:`, and it is what follows that prefix |
| ExperimentText.ParseFramed | dlgr/griduniverse/experiment.py:1321-1329 | a body framed with its channel parses back to itself |
| ExperimentText.ParseAgrees | dlgr/griduniverse/experiment.py:1325-1326 | the code as written and the prefix strip agree whenever the body never contains `channel:` |
| ExperimentText.ParseMessageCorrupts | dlgr/griduniverse/experiment.py:1325-1326 | on channel `c` the message `c:"c:"` has its body turned into `""` by the code as written, but not by the prefix strip |
| ExperimentText.FormatField | dlgr/griduniverse/experiment.py:126-139 | a spec that does not start with `plural` is standard formatting; the only error is `IndexError` |
| ExperimentText.FormatPlural | dlgr/griduniverse/experiment.py:126-139 | `{n:plural,one,many}` gives `one` exactly for a value equal to 1 (`1`, `"1"`, `1.0`, `True`) and `many` for any other |
| ExperimentText.FormatPluralShort | dlgr/griduniverse/experiment.py:131-137 | a bare `plural` spec raises `IndexError` |
| ExperimentText.RunLength | dlgr/griduniverse/experiment.py:1992-2000 | the leading separator-free run is maximal: none of its elements is a separator and the next one is |
| ExperimentText.IsplitMeaning | dlgr/griduniverse/experiment.py:1992-2000 | every group of `isplit` is non-empty and separator-free, and the groups laid end to end are the non-separators of the input, in order |
| ExperimentText.IsplitJoined | dlgr/griduniverse/experiment.py:1992-2000 | joining separator-free groups with a separator and splitting again gives back the groups |
| ExperimentHandlers.RouteComplete | dlgr/griduniverse/experiment.py:1280-1305 | every handler is reached by its own message type, except that in replay mode only `connect` and `disconnect` are |
| ExperimentHandlers.RouteSound | dlgr/griduniverse/experiment.py:1280-1305 | a routed message goes to the handler of its own type, and never to a non-replayable one in replay mode |
| ExperimentHandlers.RouteUnknown | dlgr/griduniverse/experiment.py:1304-1305 | a message type no handler has is ignored |
| ExperimentHandlers.ChangeColorMeaning | dlgr/griduniverse/experiment.py:1419-1447 | an unknown colour raises `ValueError`; `color_changed` is published exactly for a known new colour the player can afford when colours are costly; the player then has that colour, name and index, pays its cost, and nothing else changes; otherwise nothing changes |
| ExperimentHandlers.NamesDistinct | dlgr/griduniverse/experiment.py:1422 | the player colour names are distinct, so `index` finds the colour's own slot |
| ExperimentHandlers.BuildWallMeaning | dlgr/griduniverse/experiment.py:1518-1525 | a player who can afford it pays the wall cost and has the wall pending at the position, nothing else changing; otherwise nothing changes |
| ExperimentHandlers.HandleMoveRejected | dlgr/griduniverse/experiment.py:1449-1459 | an illegal move publishes `move_rejection` for the player and changes, of that player, at most its heading |
| ExperimentHandlers.HandleMoveWall | dlgr/griduniverse/experiment.py:1460-1465 | a wall message is published exactly when a move succeeds for a player with a pending wall, and an error from the move is raised exactly when the move raises |
| ExperimentHandlers.Credit | dlgr/griduniverse/experiment.py:1490-1491 | crediting keeps the players and their order |
| ExperimentHandlers.CreditMeaning | dlgr/griduniverse/experiment.py:1490-1491 | each recipient gains the amount once, and every other player is unchanged |
| ExperimentHandlers.WithColorIn | dlgr/griduniverse/experiment.py:434-439 | `players_with_color` picks exactly the players of that colour index, without repeats |
| ExperimentHandlers.WithColor | dlgr/griduniverse/experiment.py:434-439 | the players found for a colour id are distinct players of the grid |
| ExperimentHandlers.Recipients | dlgr/griduniverse/experiment.py:1472-1485 | the recipients are distinct players of the grid |
| ExperimentHandlers.DonatedMeaning | dlgr/griduniverse/experiment.py:1487-1491 | the donor loses the amount, each recipient gains the received share, and nothing else changes |
| ExperimentHandlers.DonationIgnored | dlgr/griduniverse/experiment.py:1469-1487 | nothing changes and nothing is published while donation is inactive, the donor cannot afford the amount, or there are no recipients |
| ExperimentHandlers.DonationMeaning | dlgr/griduniverse/experiment.py:1467-1502 | otherwise the scores move as `DonatedMeaning` says and `donation_processed` is published with the amount and the received share |
| ExperimentHandlers.DonationToOne | dlgr/griduniverse/experiment.py:1482-1491 | an individual donation moves the amount from the donor and gives the recipient the amount times the multiplier |
| ExperimentHandlers.PlantFoodMeaning | dlgr/griduniverse/experiment.py:1504-1512 | nothing happens when the player cannot afford the first item type's planting cost or the cell is taken; a successful planting charges that cost and adds exactly one item, of the spawned type, at the cell |
| ExperimentHandlers.PlantStored | dlgr/griduniverse/experiment.py:1511-1512 | spawning into a free cell after the charge keeps the players and adds exactly that item |
| ExperimentHandlers.ItemConsumeRefused | dlgr/griduniverse/experiment.py:1527-1537 | `consume_error` is published, changing nothing, exactly when the player holds nothing or an item without calories |
| ExperimentHandlers.EatMeaning | dlgr/griduniverse/experiment.py:1539-1548 | the held item loses one use and, once it reaches 0, is moved to the consumed items; the eater gains the calories (times the relative deprivation for colour 0); no other player, item or wall changes |
| ExperimentHandlers.ItemConsumeMeaning | dlgr/griduniverse/experiment.py:1527-1552 | a successful consumption is the eating, plus the item's public good credited to every player |
| ExperimentHandlers.PickUpMeaning | dlgr/griduniverse/experiment.py:1554-1572 | an error is published, changing nothing, exactly when the player already holds an item or the cell is empty; otherwise the cell's item, without a position, moves into the player's hand and the cell is emptied |
| ExperimentHandlers.DropMeaning | dlgr/griduniverse/experiment.py:1661-1679 | an error is published, changing nothing, exactly when the player holds nothing or the cell is taken; otherwise the held item, now at the cell, moves from the hand to the cell |
| ExperimentHandlers.PickUpThenDrop | dlgr/griduniverse/experiment.py:1554-1679 | picking an item up and dropping it at the same cell restores the grid, apart from the `items_updated` flag |
| ExperimentHandlers.LookUpMeaning | dlgr/griduniverse/experiment.py:1581-1591 | a target with one use left takes the `last` transition when there is one; otherwise, and when there is none, the plain key is used; no transition exactly when neither applies |
| ExperimentHandlers.TransitionRefused | dlgr/griduniverse/experiment.py:1593-1606 | an error is published, changing nothing, exactly when no transition applies or too few players stand by for its `required_actors` |
| ExperimentHandlers.SpendActor | dlgr/griduniverse/experiment.py:1610-1619 | spending the actor's uses changes only that player's held item |
| ExperimentHandlers.SpendTarget | dlgr/griduniverse/experiment.py:1611-1625 | spending the target's uses touches no player or wall |
| ExperimentHandlers.Spend | dlgr/griduniverse/experiment.py:1608-1625 | the players and their order are kept |
| ExperimentHandlers.SpendMeaning | dlgr/griduniverse/experiment.py:1608-1625 | uses change only on items that still have some; an actor or target used up or due for replacement is moved, actor first, to the consumed items and leaves the hand or the cell; every other cell and player is unchanged |
| ExperimentHandlers.UsedMeaning | dlgr/griduniverse/experiment.py:1610-1613 | an item with no uses left keeps 0; any other gains the change; nothing else about it changes |
| ExperimentHandlers.Hold | dlgr/griduniverse/experiment.py:1628-1638 | only the player's held item changes |
| ExperimentHandlers.ReplaceActor | dlgr/griduniverse/experiment.py:1628-1638 | replacing the actor changes only the player's held item |
| ExperimentHandlers.ReplaceActorMeaning | dlgr/griduniverse/experiment.py:1628-1638 | no change when the actor's type stays; an unknown new type raises `TypeError`; a `None` end empties the hand; otherwise the hand holds a fresh item of the new type with its full uses |
| ExperimentHandlers.ReplaceTarget | dlgr/griduniverse/experiment.py:1641-1648 | replacing the target touches no player and no consumed item |
| ExperimentHandlers.ReplaceTargetMeaning | dlgr/griduniverse/experiment.py:1641-1648 | no change when the target's type stays; a `None` or unknown new type raises `KeyError`; otherwise the cell holds a fresh item of the new type, at the cell, with its full uses; other cells never change |
| ExperimentHandlers.Replaced | dlgr/griduniverse/experiment.py:1627-1648 | the players and their order are kept |
| ExperimentHandlers.NullTargetEndRaises | dlgr/griduniverse/experiment.py:1621-1650 | a transition whose `target_end` is `None` on an occupied cell raises `KeyError` after the target has left the cell for the consumed items |
| ExperimentHandlers.NeighborsDistinct | dlgr/griduniverse/experiment.py:1073-1081 | the neighbours found have no repeats |
| ExperimentHandlers.NeighborsShape | dlgr/griduniverse/experiment.py:1073-1081 | the player's neighbours are distinct and do not include the player |
| ExperimentHandlers.SharedMeaning | dlgr/griduniverse/experiment.py:1653-1659 | the calories are shared out exactly: each neighbour gains `calories // n`, the actor that plus `calories % n`, nobody else anything |
| ExperimentHandlers.AppliedCalories | dlgr/griduniverse/experiment.py:1608-1659 | after a transition applies, each player's score has changed only by its share of the calories |
| ExperimentHandlers.TransitionCalories | dlgr/griduniverse/experiment.py:1574-1659 | after a successful `item_transition`, the shares sum to the transition's calories and each player's score has changed by its share alone |
| ExperimentGame.Griduniverse.ChangeColor | dlgr/griduniverse/experiment.py:1419-1447 | updates the player in place and replies exactly as `ExperimentHandlers.ChangeColorMeaning` describes |
| ExperimentGame.Griduniverse.ToggleVisible | dlgr/griduniverse/experiment.py:1514-1516 | sets the player's `identity_visible` and nothing else |
| ExperimentGame.Griduniverse.BuildWall | dlgr/griduniverse/experiment.py:1518-1525 | charges the wall cost and sets the pending wall in place, as `ExperimentHandlers.BuildWallMeaning` describes |
| ExperimentGame.Griduniverse.HandleMove | dlgr/griduniverse/experiment.py:1449-1465 | moves the player in place and publishes the rejection or the wall, as `ExperimentHandlers.HandleMoveWall` describes |
| ExperimentGame.Griduniverse.Donation | dlgr/griduniverse/experiment.py:1467-1502 | updates the scores in place and publishes `donation_processed`, as `ExperimentHandlers.DonationMeaning` describes |
| ExperimentGame.Griduniverse.Give | dlgr/griduniverse/experiment.py:1487-1491 | the donor pays and each recipient is credited, in place |
| ExperimentGame.Griduniverse.Credit | dlgr/griduniverse/experiment.py:1490-1491 | each recipient's score grows by the share, in place |
| ExperimentGame.Griduniverse.PlantFood | dlgr/griduniverse/experiment.py:1504-1512 | charges the planting cost and spawns the item in place, as `ExperimentHandlers.PlantFoodMeaning` describes |
| ExperimentGame.Griduniverse.Charge | dlgr/griduniverse/experiment.py:1511 | only the player's score changes, by the cost |
| ExperimentGame.Griduniverse.ItemConsume | dlgr/griduniverse/experiment.py:1527-1552 | eats the held item in place, as `ExperimentHandlers.ItemConsumeMeaning` describes |
| ExperimentGame.Griduniverse.PickUp | dlgr/griduniverse/experiment.py:1554-1572 | moves the item from the cell to the hand in place, as `ExperimentHandlers.PickUpMeaning` describes |
| ExperimentGame.Griduniverse.Drop | dlgr/griduniverse/experiment.py:1661-1679 | moves the item from the hand to the cell in place, as `ExperimentHandlers.DropMeaning` describes |
| ExperimentGame.Griduniverse.ItemTransition | dlgr/griduniverse/experiment.py:1574-1659 | applies the transition in place, step by step, as `ExperimentHandlers.TransitionCalories` and `ExperimentHandlers.SpendMeaning` describe |
| ExperimentGame.Griduniverse.Spend | dlgr/griduniverse/experiment.py:1608-1625 | spends the uses of the actor and target in place |
| ExperimentGame.Griduniverse.Replace | dlgr/griduniverse/experiment.py:1627-1650 | replaces the actor and then the target in place, stopping at the first error |
| ExperimentGame.Griduniverse.ReplaceActor | dlgr/griduniverse/experiment.py:1628-1638 | replaces the held item in place, or changes nothing when the replacement raises |
| ExperimentGame.Griduniverse.ReplaceTarget | dlgr/griduniverse/experiment.py:1641-1648 | replaces the cell's item in place |
| ExperimentGrid.Gridworld.constructor | dlgr/griduniverse/experiment.py:283-289 | a new grid holds no players, walls, items or consumed items, at round 0 |
| ExperimentGrid.Gridworld.CheckRoundCompletion | dlgr/griduniverse/experiment.py:441-455 | completes the round in place, as `ExperimentWorld.RoundCompletion` describes |
| ExperimentGrid.Gridworld.ResetMotionTimestamps | dlgr/griduniverse/experiment.py:454-455 | zeroes every player's motion timestamp in place, as `ExperimentWorld.ResetMotion` describes |
| ExperimentGrid.Gridworld.SpawnItem | dlgr/griduniverse/experiment.py:656-685 | stores the new item in place, or changes nothing when the item cannot be built, as `ExperimentWorld.SpawnStores` describes |
| ExperimentGrid.Gridworld.Store | dlgr/griduniverse/experiment.py:676-677 | only the cell's item and `items_updated` change |
| ExperimentGrid.Gridworld.Consume | dlgr/griduniverse/experiment.py:622-654 | visits every player in order and eats, replaces and pays out in place, as `ExperimentRules.EatAccounts` and `ExperimentRules.EatScores` describe |
| ExperimentGrid.Gridworld.VisitPlayer | dlgr/griduniverse/experiment.py:626-650 | eats what lies under one player in place |
| ExperimentGrid.Gridworld.ReplaceItem | dlgr/griduniverse/experiment.py:637-641 | replaces an eaten item in place, or changes nothing when that raises |
| ExperimentGrid.Gridworld.RemoveItem | dlgr/griduniverse/experiment.py:633-636 | moves the cell's item to the consumed items in place |
| ExperimentGrid.Gridworld.PayPublicGood | dlgr/griduniverse/experiment.py:652-654 | credits every player with the public good in place |
| ExperimentGrid.Gridworld.TriggerTransitions | dlgr/griduniverse/experiment.py:700-722 | computes every due change and then applies them in place, as `ExperimentWorld.TransitionsMeaning` describes |
| ExperimentGrid.Gridworld.DueItemChanges | dlgr/griduniverse/experiment.py:703-715 | the due changes of the current items, in dictionary order, the first error stopping the pass; the grid does not change |
| ExperimentGrid.Gridworld.ApplyItemChanges | dlgr/griduniverse/experiment.py:717-722 | applies the changes in order, as `ExperimentWorld.ChangesAt` describes |
| ExperimentGrid.Gridworld.SpreadContagion | dlgr/griduniverse/experiment.py:840-852 | recolours the players in place, as `ExperimentRules.SpreadContagionMeaning` describes |
| ExperimentGrid.Gridworld.ContagionUpdates | dlgr/griduniverse/experiment.py:842-850 | every player's new colour, computed from the colours before any update; the grid does not change |
| ExperimentGrid.Gridworld.Recolor | dlgr/griduniverse/experiment.py:852-853 | applies the colour updates in place, as `ExperimentRules.RecolorUpdates` describes |
| ExperimentGrid.Gridworld.ReplenishItems | dlgr/griduniverse/experiment.py:724-775 | replenishes every item type in place, as `ExperimentRules.ReplenishTypeAdjusts` and `ExperimentRules.ReplenishTypeKeeps` describe |
| ExperimentGrid.Gridworld.ReplenishType | dlgr/griduniverse/experiment.py:729-775 | one item type's target count and adjustment, in place |
| ExperimentGrid.Gridworld.SetCount | dlgr/griduniverse/experiment.py:738-749 | only that type's target count changes |
| ExperimentGrid.Gridworld.AdjustItems | dlgr/griduniverse/experiment.py:754-775 | grows or culls that type's items in place |
| ExperimentGrid.Gridworld.GrowItems | dlgr/griduniverse/experiment.py:762-765 | spawns up to `n` items, in place, as `ExperimentRules.GrowAdds` describes |
| ExperimentGrid.Gridworld.CullItems | dlgr/griduniverse/experiment.py:766-775 | removes `n` items of the type, in place, as `ExperimentRules.CullShrinks` describes |
| ExperimentGrid.Gridworld.UprootItem | dlgr/griduniverse/experiment.py:767-773 | removes one chosen item in place |
| ExperimentGrid.Gridworld.Move | dlgr/griduniverse/experiment.py:998-1064 | moves the player in place and returns the move's reply, as `ExperimentRules.MoveSucceeds` and `ExperimentRules.MoveRefused` describe |
| ExperimentGrid.Gridworld.Deserialize | dlgr/griduniverse/experiment.py:568-612 | restores the grid in place, as `ExperimentState.SerializeRoundTrip` describes |
| ExperimentGrid.Gridworld.LoadPlayers | dlgr/griduniverse/experiment.py:581-591 | rebuilds the players in place, in order, stopping at the first error |
| ExperimentGrid.Gridworld.LoadWalls | dlgr/griduniverse/experiment.py:593-599 | rebuilds the walls in place |
| ExperimentGrid.Gridworld.LoadItems | dlgr/griduniverse/experiment.py:601-611 | rebuilds the items in place, stopping at the first error |
| ItemsJs.ShowNoLeadingZero | dlgr/griduniverse/static/scripts/items.js:53-54 | `JSON.stringify` writes a number without leading zeros |
| ItemsJs.ParseStringifyInt | dlgr/griduniverse/static/scripts/items.js:53-63 | `JSON.parse` reads back every integer `JSON.stringify` writes, and the text has no comma |
| ItemsJs.ParseStringify | dlgr/griduniverse/static/scripts/items.js:53-63 | a position key written by `JSON.stringify` parses back to the position, so `positionOf` returns the position given to `add` |
| ItemsJs.StringifyInjective | dlgr/griduniverse/static/scripts/items.js:53-59 | two positions share a key exactly when they are equal, so a key names one cell |
| ItemsJs.GridItems.constructor | dlgr/griduniverse/static/scripts/items.js:47-50 | both maps start empty |
| ItemsJs.GridItems.AtPosition | dlgr/griduniverse/static/scripts/items.js:57-60 | the item stored under the position's key, `undefined` when there is none; by the `Add` contract an added item is found at its position, and `StringifyInjective` makes the key name one cell |
| ItemsJs.GridItems.PositionOf | dlgr/griduniverse/static/scripts/items.js:62-64 | `JSON.parse` throws for an unknown id; an id stored with the key of a position gives that position back (`ParseStringify`) |
| ItemsJs.GridItems.Add | dlgr/griduniverse/static/scripts/items.js:52-55 | the item is stored under its position's key and its id mapped to that key; afterwards `atPosition` finds the item and `positionOf` gives the position |
| ItemsJs.GridItems.Remove | dlgr/griduniverse/static/scripts/items.js:66-69 | the key of the item's own `position` field and the item's id are deleted, and nothing else |
| ItemsJs.RemoveStale | dlgr/griduniverse/static/scripts/items.js:52-69 | an item added at `p` whose `position` field still says `q` stays under `p` after `remove` when `p != q`, while its id is forgotten |
| ItemsJs.HexDigitValue | dlgr/griduniverse/static/scripts/items.js:104-106 | a hex digit's value is below 16 |
| ItemsJs.HexRun | dlgr/griduniverse/static/scripts/items.js:104-106 | `parseInt(..., 16)` reads the longest leading run of hex digits |
| ItemsJs.ParseHexPair | dlgr/griduniverse/static/scripts/items.js:104-106 | two hex digits parse to `16 * a + b`, at most 255 |
| ItemsJs.Doubled | dlgr/griduniverse/static/scripts/items.js:96-101 | each character is written twice, in place |
| ItemsJs.HexToRgbPercentages | dlgr/griduniverse/static/scripts/items.js:82-109 | after dropping one leading `#`, anything but 3 or 6 characters throws `Error`; otherwise three channels come back |
| ItemsJs.Channels | dlgr/griduniverse/static/scripts/items.js:104-108 | three channels |
| ItemsJs.ShortHex | dlgr/griduniverse/static/scripts/items.js:94-101 | a three-digit colour means the same as the six-digit one with each digit doubled |
| ItemsJs.HexChannels | dlgr/griduniverse/static/scripts/items.js:82-109 | a well-formed 3- or 6-digit colour gives three finite channels between 0 and 1 |
| ItemsJs.ChannelsRange | dlgr/griduniverse/static/scripts/items.js:103-108 | six hex digits give three finite channels between 0 and 1 |
| ItemsJs.DoubledHex | dlgr/griduniverse/static/scripts/items.js:96-101 | doubling three hex digits gives six hex digits |
| ItemsJs.HexPairChannel | dlgr/griduniverse/static/scripts/items.js:104-106 | a pair of hex digits over 255 lies between 0 and 1 |
| ItemsJs.Blend | dlgr/griduniverse/static/scripts/items.js:111-118 | three channels |
| ItemsJs.RgbOnScale | dlgr/griduniverse/static/scripts/items.js:111-118 | the loop fills the three channels `end + percentage * (start - end)` |
| ItemsJs.BlendEnds | dlgr/griduniverse/static/scripts/items.js:111-118 | percentage 0 gives the end colour and 1 the start colour |
| ItemsJs.BlendBetween | dlgr/griduniverse/static/scripts/items.js:111-118 | a percentage between 0 and 1 gives a channel between the two ends |
| ItemsJs.ScaledBetween | dlgr/griduniverse/static/scripts/items.js:114 | scaling a difference by a fraction keeps it between 0 and the difference |
| ItemsJs.ItemColor | dlgr/griduniverse/static/scripts/items.js:21-36 | three channels or the `Error` of a malformed colour; a sprite without a comma is drawn in its one colour at every maturity. `MatureShowsImmature` states the two-colour case |
| ItemsJs.MatureShowsImmature | dlgr/griduniverse/static/scripts/items.js:21-36 | a fully mature item (maturity 1) is drawn in its immature colour, because `rgbOnScale` puts the start colour at 1 |
| LegacyGrid.NeighborDistance | grid.py:315-321 | two players are neighbours exactly when their Manhattan distance is at most `d`, and the relation is symmetric |
| LegacyGrid.NeighborsFrom | grid.py:323-329 | the neighbours among the later players, in list order |
| LegacyGrid.Neighbors | grid.py:323-329 | exactly the other players within distance `d`, in list order |
| LegacyGrid.BestAt | grid.py:178 | `max(colors, key=colors.count)`: the first colour with the highest count |
| LegacyGrid.CountsDisjoint | grid.py:178-179 | the counts of two different colours sum to at most the length |
| LegacyGrid.CountedOccurs | grid.py:178 | a colour with a positive count occurs in the list |
| LegacyGrid.MajorityIsPlurality | grid.py:178-179 | a colour held by more than half the list is the plurality colour `max` finds |
| LegacyGrid.ApplyList | grid.py:183-184 | recolouring keeps the number of players |
| LegacyGrid.NoHierarchyNoChange | grid.py:172-192 | without a contagion hierarchy every rank is 1, the strict `<` never holds, and nobody changes colour |
| LegacyGrid.NothingCollected | grid.py:173-182 | when no player's update applies, no update is collected |
| LegacyGrid.UpdateMeaning | grid.py:174-182 | a player is recoloured only to a colour among its neighbours and itself held by a strict majority and ranked strictly lower than its own |
| LegacyGrid.Tremble | grid.py:261-271 | an unknown direction raises `ValueError`; otherwise the new direction is a different one of the four |
| LegacyGrid.IndexOf | grid.py:267 | the first index of the value |
| LegacyGrid.LegacyGridworld.constructor | grid.py:28-78 | the settings are stored, there are no players or consumed food, and one food item with id `k` is spawned at each given position |
| LegacyGrid.LegacyGridworld.HasPlayer | grid.py:154-158 | true exactly when some player stands at the position |
| LegacyGrid.LegacyGridworld.HasFood | grid.py:160-164 | true exactly when some food lies at the position |
| LegacyGrid.LegacyGridworld.HasWall | grid.py:166-170 | true exactly when some wall is at the position |
| LegacyGrid.LegacyGridworld.Empty | grid.py:146-152 | true exactly when no player, food or wall is at the position |
| LegacyGrid.LegacyGridworld.RandomEmptyPosition | grid.py:134-144 | the first empty position among the draws, or none when no draw is empty |
| LegacyGrid.LegacyGridworld.SpawnFood | grid.py:99-105 | one food item is appended, with id `len(food) + len(food_consumed)`, and nothing else changes |
| LegacyGrid.LegacyGridworld.Consume | grid.py:87-97 | eats in place as `ConsumeFrom` says, including the skip caused by removing from the list being iterated |
| LegacyGrid.LegacyGridworld.EatFood | grid.py:91-96 | one food item is eaten in place, and a respawn counted when food respawns |
| LegacyGrid.LegacyGridworld.Move | grid.py:273-313 | only the moving player changes, as `MoveResult` says, or the move raises |
| LegacyGrid.LegacyGridworld.SpreadContagion | grid.py:172-185 | recolours the players in place or, when a rank raises, changes nothing |
| LegacyGrid.CollectUpdates | grid.py:174-182 | the colour updates of all players, computed before any is applied; the grid does not change |
| LegacyGrid.ApplyUpdates | grid.py:183-184 | applies the colour updates in order; the grid does not change |
| LegacyGrid.FirstEater | grid.py:89-91 | the first player standing on the food, or none |
| LegacyGrid.FirstEaterIs | grid.py:89-91 | the first player on the cell is the eater |
| LegacyGrid.NoEater | grid.py:89-91 | with nobody on the cell there is no eater |
| LegacyGrid.Eat | grid.py:91-96 | eating removes one food item, which a respawn replaces |
| LegacyGrid.TotalScoreUpdate | grid.py:96 | changing one score changes the total by the difference |
| LegacyGrid.EatScore | grid.py:91-96 | each eaten food item adds the food reward to the total score and one consumed item |
| LegacyGrid.ConsumeShape | grid.py:87-97 | consumption only appends to the consumed food, each eaten item lying under some player; without respawn the food shrinks by the number eaten, with it the food count stays; players keep their positions |
| LegacyGrid.ConsumeScore | grid.py:87-97 | the total score grows by the food reward once per eaten item |
| LegacyGrid.ConsumeSkips | grid.py:88-93 | with two players each standing on one of two food items, only the first item is eaten, because removing it shifts the list under the iteration |
| LegacyGrid.MoveInBounds | grid.py:283-301 | a move keeps the player on the grid and moves it by at most one cell |
| LegacyGrid.MoveBlocked | grid.py:303-313 | without overlap, a player only ever moves onto a cell with no wall and no player |
| LegacyGrid.MoveTooSoon | grid.py:303-313 | a player who moved within the last `1 / speed_limit` seconds, or cannot pay the motion cost, only turns |
| LegacyGrid.MoveOverlap | grid.py:273-313 | with overlap, a player who may move and can pay reaches the target cell, pays the motion cost and records the time |
| LegacyGrid.CollectErr | grid.py:174-182 | a rank that raises for one player makes the pass raise |
| LegacyGrid.CollectSound | grid.py:174-182 | every collected update is a player's own update, in list order |
| LegacyGrid.CollectComplete | grid.py:174-182 | every player's update is collected |
| LegacyGrid.ApplyListAt | grid.py:183-184 | a player with an update takes its colour; every other player is unchanged |
| LegacyGrid.RecoloredMeaning | grid.py:172-185 | after the pass each player has the colour its own update says, computed from the colours before the pass |
| LegacyMaze.GenerateMaze | maze.py:4-43 | below three rows or columns `randrange(0)` raises `ValueError`; otherwise the walls are on the grid, in row-major order without repeats, and number `2 * (r + 1) * (c + 1)` for the `r * c` maze cells |
| Maze.NewWall | dlgr/griduniverse/maze.py:11-13 | a new wall has the given position and the default grey |
| Maze.SerializeWall | dlgr/griduniverse/maze.py:15-22 | a grey wall serializes as its bare position, any other as position and colour |
| Maze.ShuffleFacts | dlgr/griduniverse/maze.py:57-58 | each `random.shuffle` of the four neighbours is a permutation of them |
| Maze.SumRowUpdate | dlgr/griduniverse/maze.py:59-66 | changing one cell of a row changes its count by the difference |
| Maze.SumGridUpdate | dlgr/griduniverse/maze.py:59-66 | changing one cell of the picture changes its count by the difference |
| Maze.Carve | dlgr/griduniverse/maze.py:45-66 | the depth-first carving visits every maze cell, opens exactly `r * c - 1` passages, and leaves the picture with exactly one star fewer per passage |
| Maze.WallPositions | dlgr/griduniverse/maze.py:68-74 | the star positions of the picture, as `[idx // columns, idx % columns]`, in order |
| Maze.PositionsCount | dlgr/griduniverse/maze.py:68-76 | a carved `r` by `c` maze has exactly `2 * (r + 1) * (c + 1)` wall cells |
| Maze.PositionsFit | dlgr/griduniverse/maze.py:68-76 | every wall position lies on the `rows` by `columns` grid |
| Maze.PositionsFacts | dlgr/griduniverse/maze.py:68-76 | the wall positions number `2 * (r + 1) * (c + 1)`, lie on the grid and come in row-major order without repeats |
| Maze.Generate | dlgr/griduniverse/maze.py:41-78 | `_generate` raises `ValueError` exactly when the maze has no cell to start from (fewer than three rows or columns); otherwise it returns `2 * (r + 1) * (c + 1)` positions on the grid, strictly increasing in row-major order |
| Maze.PositionMapFacts | dlgr/griduniverse/maze.py:103 | `position_map` sends each wall position to the last of the walls at it |
| Maze.NeighbourSet | dlgr/griduniverse/maze.py:106-110 | the wall cells next to a wall |
| Maze.Degrees | dlgr/griduniverse/maze.py:105-110 | each wall's number of wall neighbours |
| Maze.Place | dlgr/griduniverse/maze.py:113-123 | a wall with two neighbours goes to the tier after the first tier holding one of them, or is left unplaced when none does |
| Maze.ScanWalls | dlgr/griduniverse/maze.py:105-125 | the first tier collects the walls with at most one neighbour, in index order, until the limit stops the scan; tiers only ever hold walls with two neighbours beyond the first |
| Maze.PlaceUnmatched | dlgr/griduniverse/maze.py:127-136 | the second pass places unmatched walls without changing the first tier |
| Maze.TakeTiers | dlgr/griduniverse/maze.py:138-144 | the walls taken come tier by tier up to the limit: the first `limit` terminals, or all of them and some from later tiers |
| Maze.ClassifyTerminals | dlgr/griduniverse/maze.py:99-147 | only walls with at most two neighbours are chosen, never more than the limit, none for a limit of 0 or less; some terminal wall is chosen whenever one exists, and no two-neighbour wall is chosen while a terminal one is left out |
| Maze.RoundHalfEven | dlgr/griduniverse/maze.py:83 | Python's `round` rounds to the nearest integer, ties to even |
| Maze.RoundUnique | dlgr/griduniverse/maze.py:83 | that integer is the only one with those properties |
| Maze.RoundBounds | dlgr/griduniverse/maze.py:83 | rounding a value between 0 and `n` stays between 0 and `n` |
| Maze.NumToPrune | dlgr/griduniverse/maze.py:83 | `int(round(n * (1 - fraction)))` lies between 0 and `n` for a fraction between 0 and 1, and is 0 for a fraction of 1 |
| Maze.FractionBound | dlgr/griduniverse/maze.py:83 | `n * f` lies between 0 and `n` for `f` between 0 and 1 |
| Maze.SubseqOrdered | dlgr/griduniverse/maze.py:87 | a list comprehension that drops walls keeps the remaining ones in row-major order |
| Maze.FilterOutFacts | dlgr/griduniverse/maze.py:87 | dropping the indexes in a set keeps a subsequence, shorter by the number of dropped indexes in range |
| Maze.PruneTerminals | dlgr/griduniverse/maze.py:81-90 | the density loop keeps a subsequence of the walls, removes at most `num_to_prune` of them (none when that is 0), and when it stops early every remaining wall has two or more neighbours |
| Maze.PruneRandom | dlgr/griduniverse/maze.py:92-94 | `random.sample` raises `ValueError` for a count outside the list; otherwise exactly `num_to_prune` walls are dropped and the rest keep their order; a contiguity of 1 drops none |
| Maze.SampleChosen | dlgr/griduniverse/maze.py:93-94 | dropping a sample of `k` distinct indexes leaves `k` fewer walls, in order |
| Maze.Prune | dlgr/griduniverse/maze.py:81-96 | the pruned walls are a subsequence of the walls; only `ValueError` can be raised and only for a contiguity outside 0 to 1; density and contiguity of 1 keep every wall |
| Maze.Labyrinth | dlgr/griduniverse/maze.py:25-38 | density 0 gives no walls; otherwise the walls are grey, on the grid, strictly increasing in row-major order, and all `2 * (r + 1) * (c + 1)` of the generated maze for density and contiguity 1 |
| MazeUtils.StepBack | dlgr/griduniverse/maze_utils.py:29-35 | each direction has an opposite that steps back, and a step moves one cell |
| MazeUtils.EdgeFacts | dlgr/griduniverse/maze_utils.py:25-36 | every edge of the graph is labelled with the direction that leads to its open neighbour |
| MazeUtils.GraphSymmetric | dlgr/griduniverse/maze_utils.py:29-35 | every edge has its reverse, labelled with the opposite direction |
| MazeUtils.MazeToGraph | dlgr/griduniverse/maze_utils.py:25-36 | `maze_to_graph` has a node for exactly each open cell, and each node's edges carry distinct directions, lead one step that way, and name exactly the directions in which the neighbouring cell is open |
| MazeUtils.Neighbours | dlgr/griduniverse/maze_utils.py:30-35 | the south and east tests of the loop agree with openness of those cells |
| MazeUtils.OpenIn | dlgr/griduniverse/maze_utils.py:28 | every open cell is a node |
| MazeUtils.WalkLength | dlgr/griduniverse/maze_utils.py:39-40 | a walk is never shorter than the Manhattan distance it covers |
| MazeUtils.Heuristic | dlgr/griduniverse/maze_utils.py:39-40 | the heuristic is 0 exactly at the goal |
| MazeUtils.LeastIndex | dlgr/griduniverse/maze_utils.py:59 | `heappop` takes an entry no other entry precedes in tuple order, so one of least priority |
| MazeUtils.FirstLeastF | dlgr/griduniverse/maze_utils.py:56-57 | `sorted(..., key=x[0])[0]`, a stable sort, takes the first entry of least priority |
| MazeUtils.Exhausted | dlgr/griduniverse/maze_utils.py:52-68 | when the queue runs empty no walk reaches the goal |
| MazeUtils.CappedFacts | dlgr/griduniverse/maze_utils.py:55-57 | the entry returned at the iteration cap has a walk to its cell, and its priority is a lower bound on every path to the goal |
| MazeUtils.FoundFacts | dlgr/griduniverse/maze_utils.py:58-60 | an entry for the goal popped first has a walk to the goal whose length is its cost, and no walk to the goal is shorter |
| MazeUtils.SearchStep | dlgr/griduniverse/maze_utils.py:53-66 | one iteration either returns an outcome the search promises or keeps the search invariant and makes progress |
| MazeUtils.FindPathAstar | dlgr/griduniverse/maze_utils.py:43-68 | `None` exactly when the start or goal is a wall; a found path walks from the start to the goal and is a shortest one; `(None, "")` only when no walk reaches the goal; a capped result walks to its cell and its priority is below every path to the goal |
| MazeUtils.MazeRow | dlgr/griduniverse/maze_utils.py:78-81 | one row of `columns` cells, 1 exactly at the wall positions |
| MazeUtils.PositionsToMaze | dlgr/griduniverse/maze_utils.py:76-83 | a `rows` by `columns` grid of 0 and 1, with 1 exactly at the wall positions |
| MazeUtils.PositionsMazeOpen | dlgr/griduniverse/maze_utils.py:76-83 | the cells that maze leaves open are exactly the cells of the grid that are not walls |
| MazeUtils.WallPositions | dlgr/griduniverse/maze_utils.py:72 | the set of the walls' positions |
| MazeUtils.LabyrinthToMaze | dlgr/griduniverse/maze_utils.py:71-73 | a `rows` by `columns` grid of 0 and 1, with 1 exactly where some wall of the labyrinth stands |
| Bots.GridBot.constructor | dlgr/griduniverse/bots.py:302-307 | a new bot has no grid state, no quorum and nothing sent |
| ExperimentGame.Griduniverse.constructor | dlgr/griduniverse/experiment.py:1145-1150 | the game holds the grid it was given and the transition table |
| PyStr.StripFacts | dlgr/griduniverse/csv_gridworlds.py:45 | `str.strip` removes exactly the leading and trailing whitespace |
| PyStr.StripIdempotent | dlgr/griduniverse/csv_gridworlds.py:74 | stripping twice is stripping once |
| PyStr.ParseShow | dlgr/griduniverse/csv_gridworlds.py:81 | `int` reads back every integer written in decimal |
| PyStr.SplitJoin | dlgr/griduniverse/csv_gridworlds.py:74 | the parts of `str.split(sep)` contain no separator and join back to the string |
| PyStr.JoinSplit | dlgr/griduniverse/csv_gridworlds.py:74 | splitting parts joined by a separator they do not contain gives the parts back |
| PyStr.ReplaceAbsent | dlgr/griduniverse/experiment.py:1326 | `str.replace` changes nothing when the target does not occur |

## Left out

- Floating point: scores, times and fractions are exact reals. These parts need exponentials, real powers or float rounding, so they are not modelled, and are parameters where the rules use them: `Item.maturity` (`1 - exp(...)`, a parameter), seasonal growth in `replenish_items` (the target count is a parameter), `compute_payoffs`, `softmax` and `fermi`, and the `round(..., 2)` of a donation split (a parameter).
- Randomness: every draw is a parameter. This covers `random.random` (roll), `random.choice` (an index), `random.shuffle` (a permutation per pop) and `random.sample` (a sampler returning distinct indexes). The positions of `spawn_item` and `_find_empty_position` are a function from the spawn's number to a position. The rejection-sampling loop itself is not modelled, because it can run forever, and neither is the random choice of an item type when none is given.
- `game_loop`, `send_state_thread`, `wait_for_quorum`, `wait_for_grid` and the gevent sleeps: concurrency.
- `publish`, `record_event`, Redis and the database: I/O. A handler's reply names the message it would publish and stops there. The fields that handlers add to the incoming message (`old_color`, `actual`, `success`) and the item serializations inside error messages are not modelled.
- `handle_connect`, `handle_disconnect` and `handle_chat_message`: connection and chat bookkeeping, with no game rule. `dispatch` routes to them, and `ExperimentHandlers.Route` returns which handler a message reaches.
- JSON parsing of a message body: `ExperimentText.ParseMessage` returns the body text.
- The replay methods, `events_for_replay`, `revert_to_time`, `analyze` and the Flask routes: database queries, data export and web plumbing.
- Faker pseudonyms: the pseudonym is a parameter. `Player.__init__`'s colour draw is a parameter.
- Python object identity: players and items are values inside the grid state, so two names for one object (aliasing) are not modelled. The game's methods update the grid's fields in place, and the handlers' effects on a shared `Item` show up wherever the model stores that item.
- Item-type configuration: `item_count` is kept as a per-type map of counts beside the configuration, where the source mutates the shared dict.
- `ExperimentState.ItemFromState`: an item state without `position` takes the dataclass default `(0, 0)`, as in the source. A JSON `null` position is not told apart from an absent one, so the model also gives `(0, 0)` there, where `tuple(obj.position)` raises `TypeError`.
- `ExperimentWorld.DueChange`: a falsy target other than `None` is not modelled. For an `auto_transition_target` of `""`, `target and Item(...)` is `""`, and `trigger_transitions` stores that string in `item_locations`. Item positions in the model hold only items, so the model answers `KeyError` for that target.
- `PyStr.Strip`, `PyStr.IsDigit`, `PyStr.ParseInt`: only ASCII whitespace and ASCII digits are recognised. Python's `str.strip`, the regex `\d` and `int()` also accept Unicode whitespace (such as U+00A0) and non-ASCII decimal digits, so a layout cell using those is read differently from Python.
- `MazeUtils.FindPathAstar`: the frontier is a sequence and a pop takes the least entry in tuple order, which is what `heappop` returns. The order of the heap's internal list is not modelled; the capped result takes the first least-priority entry in insertion order, where `sorted(...)[0]` sees the heap's list order.
- `MazeUtils.MazeToGraph`: the order of each node's edges is not stated, only their set of directions; A* compares the path strings, so the order does not change which entry is popped.
- `Maze.ClassifyTerminals`: Python sets have no defined order, so `itertools.islice` on a tier is modelled as taking a prefix of the tier as it was built. The contract states only the properties that hold for any order.
- `Maze.Generate`: the picture is `2c + 1` characters wide, but positions are read with `columns` (`idx // columns`). For an even `columns` this shifts rows; the model follows the code, and its contract states the count, bounds and order, which hold either way. That every wall keeps an orthogonal neighbour at full density is not proved.
- `LegacyMaze.GenerateMaze`: Python 2's `/` on positive integers is floor division and `is '*'` behaves like `==` on interned one-character strings, so the legacy generator runs the same carving as `Maze.Generate`.
- `ItemsJs`: `JSON.stringify`/`JSON.parse` are modelled only for integer positions.
- `distributions.py`, `jupyter.py`, `models.py`, the demos and the other JavaScript: numeric sampling, UI and ORM code outside the game rules.
- The Selenium side of the bots (`participate`, `get_js_variable`, `complete_questionnaire`): browser automation.

## Findings

| source | as written | input that shows it | evidently intended | confidence | as-written member | corrected member |
|---|---|---|---|---|---|---|
| dlgr/griduniverse/bots.py:226-229 | the occupancy test compares the target, a tuple, with positions held as JSON lists, so it never matches | bot 1 at `[5, 5]` pressing up, with player 2 at `[4, 5]`, is predicted at `(4, 5)` (`Bots.ExpectedIgnoresPlayers`); for every such state only walls block (`Bots.ExpectedIgnoresAllPlayers`) | a step into a cell held by another player leaves the bot in place | not executed | Bots.ExpectedPositionsAsWritten | Bots.ExpectedPositions |
| dlgr/griduniverse/experiment.py:1325-1326 | `str.replace` removes every occurrence of `channel:`, not only the prefix | on channel `c`, the message `c:"c:"` yields the body `""` (`ExperimentText.ParseMessageCorrupts`) | strip the leading `channel:` only, as the docstring says | not executed | ExperimentText.ParseMessageAsWritten | ExperimentText.ParseMessage |
| dlgr/griduniverse/experiment.py:760-761 | `add_items = items_to_add_or_remove > 1` | a limited type one item short of its target loses an item (`ExperimentRules.OneShortIsCulled`) | spawn whenever the shortfall is positive (`> 0`) | not executed | ExperimentRules.ReplenishPlanAsWritten | ExperimentRules.ReplenishPlan |
| dlgr/griduniverse/experiment.py:583-589 | `deserialize` passes `color_name=None` for a player state without `color`, and `Player.__init__` then looks `None` up in the colour names | the state the CSV parser makes for a token `p1`, without colour (`ExperimentPlayer.ColorlessPlayerRejected`) | a colourless player gets a drawn colour, as a new player does | not executed | ExperimentPlayer.PlayerFromState | ExperimentPlayer.PlayerFromStateIntended |
