# Counterbalance battle core in Dafny

Counterbalance is a turn-based battle game played on a hex grid and built on
the Bevy engine. This project models the rules of a battle and proves
properties of them:

- the hex coordinates and distance;
- the rectangular tile field;
- the turn queue and the state machines that gate each battle system;
- the spawning of the combatants;
- ability resolution (attribute changes, logging, deaths, movement);
- the lifecycle handler (deaths, winner, passing the turn);
- target selection by the player, and the enemy's turn policy;
- the battle log;
- the static ability and enemy catalogues;
- the roster changes on entering and leaving a battle.

Each Rust source file maps to one Dafny module:

| module | source file |
|---|---|
| `HexGrid` | `src/utils/hex.rs` |
| `Field` | `src/battle/battle_field.rs` |
| `Battle` | `src/battle/mod.rs` |
| `Init` | `src/battle/init.rs` |
| `Lifecycle` | `src/battle/lifecycle.rs` |
| `Abilities` | `src/abilities/mod.rs` |
| `Interactions` | `src/battle/interactions.rs` |
| `BattleEnemies` | `src/battle/enemies.rs` |
| `LegacyLifecycle` | `src/battle/battle_lifecycle.rs` |
| `LegacyAbility` | `src/ability.rs` |
| `BattleLog` | `src/battle/battle_log.rs` |
| `EnemyCatalogue` | `src/enemies.rs` |
| `AbilityCatalogue` | `src/available_abilities.rs` |

These modules hold the shared types:

- `Character`: entities, groups, attributes and the attribute-change rule.
- `Game`: the roster and round counter, i.e. the `GameState` resource.
- `App`: the application states of `src/main.rs`.
- `HexField`: the hex-keyed view of the field that targeting and the enemy policy read.
- `Text`: the decimal rendering of integers used in log lines.
- `Wrappers`: `Option`.

The source contains several generations of the same concepts. For example, it has two `Ability` shapes, and both `AbilityCastEvent` and `TurnEvent`. Each file is modelled as it is written:

- `Abilities.Ability` is the shape of `src/abilities/mod.rs`.
- `AbilityCatalogue.Ability` is the shape of `src/available_abilities.rs`. The roster, the enemy catalogue and the enemy policy carry this shape.
- `LegacyAbility.Ability` is the shape of `src/ability.rs`.

State that Bevy updates in place is modelled as a Dafny `class`:

- the lifecycle world;
- the resolution world;
- the targeting state;
- the battle log resource;
- the `GameState` roster.

Each system that changes such state is a method. Its `ensures` ties the new state to a specification function of the old one: `HandleAll`, `ResolveAll`, `CastAll`, `Messages`, `PlayersOnly` or `ScaledPicks`. The properties the source promises are lemmas about those functions.

The engine's conventions are modelled as follows:

- Entities are natural numbers. Spawning hands out increasing numbers from a `firstId` parameter.
- A panic (`expect`, `unwrap`, `clamp` with `min > max`, an empty `VecDeque`) becomes a precondition.
- A `HashMap` or query iteration order becomes an explicit sequence parameter.
- A random choice becomes a nondeterministic pick (`:|`) or a parameter constrained to the legal choices.

## Model

| member | source | states |
|---|---|---|
| `HexGrid.ManhattanDistance` | src/utils/hex.rs:3-5 | the sum of absolute coordinate differences, never negative |
| `HexGrid.HalfUp` | src/utils/hex.rs:26 | `(y + (y & 1)) / 2` is the exact half of `y` rounded up to even, for negative `y` too |
| `HexGrid.Dist` | src/utils/hex.rs:44-46 | the distance is never negative |
| `HexGrid.RoundTrip` | src/utils/hex.rs:14-42 | oddr → cube → oddr is the identity on every integer position |
| `HexGrid.CubeOfOddrOfCube` | src/utils/hex.rs:22-42 | converting a well-formed hex to oddr and back keeps its cube coordinates |
| `HexGrid.CubeOfFromCube` | src/utils/hex.rs:18-20 | a cube on the plane `z = -x + y` is rebuilt exactly from its first two coordinates |
| `HexGrid.ConversionsKeepRow` | src/utils/hex.rs:22-42 | `to_oddr` and `to_cube` keep the row; an oddr hex gives back its own position |
| `HexGrid.ManhattanZero` | src/utils/hex.rs:3-5 | the Manhattan distance is zero iff the cubes are equal |
| `HexGrid.CubesOnPlane` | src/utils/hex.rs:14-42 | every hex built by `from_oddr` or `from_cube` is well formed and every cube produced by `from_cube` or `to_cube` lies on the plane `z = -x + y`; `from_oddr` keeps the row, `from_cube` keeps the first two coordinates |
| `HexGrid.AbsMinusIsEven` | src/utils/hex.rs:3-5 | `abs(n) - n` is even |
| `HexGrid.ManhattanEven` | src/utils/hex.rs:44-46 | between cubes on the plane the Manhattan distance is even, so halving it is exact |
| `HexGrid.DistExact` | src/utils/hex.rs:44-46 | twice the distance is the Manhattan distance of the cubes |
| `HexGrid.DistSymmetric` | src/utils/hex.rs:44-46 | `dist(a, b) == dist(b, a)` |
| `HexGrid.DistZero` | src/utils/hex.rs:44-46 | the distance is zero iff the cubes agree; every hex is zero from itself |
| `HexGrid.StructuralEquality` | src/utils/hex.rs:7-11 | an `Oddr` and a `Cube` for the same cell are unequal values although zero apart |
| `HexGrid.OddrToCubeFixtures` | src/utils/hex.rs:58-66 | each oddr fixture converts to the cube fixture at its index |
| `HexGrid.CubeToOddrFixtures` | src/utils/hex.rs:68-76 | each cube fixture converts back to the oddr fixture at its index |
| `HexGrid.OddrDistanceRow1` | src/utils/hex.rs:78-94 | row 1 of the distance table, on oddr hexes |
| `HexGrid.OddrDistanceRow2` | src/utils/hex.rs:78-94 | row 2 of the distance table, on oddr hexes |
| `HexGrid.OddrDistanceRow3` | src/utils/hex.rs:78-94 | row 3 of the distance table, on oddr hexes |
| `HexGrid.OddrDistanceRow4` | src/utils/hex.rs:78-94 | row 4 of the distance table, on oddr hexes |
| `HexGrid.CubeDistanceFixtures` | src/utils/hex.rs:96-114 | all fifteen entries of the distance table, on cube hexes |
| `Field.RevMap` | src/battle/battle_field.rs:32 | every visited tile's entity is a key, and each key maps back to a visited position holding that entity |
| `Field.New` | src/battle/battle_field.rs:31-39 | the tiles are kept; the reverse map's keys are exactly the tile entities |
| `Field.Tile` | src/battle/battle_field.rs:41-43 | `Some` iff the position is on the grid, with its entity |
| `Field.Pos` | src/battle/battle_field.rs:45-47 | `Some` iff the entity is a tile, with its position |
| `Field.NewConsistent` | src/battle/battle_field.rs:31-39 | with distinct tile entities, in any iteration order, the reverse map is the exact inverse |
| `Field.PosInverse` | src/battle/battle_field.rs:41-47 | `pos(e) == Some(p)` iff `tiles[p] == e` |
| `Field.PosOfNonTile` | src/battle/battle_field.rs:45-47 | an entity that is not a tile has no position |
| `Field.FillStep` | src/battle/battle_field.rs:94-109 | one inner iteration keeps the fill invariant and adds a fresh distinct entity |
| `Field.ColumnDone` | src/battle/battle_field.rs:86-87 | a full column is the start of the next |
| `Field.GridDone` | src/battle/battle_field.rs:86-113 | after the loops the keys are exactly the grid, there are `width * height` tiles, and the field is consistent |
| `Field.FillColumn` | src/battle/battle_field.rs:87-110 | the inner loop fills column `x` with fresh entities |
| `Field.SetupBattleField` | src/battle/battle_field.rs:86-115 | one fresh, distinct tile per grid cell, a consistent field, then `AfterBattleField` |
| `Battle.GetCurrent` | src/battle/mod.rs:78-80 | the active combatant is in the queue; an empty queue panics |
| `Battle.RotateLeft` | src/battle/lifecycle.rs:74 | the head moves to the back and the others move one place forward |
| `Battle.RotatePermutes` | src/battle/lifecycle.rs:74 | a rotation is a permutation of the queue |
| `Battle.RotateTimes` | src/battle/lifecycle.rs:74 | repeated rotation keeps the length |
| `Battle.RotateTimesIsSplice` | src/battle/lifecycle.rs:74 | after `n` turns the queue is `q[n..] + q[..n]` |
| `Battle.FullRound` | src/battle/lifecycle.rs:74 | `|q|` turns restore the queue |
| `Battle.HeadAfterRotations` | src/battle/lifecycle.rs:74-75 | within a round the `n`-th turn goes to `q[n]` |
| `Battle.StateGates` | src/battle/mod.rs:45-54 | `choose_action`, `choose_target`, `cancel_action` and `handle_enemy_turn` run exactly in their states |
| `Battle.SetupOrder` | src/battle/mod.rs:33-43 | the entering chain ends with the field set-up and includes enemy initialisation; combatants spawn only on `AfterBattleField` |
| `Battle.TriggerOf` | src/battle/mod.rs:33-68 | entering the battle runs exactly the four chained systems; `choose_action`, `handle_enemy_turn` and `setup_battle` are each the only system on their trigger |
| `Init.SetupBattle` | src/battle/init.rs:16-53 | one fresh distinct entity per roster entry, in roster order, spawned from that entry and alive; the queue holds exactly them; then the player chooses |
| `Character.Clamp` | src/abilities/mod.rs:95 | `i32::clamp`: the result is within bounds, equals the input when in bounds, else the nearer bound |
| `Character.ChangeAttribute` | src/abilities/mod.rs:89-96 | a value loses exactly the potency; a gauge loses it and is clamped, with bounds unchanged and still ordered |
| `Abilities.Without` | src/abilities/mod.rs:111-114 | the child list without the moved entity, the rest kept |
| `Abilities.PushChild` | src/abilities/mod.rs:111-114 | after `push_children` the tile has children, the caster is its last child and no other entity lists the caster |
| `Abilities.PushChildMoves` | src/abilities/mod.rs:111-114 | `push_children` makes the caster the last child of the tile and removes it from every other list |
| `Abilities.HitLine` | src/abilities/mod.rs:97-102 | the log line starts with the caster's name and ends with the new value |
| `Abilities.Victim` | src/abilities/mod.rs:76-82 | the character hit is one of the target tile's children |
| `Abilities.Effect` | src/abilities/mod.rs:76-126 | a cast keeps names, tiles and the characters with attributes, and adds at most one log line and one lifecycle event to what was sent |
| `Abilities.Resolve` | src/abilities/mod.rs:63-128 | one cast keeps names and tiles, keeps the log sent so far, and sends `EndTurn` last |
| `Abilities.ResolveAll` | src/abilities/mod.rs:62-129 | a frame of casts keeps names and tiles, drops nothing already sent, and ends at least one turn per cast |
| `Abilities.AbilityWorld.ResolveAbility` | src/abilities/mod.rs:62-129 | the casts of a frame are resolved in order: the new state is `ResolveAll` of the old |
| `Abilities.AbilityWorld.ResolveOne` | src/abilities/mod.rs:63-128 | one cast: the effect, then `EndTurn` |
| `Abilities.ValueLosesPotency` | src/abilities/mod.rs:91-93 | a `Value` target loses exactly the potency, with no log line and no death |
| `Abilities.GaugeIsClamped` | src/abilities/mod.rs:94-106 | a gauge becomes `clamp(value - potency)`; one log line; `CharacterDied` iff hit points end at zero or below; `EndTurn` last |
| `Abilities.MissingAttributeNoChange` | src/abilities/mod.rs:89 | a target without the attribute is untouched and only the turn ends |
| `Abilities.EmptyTileCannotBeHit` | src/abilities/mod.rs:78-82 | an attack on a tile without an occupant panics |
| `Abilities.OnlyTargetChanges` | src/abilities/mod.rs:76-110 | every other character, and the target's other attributes, keep their values |
| `Abilities.MovementReparents` | src/abilities/mod.rs:111-114 | a move reparents the caster under the target tile and changes no attribute |
| `Abilities.EndTurnLast` | src/abilities/mod.rs:128 | every cast ends with exactly one `EndTurn`, after its other events |
| `Abilities.ResolveAllKeepsBounds` | src/abilities/mod.rs:94-96 | resolution keeps every gauge's bounds ordered, so later clamps cannot panic |
| `Abilities.ResolveKeepsBounds` | src/abilities/mod.rs:94-96 | one cast keeps every gauge's bounds ordered |
| `Lifecycle.AliveCount` | src/battle/lifecycle.rs:46-52 | the count is zero iff no combatant of the group is alive |
| `Lifecycle.DefeatMessage` | src/battle/lifecycle.rs:39-41 | the message is the enemy's name followed by ` defeated!` |
| `Lifecycle.PassTurn` | src/battle/lifecycle.rs:70-75 | the queue keeps its combatants; the active one goes to the back and the next one comes to the head |
| `Lifecycle.CanHandle` | src/battle/lifecycle.rs:34-79 | ending a turn when a side has nobody alive never panics, even without a queue; otherwise a handled turn end had the queue |
| `Lifecycle.Handle` | src/battle/lifecycle.rs:32-85 | groups and names stay and at most one line is logged; a death marks its entity `Dead`; a turn end always sets the next state and changes no life state and no log |
| `Lifecycle.HandleAll` | src/battle/lifecycle.rs:31-87 | a frame of events keeps groups and names and adds at most one log line per event |
| `Lifecycle.LifecycleWorld.HandleLifecycleEvent` | src/battle/lifecycle.rs:31-87 | the events of a frame are handled in order: the new state is `HandleAll` of the old |
| `Lifecycle.LifecycleWorld.HandleOne` | src/battle/lifecycle.rs:32-85 | one event, in place |
| `Lifecycle.DiedMarksDead` | src/battle/lifecycle.rs:33-35 | a death marks only that entity `Dead` and decides nothing else |
| `Lifecycle.DiedLogsOnlyEnemies` | src/battle/lifecycle.rs:36-43 | a dead enemy with a name and visibility is hidden and gets exactly one "defeated!" line; any other death logs nothing |
| `Lifecycle.PlayerWinsFirst` | src/battle/lifecycle.rs:45-57 | with no enemy alive the player wins, before the player check, and the queue is not rotated |
| `Lifecycle.EnemyWins` | src/battle/lifecycle.rs:58-69 | with enemies alive and no player alive the enemy wins |
| `Lifecycle.TurnPasses` | src/battle/lifecycle.rs:70-83 | otherwise the queue rotates as a permutation and the next state follows the new head's group |
| `Lifecycle.DeadCombatantGetsTurn` | src/battle/lifecycle.rs:70-83 | the rotation does not skip dead combatants: a dead enemy at the head gets `AbilityCastingEnemy` |
| `Lifecycle.HandleAllAppend` | src/battle/lifecycle.rs:31 | handling a frame in two batches equals handling it at once |
| `Interactions.TilesWithin` | src/battle/interactions.rs:69-79 | a tile is kept iff some visited hex holds it within range of the centre |
| `Interactions.GetAbilityRange` | src/battle/interactions.rs:64-80 | exactly the field's tiles within the ability's range of the target's hex; empty for an empty field |
| `Interactions.OwnTileInRange` | src/battle/interactions.rs:64-80 | with a non-negative range the caster's own tile is in range |
| `Interactions.RangeMonotone` | src/battle/interactions.rs:64-80 | a longer range reaches every tile a shorter one does |
| `Interactions.TargetTypeOf` | src/battle/interactions.rs:109-121 | `Empty` iff no occupant, `Ally` iff the first occupant is a player, `Enemy` iff it is an enemy |
| `Interactions.ValidClicks` | src/battle/interactions.rs:123-138 | a tile is accepted iff it was clicked and its kind is among the ability's targets |
| `Interactions.InvalidClickSendsNothing` | src/battle/interactions.rs:123-148 | a hover, or a click on a kind the ability cannot target, sends nothing |
| `Interactions.CastsOn` | src/battle/interactions.rs:133-137 | one cast per accepted tile, by the active combatant, in order |
| `Interactions.FirstClick` | src/battle/interactions.rs:188-226 | the index of the first clicked button, with no click before it |
| `Interactions.Targeting.ChooseTarget` | src/battle/interactions.rs:104-168 | with an ability chosen, each accepted click sends a cast; any accepted click clears the chosen ability and every highlight; without a chosen ability nothing changes |
| `Interactions.Targeting.ChooseAction` | src/battle/interactions.rs:170-242 | the first clicked button chooses that ability, highlights exactly its range around the caster's tile and moves to targeting; otherwise nothing changes |
| `Interactions.ReadClicks` | src/battle/interactions.rs:106-160 | the loop sends exactly `CastsOn` of the accepted clicks, and asks to unhighlight iff some click was accepted |
| `Interactions.FirstClicked` | src/battle/interactions.rs:188-226 | the loop stops at the first click, as `FirstClick` says |
| `Interactions.Highlight` | src/battle/interactions.rs:228-241 | the highlighted tiles become the old ones plus the range |
| `Interactions.ValidClicksPrefix` | src/battle/interactions.rs:123-148 | a click accepted in a prefix is accepted overall |
| `Interactions.ValidClicksSnoc` | src/battle/interactions.rs:106-160 | one more interaction adds its tile iff that click is accepted |
| `Interactions.RandomEnemyTurn` | src/battle/interactions.rs:30-62 | the older enemy turn casts some ability of the active combatant at some player's tile, and casts nothing iff it has no ability |
| `Interactions.PlayersOnly` | src/battle/interactions.rs:316-318 | exactly the player characters are kept |
| `Interactions.PlayersOnlyAppend` | src/battle/interactions.rs:316-318 | `retain` keeps relative order: filtering a concatenation concatenates the filtered parts |
| `Interactions.PlayersOnlyIdempotent` | src/battle/interactions.rs:316-318 | filtering twice is filtering once |
| `Interactions.CleanupBattle` | src/battle/interactions.rs:307-319 | leaving a battle leaves only the player characters in the roster |
| `BattleEnemies.TruncDiv` | src/battle/enemies.rs:19 | Rust's `/` truncates toward zero, for negative rounds too |
| `BattleEnemies.EnemyCount` | src/battle/enemies.rs:19 | between one and four enemies: one before round 8, `round / 8 + 1` up to round 23, four from round 24 |
| `BattleEnemies.EnemyCountMonotone` | src/battle/enemies.rs:19 | a later round never brings fewer enemies |
| `BattleEnemies.ScaleAttribute` | src/battle/enemies.rs:33-43 | a value is scaled; a gauge has its value and maximum scaled and keeps its minimum |
| `BattleEnemies.ScaleAttributes` | src/battle/enemies.rs:33-43 | every attribute is scaled, and the key set is kept |
| `BattleEnemies.ScaleByOneIsIdentity` | src/battle/enemies.rs:31 | at round 0, a multiplier of one, nothing changes |
| `BattleEnemies.ScaleKeepsValueBelowMax` | src/battle/enemies.rs:38-41 | a monotone rounding keeps a gauge's value at or below its maximum |
| `BattleEnemies.ScaleEnemy` | src/battle/enemies.rs:29-43 | the `iter_mut` loop, in any key order, yields the template with every attribute scaled |
| `BattleEnemies.ScaledPicks` | src/battle/enemies.rs:21-45 | one scaled copy of each picked template, in pick order |
| `BattleEnemies.InitializeEnemies` | src/battle/enemies.rs:16-47 | the roster becomes the old roster followed by the scaled picks from `Normal1`; a missing tier panics |
| `BattleEnemies.EnemiesAdded` | src/battle/enemies.rs:19-27 | at least one enemy from a non-empty tier, at most four, no more than the tier holds, each a picked template |
| `BattleEnemies.Attacks` | src/battle/enemies.rs:82-86 | an attack reaches when it targets the other side and the player is within range, measured from either hex; no negative range reaches |
| `BattleEnemies.CanAttack` | src/battle/enemies.rs:78-87 | some ability reaches the player; an enemy without an ability aimed at the other side never attacks |
| `BattleEnemies.LongestMove` | src/battle/enemies.rs:95-103 | stable sort by range, then `last`: a movement of greatest range, the last among equals, if any movement exists |
| `BattleEnemies.MoveTarget` | src/battle/enemies.rs:94-120 | the longest movement and the hex the field offers for it, if both exist |
| `BattleEnemies.HandleEnemyTurn` | src/battle/enemies.rs:49-135 | the active combatant acts: an attack in range on a player's tile if any; else the longest move to the offered tile; else `Pass`; `Pass` also without abilities |
| `BattleEnemies.CatalogueMoveIsLongest` | src/battle/enemies.rs:95-103 | with catalogue abilities, an enemy holding "move" moves with "move" |
| `LegacyLifecycle.OthersAlive` | src/battle/battle_lifecycle.rs:23-36 | the alive members of a group, except the dying entity |
| `LegacyLifecycle.Outcome` | src/battle/battle_lifecycle.rs:23-41 | the player wins iff no other enemy is alive (checked first); else the enemy iff no other player is alive; else no winner |
| `LegacyLifecycle.OutcomeMeaning` | src/battle/battle_lifecycle.rs:23-41 | the same verdicts, stated over the alive entities themselves |
| `LegacyLifecycle.RecordedWinner` | src/battle/battle_lifecycle.rs:20-41 | the resource holds the old winner or the verdict of some death of the frame |
| `LegacyLifecycle.Dying` | src/battle/battle_lifecycle.rs:43 | the entities named by the frame's deaths |
| `LegacyLifecycle.LifecycleWorld.HandleLifecycleEvent` | src/battle/battle_lifecycle.rs:14-49 | each death loses `Alive`; the last deciding death's verdict is recorded; any death sets `BattleEnd` |
| `LegacyLifecycle.SimultaneousDeathsRecordNoWinner` | src/battle/battle_lifecycle.rs:17-43 | with deferred removal, two enemies dying in one frame each see the other alive, so no winner is recorded |
| `LegacyLifecycle.PlayerCheckedFirst` | src/battle/battle_lifecycle.rs:23-31 | when nobody else is alive the player wins |
| `LegacyLifecycle.SingleDeath` | src/battle/battle_lifecycle.rs:20-45 | a frame without deaths keeps the winner; a single death records its verdict if it has one |
| `LegacyAbility.Changed` | src/ability.rs:64-69 | the attribute-change rule keeps the kind and the bound order |
| `LegacyAbility.Kills` | src/ability.rs:78-81 | a death is reported only from a hit-point gauge whose minimum is zero or below |
| `LegacyAbility.AttributesAfter` | src/ability.rs:58-69 | only the reached character's attribute of the cast's type changes; its other attributes, and every other character's, keep their values |
| `LegacyAbility.LogAfter` | src/ability.rs:71-76 | one more line, starting with the caster's name, iff a gauge was reached |
| `LegacyAbility.LifecycleAfter` | src/ability.rs:78-81 | the events sent so far are kept, and `CharacterDied(e)` is appended exactly when the hit kills `e` |
| `LegacyAbility.Affect` | src/ability.rs:59-86 | one loop iteration keeps every gauge's bounds ordered |
| `LegacyAbility.CastOver` | src/ability.rs:58-88 | the target loop keeps names, categories, key sets and ordered bounds, and only appends to the log and the lifecycle events |
| `LegacyAbility.CastAll` | src/ability.rs:46-89 | the casts of a frame keep names, attribute keys and ordered bounds |
| `LegacyAbility.CastWorld.FindCasterName` | src/ability.rs:47-56 | the lookup finds a name iff the caster is iterated with a name and attributes, and returns that name |
| `LegacyAbility.CastWorld.CastAbility` | src/ability.rs:46-89 | the casts of a frame are resolved in order: the new state is `CastAll` of the old |
| `LegacyAbility.CastWorld.CastOne` | src/ability.rs:47-88 | the caster is looked up before any change (a missing caster panics), then the target loop runs as `CastOver` says |
| `LegacyAbility.CastWorld.AffectOne` | src/ability.rs:59-86 | one loop iteration, in place |
| `LegacyAbility.Untouched` | src/ability.rs:58-59 | a character not listed in `on`, or not iterated, keeps all its attributes |
| `LegacyAbility.TargetChanged` | src/ability.rs:62-69 | a reached character visited once has its attribute changed by the rule (a value loses the potency, a gauge is clamped) and all its other attributes unchanged |
| `LegacyAbility.OtherAttributesKept` | src/ability.rs:62-69 | every attribute other than the cast's type keeps its value through the whole target loop |
| `LegacyAbility.GaugeTargets` | src/ability.rs:58-69 | the characters reached on a gauge, in visit order |
| `LegacyAbility.OneLinePerGauge` | src/ability.rs:71-76 | one log line per gauge reached, each starting with the caster's name; when every target is listed once, the `k`-th new line is exactly `HitLine(caster, ability, target, clamped value)` of the `k`-th gauge reached |
| `LegacyAbility.GaugeLines` | src/ability.rs:71-76 | over targets listed once, the `k`-th new line names the caster, the ability, the `k`-th gauge character reached and that gauge's clamped new value |
| `LegacyAbility.LastLine` | src/ability.rs:71-76 | visiting one more, new character adds its line iff it is reached on a gauge, with the clamped value of its gauge as it was |
| `LegacyAbility.KindStable` | src/ability.rs:63-69 | a gauge stays a gauge and a value stays a value |
| `LegacyAbility.HitStable` | src/ability.rs:58-62 | the cast reaches the same characters whatever it changed before |
| `LegacyAbility.DeathIff` | src/ability.rs:78-81 | `CharacterDied(e)` is sent iff `e` is visited and its hit-point gauge ends at zero or below |
| `LegacyAbility.LastDeath` | src/ability.rs:78-81 | visiting one more, new character sends its `CharacterDied` iff the cast kills it, judged on its attributes as they were |
| `BattleLog.Messages` | src/battle/battle_log.rs:21-22 | one message per event, in event order |
| `BattleLog.MessagesAppend` | src/battle/battle_log.rs:21-22 | the messages of two batches are the two batches' messages |
| `BattleLog.BattleLogSlot.constructor` | src/battle/battle_log.rs:6-9 | outside a battle there is no log |
| `BattleLog.BattleLogSlot.SetupBattleLog` | src/battle/battle_log.rs:37-41 | set-up creates an empty log |
| `BattleLog.BattleLogSlot.CleanupBattleLog` | src/battle/battle_log.rs:43-45 | clean-up removes the log |
| `BattleLog.BattleLogSlot.UpdateBattleLog` | src/battle/battle_log.rs:15-35 | each event's message is appended in order; an absent log panics |
| `BattleLog.UpdateKeepsHistory` | src/battle/battle_log.rs:21-22 | an update never removes or reorders earlier messages |
| `AbilityCatalogue.Collect` | src/available_abilities.rs:65-67 | every listed name is a key, and each key maps to a listed ability of that name |
| `AbilityCatalogue.CollectDistinct` | src/available_abilities.rs:65-67 | with distinct names, each ability is found under its own name |
| `AbilityCatalogue.InitAvailableAbilities` | src/available_abilities.rs:69-70 | the init state moves to `AfterAbilities`; the inserted map is `Catalogue()`, whose entries `CatalogueEntries` states |
| `AbilityCatalogue.CatalogueEntries` | src/available_abilities.rs:21-67 | the catalogue is exactly the four literal abilities under their names |
| `AbilityCatalogue.MoveIsTheOnlyMovement` | src/available_abilities.rs:22-27 | "move" is the only movement and the only ability aimed at empty tiles, with range 5 |
| `AbilityCatalogue.AttackEntries` | src/available_abilities.rs:28-63 | hit, shoot and slam: potencies 15, 10, 20; Melee/Ranged/Ranged; ranges 2, 5, 1 |
| `AbilityCatalogue.CatalogueKeysAndTargets` | src/available_abilities.rs:21-67 | four entries, each keyed by its name; every attack targets enemies only |
| `EnemyCatalogue.GetAbilities` | src/enemies.rs:20-35 | one catalogue entry per name, in order; a missing name panics |
| `EnemyCatalogue.GetAbilitiesNames` | src/enemies.rs:20-35 | against a name-keyed catalogue the abilities carry the names asked for |
| `EnemyCatalogue.Stats` | src/enemies.rs:59-69 | a template has exactly hit points, attack and defense, each converted from its pair |
| `EnemyCatalogue.Normal1Templates` | src/enemies.rs:52-78 | two enemy fungi with the fungus sprite, one ability each (hit, then slam) and the three attributes |
| `EnemyCatalogue.Normal1Facts` | src/enemies.rs:52-78 | two `Fungus` templates in the enemy group: "fungus" with hit (hit points 50, attack 5, defense 5) and "angry fungus" with slam (hit points 50, attack 7, defense 3); both abilities target `Enemy` tiles |
| `EnemyCatalogue.InitAvailableEnemies` | src/enemies.rs:37-81 | the first roster entry gets move and hit (an empty roster panics); the tier map holds the `Normal1` templates |
| `Game.GameState.constructor` | src/main.rs:82-97 | the default roster is one human player named "player" with no abilities and no attributes |
| `Game.DefaultPlayer` | src/main.rs:85-94 | the roster's first character is the human player, with no abilities and no attributes |
| `Text.NatToString` | src/abilities/mod.rs:97-102 | decimal digits, non-empty, without leading zeros, whose decimal value is the number |
| `Text.IntToString` | src/abilities/mod.rs:97-102 | non-empty, with a leading minus sign iff the number is negative |
| `Text.IntToStringValue` | src/abilities/mod.rs:97-102 | the digits of a rendered integer, after the sign, denote its magnitude |
| `Text.IntToStringInjective` | src/abilities/mod.rs:97-102 | different numbers are rendered differently |
| `HexField.HexOf` | src/battle/enemies.rs:74-75 | `Some` iff the entity is a tile of the field, with its hex |
| `HexField.TileAt` | src/battle/enemies.rs:121 | `Some` iff the hex is on the field, with its tile |

## Left out

- Rendering is not modelled, nor anything that only drives the screen: meshes, sprites, colours, hover feedback, cameras, UI nodes, text sections, asset loading and tile placement arithmetic. `setup_available_actions`, `setup_battle_ui`, `init_targeting`, `cleanup_targeting`, `cancel_action` and the battle-resolution screen are not part of this model. `update_battle_log` also appends a text section to the log widget; only the message list is modelled.
- Bevy's scheduler, event buses and command buffers are not modelled. A system is a method called with the events of one frame, and commands take effect at once. The exceptions are `remove::<Alive>` in `src/battle/battle_lifecycle.rs` and the `ChosenAbility` removal in `choose_target`, which do not affect the rest of the frame, as in the engine.
- `despawn_recursive` in `cleanup_battle` is left out. Only the roster filter is modelled.
- Floating point is left out. `1.02^round` with f32 rounding is a `scale` parameter, and the tile size and all positions are left out.
- `CharacterBundle::new`, which `src/enemies.rs:56-77` calls with `(type, amount)` pairs, is not defined anywhere in the crate: `src/character.rs:14-23` declares `CharacterBundle` with no constructor. Its conversion of a pair into an attribute is the `toAttribute` parameter.
- Randomness is left out. `choose` is a nondeterministic pick among the legal candidates. `choose_multiple` is a `picks` parameter holding distinct indices, exactly `min(count, tier size)` of them.
- i32 overflow and wrap-around are not modelled. Integers are unbounded.
- `BattleField::hex`, `BattleField::tile(&Hex)` and `BattleField::tiles` are used by `src/battle/interactions.rs` and `src/battle/enemies.rs`, but `BattleField` in `src/battle/battle_field.rs:30-52` defines only `new`, `tile(&UVec2)`, `pos` and `tile_size`. They are modelled by the `HexField` lookups and an explicit tile order. No module of the crate defines `BattleField::hexes_by_dist`, `Hex::line` or `BattleField::in_range_and_empty` (used at `src/battle/enemies.rs:104-116`); together they are the `findMove` parameter.
- `BattleEnemies.HandleEnemyTurn`: requires every player's tile to have a hex, and every hex `findMove` returns to be on the field. The source panics only for the player actually picked and the hex actually found.
- `BattleEnemies.LongestMove`: the in-place `sort_by_key` of the movement list is not modelled step by step. Only the element that `last()` then reads is characterised.
- `BattleEnemies.TurnEvent` follows the shape its uses in `src/battle/enemies.rs:89-133` imply (`Ability { ability, by, on }` or `Pass(by)`), because `src/abilities/mod.rs`, which that file imports it from, declares no `TurnEvent`.
- `GameState.round` is read by `src/battle/enemies.rs:19` and `GameState.battle_field_layout` by `src/battle/battle_field.rs:61`, but `GameState` in `src/main.rs:78-80` has only a `characters` field. `round` is kept as a field that starts at 0, and the layout size is a parameter of `Field.SetupBattleField`.
- `LegacyLifecycle` reuses `Battle.BattleState` for the `BattleState` that `src/battle/battle_lifecycle.rs:5` imports from `src/battle/battle_plugin.rs:79-88`, because that enum has the same six variants, in the same order, as `src/battle/mod.rs:90-99`.
- The roster's ability list is not turned into the per-combatant abilities the battle systems read. `src/character.rs:34` stores `Abilities` as a list, and `src/enemies.rs:44` fills it with `Abilities::from_arr`, which `src/character.rs` does not define. `src/battle/interactions.rs:198-201` looks abilities up by name and `src/battle/enemies.rs:77-81` iterates `(name, ability)` pairs, so the systems expect a name-keyed map, in which two abilities with the same name would collapse into one. `Interactions.Targeting` and `BattleEnemies.HandleEnemyTurn` take those per-combatant abilities as independent inputs.
- `Interactions.Targeting.ChooseTarget`: requires a group for every tile occupant it reads, which is the source's `expect` on the occupant's group.
