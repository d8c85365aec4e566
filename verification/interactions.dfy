/**
 * Player and enemy interactions during a battle: the tiles an ability
 * reaches, picking an ability and then a target tile, the older random enemy
 * turn, and the roster clean-up when the battle is left.
 */
module Interactions {
  import opened Character
  import opened Wrappers
  import opened HexGrid
  import opened HexField
  import Abilities
  import Battle
  import Game

  type Ability = Abilities.Ability

  // ---------------------------------------------------------------------------
  // Range

  /** The tiles of the hexes of `order` within `range` of `center`, in the order visited. */
  function TilesWithin(tiles: map<Hex, Entity>, order: seq<Hex>, center: Hex, range: int): (r: seq<Entity>)
    requires forall h :: h in order ==> h in tiles
    ensures |r| <= |order|
    ensures forall t :: t in r <==> exists h :: h in order && tiles[h] == t && Dist(h, center) <= range
  {
    if order == [] then []
    else
      var rest := TilesWithin(tiles, order[1..], center, range);
      assert forall h :: h in order <==> h == order[0] || h in order[1..];
      if Dist(order[0], center) <= range then [tiles[order[0]]] + rest else rest
  }

  /**
   * `get_ability_range`: the tiles whose hex is within the ability's range of
   * the hex of `targetTile`. That hex is looked up once per tile visited, so a
   * tile off the field panics only when the field has tiles.
   */
  function GetAbilityRange(ability: Ability, targetTile: Entity, bf: HexBattleField, order: seq<Hex>): (r: seq<Entity>)
    requires IteratesTiles(order, bf)
    requires order == [] || targetTile in bf.hexes
    ensures order == [] ==> r == []
    ensures order != [] ==> forall t :: t in r <==>
      exists h :: h in bf.tiles && bf.tiles[h] == t && Dist(h, bf.hexes[targetTile]) <= ability.range
  {
    if order == [] then [] else TilesWithin(bf.tiles, order, bf.hexes[targetTile], ability.range)
  }

  /** An ability with a non-negative range reaches the tile it is measured from. */
  lemma OwnTileInRange(ability: Ability, targetTile: Entity, bf: HexBattleField, order: seq<Hex>)
    requires Valid(bf) && IteratesTiles(order, bf)
    requires targetTile in bf.hexes && ability.range >= 0
    ensures targetTile in GetAbilityRange(ability, targetTile, bf, order)
  {
    var h := bf.hexes[targetTile];
    assert h in order;
    assert Dist(h, h) == 0;
  }

  /** A longer range reaches every tile a shorter one does. */
  lemma RangeMonotone(a: Ability, b: Ability, targetTile: Entity, bf: HexBattleField, order: seq<Hex>)
    requires IteratesTiles(order, bf)
    requires order == [] || targetTile in bf.hexes
    requires a.range <= b.range
    ensures forall t :: t in GetAbilityRange(a, targetTile, bf, order) ==> t in GetAbilityRange(b, targetTile, bf, order)
  {
  }

  // ---------------------------------------------------------------------------
  // Target selection

  datatype Interaction = Clicked | Hovered | NoInteraction

  /** A tile whose interaction changed this frame, with its children if it has any. */
  datatype TileInteraction = TileInteraction(tile: Entity, interaction: Interaction, children: Option<seq<Entity>>)

  /** The first child of a tile has a group, as the targeting system expects of every occupant. */
  predicate OccupantHasGroup(children: Option<seq<Entity>>, groups: map<Entity, Group>)
  {
    children.Some? && |children.value| > 0 ==> children.value[0] in groups
  }

  /** The kind of a tile for targeting: empty, or ally or enemy after its first occupant's group. */
  function TargetTypeOf(children: Option<seq<Entity>>, groups: map<Entity, Group>): (t: Abilities.AbilityTargetType)
    requires OccupantHasGroup(children, groups)
    ensures t == Abilities.Empty <==> children.None? || children.value == []
    ensures t == Abilities.Ally <==> children.Some? && children.value != [] && groups[children.value[0]] == Player
    ensures t == Abilities.Enemy <==> children.Some? && children.value != [] && groups[children.value[0]] == Group.Enemy
  {
    match children
    case None => Abilities.Empty
    case Some(c) =>
      if c == [] then Abilities.Empty
      else if groups[c[0]] == Player then Abilities.Ally
      else assert groups[c[0]].Enemy?; Abilities.Enemy
  }

  ghost predicate OccupantsHaveGroups(interactions: seq<TileInteraction>, groups: map<Entity, Group>)
  {
    forall i :: 0 <= i < |interactions| ==> OccupantHasGroup(interactions[i].children, groups)
  }

  /** A click the ability accepts: the tile's kind is among the ability's targets. */
  predicate IsValidClick(ability: Ability, ti: TileInteraction, groups: map<Entity, Group>)
    requires OccupantHasGroup(ti.children, groups)
  {
    ti.interaction == Clicked && TargetTypeOf(ti.children, groups) in ability.target
  }

  /** The tiles clicked this frame that the ability may target, in the order read. */
  function ValidClicks(ability: Ability, interactions: seq<TileInteraction>, groups: map<Entity, Group>): (r: seq<Entity>)
    requires OccupantsHaveGroups(interactions, groups)
    ensures |r| <= |interactions|
    ensures forall t :: t in r <==> exists i :: 0 <= i < |interactions| && interactions[i].tile == t && IsValidClick(ability, interactions[i], groups)
  {
    if interactions == [] then []
    else
      var rest := ValidClicks(ability, interactions[1..], groups);
      assert forall i :: 1 <= i < |interactions| ==> interactions[i] == interactions[1..][i - 1];
      assert forall i :: 0 <= i < |interactions| - 1 ==> interactions[1..][i] == interactions[i + 1];
      if IsValidClick(ability, interactions[0], groups) then [interactions[0].tile] + rest else rest
  }

  /** A click on a tile the ability cannot target, or a hover, sends nothing. */
  lemma InvalidClickSendsNothing(ability: Ability, ti: TileInteraction, groups: map<Entity, Group>)
    requires OccupantHasGroup(ti.children, groups)
    requires ti.interaction != Clicked || TargetTypeOf(ti.children, groups) !in ability.target
    ensures ValidClicks(ability, [ti], groups) == []
  {
  }

  /** One cast of the chosen ability by the active combatant per accepted click. */
  function CastsOn(ability: Ability, caster: Entity, tiles: seq<Entity>): (r: seq<Abilities.AbilityCastEvent>)
    ensures |r| == |tiles|
    ensures forall i :: 0 <= i < |tiles| ==> r[i] == Abilities.AbilityCastEvent(ability, caster, tiles[i])
  {
    if tiles == [] then [] else [Abilities.AbilityCastEvent(ability, caster, tiles[0])] + CastsOn(ability, caster, tiles[1..])
  }

  datatype ButtonInteraction = ButtonInteraction(interaction: Interaction, abilityName: string)

  /** The first ability button clicked this frame. */
  function FirstClick(buttons: seq<ButtonInteraction>): (r: Option<nat>)
    ensures r.Some? ==> r.value < |buttons| && buttons[r.value].interaction == Clicked
    ensures r.Some? ==> forall j :: 0 <= j < r.value ==> buttons[j].interaction != Clicked
    ensures r.None? ==> forall j :: 0 <= j < |buttons| ==> buttons[j].interaction != Clicked
  {
    if buttons == [] then None
    else if buttons[0].interaction == Clicked then Some(0)
    else match FirstClick(buttons[1..])
      case None => None
      case Some(k) => Some(k + 1)
  }

  /**
   * The state the targeting systems share: the turn queue, each character's
   * group, abilities by name and parent tile, the hex field and an iteration
   * order of its tiles, the `ChosenAbility` resource, the highlighted tiles,
   * the casts sent and the pending next battle state.
   */
  class Targeting {
    var queue: seq<Entity>
    var groups: map<Entity, Group>
    var abilities: map<Entity, map<string, Ability>>
    var parents: map<Entity, Entity>
    var field: Option<HexBattleField>
    var tileOrder: seq<Hex>
    var chosen: Option<Ability>
    var highlighted: set<Entity>
    var casts: seq<Abilities.AbilityCastEvent>
    var next: Option<Battle.BattleState>

    /**
     * `choose_target`: with an ability chosen, each accepted click sends a cast
     * by the active combatant at the clicked tile; after any such click the
     * chosen ability is removed and every highlight is cleared. Without a
     * chosen ability, or without an accepted click, nothing changes.
     */
    method ChooseTarget(interactions: seq<TileInteraction>)
      requires OccupantsHaveGroups(interactions, groups)
      requires chosen.Some? && ValidClicks(chosen.value, interactions, groups) != [] ==> |queue| > 0
      modifies this
      ensures queue == old(queue) && groups == old(groups) && abilities == old(abilities) && parents == old(parents)
      ensures field == old(field) && tileOrder == old(tileOrder) && next == old(next)
      ensures old(chosen).None? ==> chosen == old(chosen) && casts == old(casts) && highlighted == old(highlighted)
      ensures old(chosen).Some? ==>
        var clicks := ValidClicks(old(chosen).value, interactions, groups);
        && casts == old(casts) + (if clicks == [] then [] else CastsOn(old(chosen).value, queue[0], clicks))
        && chosen == (if clicks == [] then old(chosen) else None)
        && highlighted == (if clicks == [] then old(highlighted) else {})
    {
      if chosen.Some? {
        var sent, shouldUnhighlight := ReadClicks(chosen.value, interactions, groups, queue);
        casts := casts + sent;
        if shouldUnhighlight {
          chosen := None;
          highlighted := {};
        }
      }
    }

    /**
     * `choose_action`: the first ability button clicked selects that ability of
     * the active combatant, highlights the tiles it reaches from the
     * combatant's tile and moves to targeting; hovers only recolour buttons.
     */
    method ChooseAction(buttons: seq<ButtonInteraction>)
      requires FirstClick(buttons).Some? ==>
        && |queue| > 0 && queue[0] in abilities && queue[0] in parents
        && buttons[FirstClick(buttons).value].abilityName in abilities[queue[0]]
        && field.Some? && IteratesTiles(tileOrder, field.value)
        && (tileOrder == [] || parents[queue[0]] in field.value.hexes)
      modifies this
      ensures queue == old(queue) && groups == old(groups) && abilities == old(abilities) && parents == old(parents)
      ensures field == old(field) && tileOrder == old(tileOrder) && casts == old(casts)
      ensures FirstClick(buttons).None? ==> chosen == old(chosen) && highlighted == old(highlighted) && next == old(next)
      ensures FirstClick(buttons).Some? ==>
        var ability := abilities[queue[0]][buttons[FirstClick(buttons).value].abilityName];
        var reach := GetAbilityRange(ability, parents[queue[0]], field.value, tileOrder);
        && chosen == Some(ability)
        && next == Some(Battle.AbilityTargeting)
        && highlighted == old(highlighted) + (set t | t in reach)
    {
      var clicked := FirstClicked(buttons);
      if clicked.Some? {
        var ability := abilities[queue[0]][buttons[clicked.value].abilityName];
        var toHighlight := GetAbilityRange(ability, parents[queue[0]], field.value, tileOrder);
        chosen := Some(ability);
        next := Some(Battle.AbilityTargeting);
        highlighted := Highlight(highlighted, toHighlight);
      }
    }
  }

  /**
   * The loop of `choose_target` over the tiles whose interaction changed:
   * one cast per accepted click, by the active combatant, and whether any
   * click was accepted.
   */
  method ReadClicks(ability: Ability, interactions: seq<TileInteraction>, groups: map<Entity, Group>, queue: seq<Entity>)
    returns (sent: seq<Abilities.AbilityCastEvent>, shouldUnhighlight: bool)
    requires OccupantsHaveGroups(interactions, groups)
    requires ValidClicks(ability, interactions, groups) != [] ==> |queue| > 0
    ensures shouldUnhighlight <==> ValidClicks(ability, interactions, groups) != []
    ensures sent == (if shouldUnhighlight then CastsOn(ability, queue[0], ValidClicks(ability, interactions, groups)) else [])
  {
    sent, shouldUnhighlight := [], false;
    ghost var tiles: seq<Entity> := [];
    var i := 0;
    while i < |interactions|
      invariant 0 <= i <= |interactions|
      invariant OccupantsHaveGroups(interactions[..i], groups)
      invariant tiles == ValidClicks(ability, interactions[..i], groups)
      invariant tiles != [] ==> |queue| > 0
      invariant shouldUnhighlight <==> tiles != []
      invariant |sent| == |tiles|
      invariant forall k :: 0 <= k < |sent| ==> sent[k] == Abilities.AbilityCastEvent(ability, queue[0], tiles[k])
    {
      var ti := interactions[i];
      assert interactions[..i + 1] == interactions[..i] + [ti];
      ValidClicksSnoc(ability, interactions[..i], ti, groups);
      if IsValidClick(ability, ti, groups) {
        ValidClicksPrefix(ability, interactions, i + 1, groups);
        sent := sent + [Abilities.AbilityCastEvent(ability, Battle.GetCurrent(queue), ti.tile)];
        shouldUnhighlight := true;
        tiles := tiles + [ti.tile];
      }
      i := i + 1;
    }
    assert interactions[..i] == interactions;
    if shouldUnhighlight {
      assert sent == CastsOn(ability, queue[0], tiles);
    }
  }

  /** The loop of `choose_action` over the ability buttons, up to its `break` at the first click. */
  method FirstClicked(buttons: seq<ButtonInteraction>) returns (clicked: Option<nat>)
    ensures clicked.Some? ==> clicked.value < |buttons| && buttons[clicked.value].interaction == Clicked
    ensures clicked.Some? ==> forall j :: 0 <= j < clicked.value ==> buttons[j].interaction != Clicked
    ensures clicked.None? ==> forall j :: 0 <= j < |buttons| ==> buttons[j].interaction != Clicked
    ensures clicked == FirstClick(buttons)
  {
    clicked := None;
    var i := 0;
    while i < |buttons|
      invariant 0 <= i <= |buttons|
      invariant forall j :: 0 <= j < i ==> buttons[j].interaction != Clicked
    {
      if buttons[i].interaction == Clicked {
        clicked := Some(i);
        return;
      }
      i := i + 1;
    }
  }

  /** The tiles `reach` marked highlighted, one after another. */
  method Highlight(lit: set<Entity>, reach: seq<Entity>) returns (r: set<Entity>)
    ensures forall t :: t in r <==> t in lit || t in reach
  {
    r := lit;
    for k := 0 to |reach|
      invariant forall t :: t in r <==> t in lit || t in reach[..k]
    {
      assert reach[..k + 1] == reach[..k] + [reach[k]];
      r := r + {reach[k]};
    }
    assert reach[..|reach|] == reach;
  }

  /** The clicks accepted among a prefix are among those accepted overall. */
  lemma ValidClicksPrefix(ability: Ability, interactions: seq<TileInteraction>, n: nat, groups: map<Entity, Group>)
    requires n <= |interactions| && OccupantsHaveGroups(interactions, groups)
    ensures OccupantsHaveGroups(interactions[..n], groups)
    ensures ValidClicks(ability, interactions[..n], groups) != [] ==> ValidClicks(ability, interactions, groups) != []
  {
    var pre := interactions[..n];
    assert forall i :: 0 <= i < n ==> pre[i] == interactions[i];
    if ValidClicks(ability, pre, groups) != [] {
      var t := ValidClicks(ability, pre, groups)[0];
      assert t in ValidClicks(ability, pre, groups);
      var i :| 0 <= i < n && pre[i].tile == t && IsValidClick(ability, pre[i], groups);
      assert t in ValidClicks(ability, interactions, groups);
    }
  }

  /** Reading one more interaction extends the accepted clicks by that tile exactly when it is accepted. */
  lemma {:induction false} ValidClicksSnoc(ability: Ability, interactions: seq<TileInteraction>, ti: TileInteraction, groups: map<Entity, Group>)
    requires OccupantsHaveGroups(interactions, groups) && OccupantHasGroup(ti.children, groups)
    ensures OccupantsHaveGroups(interactions + [ti], groups)
    ensures ValidClicks(ability, interactions + [ti], groups) ==
      ValidClicks(ability, interactions, groups) + (if IsValidClick(ability, ti, groups) then [ti.tile] else [])
    decreases |interactions|
  {
    var all := interactions + [ti];
    assert forall i :: 0 <= i < |all| ==> all[i] == (if i < |interactions| then interactions[i] else ti);
    if interactions != [] {
      assert all[1..] == interactions[1..] + [ti];
      ValidClicksSnoc(ability, interactions[1..], ti, groups);
    }
  }

  // ---------------------------------------------------------------------------
  // The older enemy turn

  /**
   * The older `handle_enemy_turn`: the target is the tile of some player
   * character (the system panics when there is none, and when the queue is
   * empty); the active combatant casts one of its abilities, any of them, at
   * that tile, and sends nothing when it has none.
   */
  method RandomEnemyTurn(queue: seq<Entity>, abilities: map<Entity, map<string, Ability>>, groupParents: map<Entity, (Group, Entity)>)
    returns (sent: Option<Abilities.AbilityCastEvent>)
    requires exists p :: p in groupParents && groupParents[p].0 == Player
    requires |queue| > 0
    ensures sent.Some? <==> queue[0] in abilities && |abilities[queue[0]]| > 0
    ensures sent.Some? ==> sent.value.caster == queue[0] && sent.value.ability in abilities[queue[0]].Values
    ensures sent.Some? ==> exists p :: p in groupParents && groupParents[p] == (Player, sent.value.on)
  {
    var p :| p in groupParents && groupParents[p].0 == Player;
    var target := groupParents[p].1;
    var active := Battle.GetCurrent(queue);
    if active in abilities && |abilities[active]| > 0 {
      var name :| name in abilities[active];
      sent := Some(Abilities.AbilityCastEvent(abilities[active][name], active, target));
    } else {
      sent := None;
    }
  }

  // ---------------------------------------------------------------------------
  // Leaving the battle

  /** The roster without its enemies, in roster order. */
  function PlayersOnly(characters: seq<Game.CharacterRecord>): (r: seq<Game.CharacterRecord>)
    ensures |r| <= |characters|
    ensures forall c :: c in r <==> c in characters && c.group == Player
  {
    if characters == [] then []
    else
      var rest := PlayersOnly(characters[1..]);
      assert forall c :: c in characters <==> c == characters[0] || c in characters[1..];
      if characters[0].group == Player then [characters[0]] + rest else rest
  }

  /** The filter keeps the relative order: filtering a concatenation concatenates the filtered parts. */
  lemma {:induction false} PlayersOnlyAppend(a: seq<Game.CharacterRecord>, b: seq<Game.CharacterRecord>)
    ensures PlayersOnly(a + b) == PlayersOnly(a) + PlayersOnly(b)
    decreases |a|
  {
    if a != [] {
      assert (a + b)[0] == a[0];
      assert (a + b)[1..] == a[1..] + b;
      PlayersOnlyAppend(a[1..], b);
    } else {
      assert a + b == b;
    }
  }

  /** A roster of players only is kept whole, so cleaning up twice is cleaning up once. */
  lemma {:induction false} PlayersOnlyIdempotent(characters: seq<Game.CharacterRecord>)
    ensures PlayersOnly(PlayersOnly(characters)) == PlayersOnly(characters)
    decreases |characters|
  {
    if characters != [] {
      PlayersOnlyIdempotent(characters[1..]);
      var rest := PlayersOnly(characters[1..]);
      if characters[0].group == Player {
        assert ([characters[0]] + rest)[1..] == rest;
      }
    }
  }

  /** `cleanup_battle`: the roster keeps exactly its player characters, in order; the round is untouched. */
  method CleanupBattle(gs: Game.GameState)
    modifies gs
    ensures gs.characters == PlayersOnly(old(gs.characters))
    ensures gs.round == old(gs.round)
  {
    gs.characters := PlayersOnly(gs.characters);
  }
}
