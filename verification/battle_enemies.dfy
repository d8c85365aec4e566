/**
 * The enemy side of a battle: how many enemies join the roster on entering a
 * battle and how strong they are, and the policy that decides an enemy's turn
 * (attack the player when an attack reaches, otherwise move with the
 * longest-range movement, otherwise pass).
 */
module BattleEnemies {
  import opened Character
  import opened Wrappers
  import opened HexGrid
  import opened HexField
  import Abilities
  import AbilityCatalogue
  import EnemyCatalogue
  import Game
  import Battle

  type Ability = AbilityCatalogue.Ability

  // ---------------------------------------------------------------------------
  // Entering a battle: the enemies added to the roster

  /** Rust's `/` on a positive divisor: the quotient truncated toward zero. */
  function TruncDiv(a: int, b: int): (q: int)
    requires b > 0
    ensures a >= 0 ==> q == a / b
    ensures a < 0 ==> q <= 0 && -q == (-a) / b
  {
    if a >= 0 then a / b else -((-a) / b)
  }

  /** `(round / 8 + 1).clamp(1, 4)`: one more enemy every eight rounds, from one up to four. */
  function EnemyCount(round: int): (n: nat)
    ensures 1 <= n <= 4
    ensures round < 8 ==> n == 1
    ensures round >= 24 ==> n == 4
    ensures 0 <= round < 24 ==> n == round / 8 + 1
  {
    Clamp(TruncDiv(round, 8) + 1, 1, 4)
  }

  /** A later round never brings fewer enemies. */
  lemma EnemyCountMonotone(a: int, b: int)
    requires a <= b
    ensures EnemyCount(a) <= EnemyCount(b)
  {
    if 0 <= a {
      assert a / 8 <= b / 8;
    }
  }

  function Min(a: nat, b: nat): nat
  {
    if a <= b then a else b
  }

  /**
   * The power multiplier applied to one attribute: a `Value` is scaled, a
   * `Gauge` has its value and its maximum scaled and keeps its minimum.
   * `scale` stands for rounding `x * 1.02^round` back to an integer.
   */
  function ScaleAttribute(a: Attribute, scale: int -> int): (r: Attribute)
    ensures r.Value? <==> a.Value?
    ensures a.Value? ==> r.v == scale(a.v)
    ensures a.Gauge? ==> r.value == scale(a.value) && r.min == a.min && r.max == scale(a.max)
  {
    match a
    case Value(v) => Value(scale(v))
    case Gauge(value, min, max) => Gauge(scale(value), min, scale(max))
  }

  /** Every attribute of a character scaled, keyed as before. */
  function ScaleAttributes(attributes: map<AttributeType, Attribute>, scale: int -> int): (r: map<AttributeType, Attribute>)
    ensures r.Keys == attributes.Keys
    ensures forall k :: k in r ==> r[k] == ScaleAttribute(attributes[k], scale)
  {
    map k | k in attributes :: ScaleAttribute(attributes[k], scale)
  }

  /** At round 0 the multiplier is one: scaling by the identity changes nothing. */
  lemma ScaleByOneIsIdentity(attributes: map<AttributeType, Attribute>, scale: int -> int)
    requires forall x :: scale(x) == x
    ensures ScaleAttributes(attributes, scale) == attributes
  {
    var r := ScaleAttributes(attributes, scale);
    forall k | k in attributes
      ensures r[k] == attributes[k]
    {
      match attributes[k]
      case Value(v) =>
      case Gauge(value, min, max) =>
    }
  }

  /**
   * A monotone rounding keeps a gauge's value at or below its maximum. The
   * minimum is not scaled, so a gauge whose minimum exceeds the scaled maximum
   * can come out with unordered bounds.
   */
  lemma ScaleKeepsValueBelowMax(a: Attribute, scale: int -> int)
    requires a.Gauge? && a.value <= a.max
    requires forall x, y :: x <= y ==> scale(x) <= scale(y)
    ensures ScaleAttribute(a, scale).value <= ScaleAttribute(a, scale).max
  {
  }

  /** The `iter_mut` loop over one enemy's attributes, visiting them in the map's (unspecified) order. */
  method ScaleEnemy(enemy: Game.CharacterRecord, scale: int -> int) returns (scaled: Game.CharacterRecord)
    ensures scaled == enemy.(attributes := ScaleAttributes(enemy.attributes, scale))
  {
    var attributes := enemy.attributes;
    var remaining := attributes.Keys;
    while remaining != {}
      invariant remaining <= enemy.attributes.Keys
      invariant attributes.Keys == enemy.attributes.Keys
      invariant forall k :: k in attributes ==>
        attributes[k] == if k in remaining then enemy.attributes[k] else ScaleAttribute(enemy.attributes[k], scale)
      decreases remaining
    {
      var k :| k in remaining;
      attributes := attributes[k := ScaleAttribute(attributes[k], scale)];
      remaining := remaining - {k};
    }
    scaled := enemy.(attributes := attributes);
  }

  /** The templates picked, by index into the tier, each scaled. */
  function ScaledPicks(tier: seq<Game.CharacterRecord>, picks: seq<nat>, scale: int -> int): (r: seq<Game.CharacterRecord>)
    requires forall i :: 0 <= i < |picks| ==> picks[i] < |tier|
    ensures |r| == |picks|
    ensures forall i :: 0 <= i < |picks| ==> r[i] == tier[picks[i]].(attributes := ScaleAttributes(tier[picks[i]].attributes, scale))
  {
    seq(|picks|, i requires 0 <= i < |picks| => tier[picks[i]].(attributes := ScaleAttributes(tier[picks[i]].attributes, scale)))
  }

  /** `choose_multiple`: as many distinct templates of the tier as asked for, or all of them when it has fewer. */
  predicate ValidPicks(tier: seq<Game.CharacterRecord>, picks: seq<nat>, count: nat)
  {
    && |picks| == Min(count, |tier|)
    && (forall i :: 0 <= i < |picks| ==> picks[i] < |tier|)
    && (forall i, j :: 0 <= i < j < |picks| ==> picks[i] != picks[j])
  }

  /**
   * `initialize_enemies`: the templates picked from the `Normal1` tier (a
   * missing tier panics), scaled by the round's power multiplier, are appended
   * to the roster, whose earlier characters stay in place.
   */
  method InitializeEnemies(gs: Game.GameState, enemies: map<EnemyCatalogue.EnemyTier, seq<Game.CharacterRecord>>, picks: seq<nat>, scale: int -> int)
    requires EnemyCatalogue.Normal1 in enemies
    requires ValidPicks(enemies[EnemyCatalogue.Normal1], picks, EnemyCount(gs.round))
    modifies gs
    ensures gs.round == old(gs.round)
    ensures gs.characters == old(gs.characters) + ScaledPicks(enemies[EnemyCatalogue.Normal1], picks, scale)
  {
    var tier := enemies[EnemyCatalogue.Normal1];
    ghost var before := gs.characters;
    var i := 0;
    while i < |picks|
      invariant 0 <= i <= |picks|
      invariant gs.round == old(gs.round)
      invariant gs.characters == before + ScaledPicks(tier, picks[..i], scale)
    {
      var enemy := ScaleEnemy(tier[picks[i]], scale);
      assert ScaledPicks(tier, picks[..i + 1], scale) == ScaledPicks(tier, picks[..i], scale) + [enemy];
      gs.characters := gs.characters + [enemy];
      i := i + 1;
    }
    assert picks[..i] == picks;
  }

  /**
   * How many enemies join: at least one from a non-empty tier, never more than
   * four, never more than the tier holds, and each from a different template.
   */
  lemma EnemiesAdded(tier: seq<Game.CharacterRecord>, picks: seq<nat>, round: int, scale: int -> int)
    requires ValidPicks(tier, picks, EnemyCount(round))
    ensures var added := ScaledPicks(tier, picks, scale);
      && (|tier| > 0 ==> |added| >= 1)
      && |added| <= 4 && |added| <= |tier|
      && (forall i :: 0 <= i < |added| ==> added[i].name == tier[picks[i]].name && added[i].group == tier[picks[i]].group)
  {
  }

  // ---------------------------------------------------------------------------
  // An enemy's turn

  /** The event an active combatant's turn produces: an ability cast on a tile, or a pass. */
  datatype TurnEvent =
    | UseAbility(ability: Ability, caster: Entity, on: Entity)
    | Pass(caster: Entity)

  /**
   * An attack that reaches: aimed at the other side, with the player within its
   * range. Reach is the same measured from either end, and no ability with a
   * negative range reaches.
   */
  predicate Attacks(a: Ability, playerHex: Hex, enemyHex: Hex)
    ensures Attacks(a, playerHex, enemyHex) <==> Abilities.Enemy in a.target && Dist(enemyHex, playerHex) <= a.range
    ensures Attacks(a, playerHex, enemyHex) ==> a.range >= 0
  {
    DistSymmetric(playerHex, enemyHex);
    Abilities.Enemy in a.target && Dist(playerHex, enemyHex) <= a.range
  }

  /** An ability aimed at empty tiles, a movement. */
  predicate Moves(a: Ability)
  {
    Abilities.Empty in a.target
  }

  /**
   * The movements sorted by range with a stable sort, then the last: the index
   * of the movement of greatest range, the latest one among equals.
   */
  function LongestMove(abilities: seq<Ability>): (r: Option<nat>)
    ensures r.Some? <==> exists i :: 0 <= i < |abilities| && Moves(abilities[i])
    ensures r.Some? ==> r.value < |abilities| && Moves(abilities[r.value])
    ensures r.Some? ==> forall j :: 0 <= j < |abilities| && Moves(abilities[j]) ==> abilities[j].range <= abilities[r.value].range
    ensures r.Some? ==> forall j :: r.value < j < |abilities| && Moves(abilities[j]) ==> abilities[j].range < abilities[r.value].range
    decreases |abilities|
  {
    if abilities == [] then None
    else
      var last := |abilities| - 1;
      var init := abilities[..last];
      var rest := LongestMove(init);
      assert forall j :: 0 <= j < last ==> init[j] == abilities[j];
      if Moves(abilities[last]) && (rest.None? || abilities[rest.value].range <= abilities[last].range) then Some(last)
      else rest
  }

  /** Some ability of the list reaches the player; an enemy with no ability aimed at the other side never attacks. */
  predicate CanAttack(abilities: seq<Ability>, playerHex: Hex, enemyHex: Hex)
    ensures (forall i :: 0 <= i < |abilities| ==> Abilities.Enemy !in abilities[i].target) ==> !CanAttack(abilities, playerHex, enemyHex)
    ensures CanAttack(abilities, playerHex, enemyHex) ==> |abilities| > 0
  {
    exists i :: 0 <= i < |abilities| && Attacks(abilities[i], playerHex, enemyHex)
  }

  /** The hex a movement of `range` takes the enemy to, if any: the nearest-to-the-player hex that is reachable and empty. */
  type MoveFinder = (Hex, Hex, int) -> Option<Hex>

  /** The movement the enemy makes when it cannot attack: the longest movement and the hex it reaches, if both exist. */
  function MoveTarget(abilities: seq<Ability>, playerHex: Hex, enemyHex: Hex, findMove: MoveFinder): (r: Option<(Ability, Hex)>)
    ensures r.Some? ==> LongestMove(abilities).Some? && r.value.0 == abilities[LongestMove(abilities).value]
    ensures r.Some? ==> findMove(playerHex, enemyHex, r.value.0.range) == Some(r.value.1)
    ensures r.None? ==> LongestMove(abilities).None? || findMove(playerHex, enemyHex, abilities[LongestMove(abilities).value].range).None?
  {
    match LongestMove(abilities)
    case None => None
    case Some(m) =>
      match findMove(playerHex, enemyHex, abilities[m].range)
      case None => None
      case Some(h) => Some((abilities[m], h))
  }

  /**
   * `handle_enemy_turn`. The target is the tile of some player character (the
   * system panics when there is none, dead or alive), the active combatant is
   * the head of the queue. An active combatant without abilities passes. One
   * with an attack that reaches the player casts some such attack at the
   * player's tile; otherwise it moves with its longest movement to the hex the
   * field offers, if any; otherwise it passes. `abilities` lists each
   * combatant's abilities in the order its map yields them; `findMove` stands
   * for the field's search of a reachable empty hex, which returns only hexes
   * of the field.
   */
  method HandleEnemyTurn(
    queue: seq<Entity>,
    field: Option<HexBattleField>,
    abilities: map<Entity, seq<Ability>>,
    groupParents: map<Entity, (Group, Entity)>,
    findMove: MoveFinder)
    returns (ev: TurnEvent, ghost playerTile: Entity)
    requires exists p :: p in groupParents && groupParents[p].0 == Player
    requires |queue| > 0 && queue[0] in groupParents
    requires field.Some?
    requires forall p :: p in groupParents && groupParents[p].0 == Player ==> groupParents[p].1 in field.value.hexes
    requires groupParents[queue[0]].1 in field.value.hexes
    requires forall a, b, r :: findMove(a, b, r).Some? ==> findMove(a, b, r).value in field.value.tiles
    ensures ev.caster == queue[0]
    ensures exists p :: p in groupParents && groupParents[p] == (Player, playerTile)
    ensures playerTile in field.value.hexes
    ensures queue[0] !in abilities ==> ev == Pass(queue[0])
    ensures queue[0] in abilities ==>
      var abs := abilities[queue[0]];
      var playerHex := field.value.hexes[playerTile];
      var enemyHex := field.value.hexes[groupParents[queue[0]].1];
      var move := MoveTarget(abs, playerHex, enemyHex, findMove);
      && (CanAttack(abs, playerHex, enemyHex) ==>
            ev.UseAbility? && ev.ability in abs && Attacks(ev.ability, playerHex, enemyHex) && ev.on == playerTile)
      && (!CanAttack(abs, playerHex, enemyHex) && move.Some? ==>
            ev == UseAbility(move.value.0, queue[0], field.value.tiles[move.value.1]))
      && (ev.Pass? <==> !CanAttack(abs, playerHex, enemyHex) && move.None?)
  {
    var p :| p in groupParents && groupParents[p].0 == Player;
    var target := groupParents[p].1;
    playerTile := target;
    var active := Battle.GetCurrent(queue);
    var enemyTile := groupParents[active].1;
    var bf := field.value;
    var playerHex := HexOf(bf, target).value;
    var enemyHex := HexOf(bf, enemyTile).value;
    if active in abilities {
      var abs := abilities[active];
      if CanAttack(abs, playerHex, enemyHex) {
        var i :| 0 <= i < |abs| && Attacks(abs[i], playerHex, enemyHex);
        ev := UseAbility(abs[i], active, target);
      } else {
        var move := MoveTarget(abs, playerHex, enemyHex, findMove);
        if move.Some? {
          var targetTile := TileAt(bf, move.value.1).value;
          ev := UseAbility(move.value.0, active, targetTile);
        } else {
          ev := Pass(active);
        }
      }
    } else {
      ev := Pass(active);
    }
  }

  /** With the catalogue's movement, an enemy's movement is "move" of range 5 whenever it holds it. */
  lemma CatalogueMoveIsLongest(abilities: seq<Ability>)
    requires forall i :: 0 <= i < |abilities| ==> abilities[i] in AbilityCatalogue.Catalogue().Values
    requires AbilityCatalogue.MoveAbility in abilities
    ensures LongestMove(abilities).Some?
    ensures abilities[LongestMove(abilities).value] == AbilityCatalogue.MoveAbility
  {
    AbilityCatalogue.MoveIsTheOnlyMovement();
    var k :| 0 <= k < |abilities| && abilities[k] == AbilityCatalogue.MoveAbility;
    assert Moves(abilities[k]);
    var m := LongestMove(abilities).value;
    assert abilities[m] in AbilityCatalogue.Catalogue().Values;
    var key :| key in AbilityCatalogue.Catalogue() && AbilityCatalogue.Catalogue()[key] == abilities[m];
    assert key == "move";
  }
}
