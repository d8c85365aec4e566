/**
 * Start-up of the enemy roster: the player is given its starting abilities
 * and the enemy templates of each tier are built from the ability catalogue.
 */
module EnemyCatalogue {
  import opened Character
  import AbilityCatalogue
  import Game

  type Ability = AbilityCatalogue.Ability

  datatype EnemyTier = Normal1

  /**
   * `get_abilities`: the catalogue entry of each name, one per name, in the
   * order of the names; a missing name panics.
   */
  function GetAbilities(names: seq<string>, catalogue: map<string, Ability>): (r: seq<Ability>)
    requires forall i :: 0 <= i < |names| ==> names[i] in catalogue
    ensures |r| == |names|
    ensures forall i :: 0 <= i < |names| ==> r[i] == catalogue[names[i]]
  {
    if names == [] then [] else [catalogue[names[0]]] + GetAbilities(names[1..], catalogue)
  }

  /** Against a catalogue keyed by name, the abilities found carry the names asked for. */
  lemma GetAbilitiesNames(names: seq<string>, catalogue: map<string, Ability>)
    requires forall i :: 0 <= i < |names| ==> names[i] in catalogue
    requires forall k :: k in catalogue ==> catalogue[k].name == k
    ensures forall i :: 0 <= i < |names| ==> GetAbilities(names, catalogue)[i].name == names[i]
  {
  }

  /** A template's attributes, converted from `(type, amount)` pairs: exactly hit points, attack and defense. */
  function Stats(hitPoints: int, attack: int, defense: int, toAttribute: (AttributeType, int) -> Attribute): (r: map<AttributeType, Attribute>)
    ensures r.Keys == {HitPoints, Attack, Defense}
    ensures r[HitPoints] == toAttribute(HitPoints, hitPoints) && r[Attack] == toAttribute(Attack, attack)
    ensures r[Defense] == toAttribute(Defense, defense)
  {
    map[HitPoints := toAttribute(HitPoints, hitPoints), Attack := toAttribute(Attack, attack), Defense := toAttribute(Defense, defense)]
  }

  /**
   * The `Normal1` tier: a fungus that hits and an angry fungus that slams, two
   * enemy fungi with one ability each and the fungus sprite.
   */
  function Normal1Templates(catalogue: map<string, Ability>, toAttribute: (AttributeType, int) -> Attribute): (r: seq<Game.CharacterRecord>)
    requires "hit" in catalogue && "slam" in catalogue
    ensures |r| == 2
    ensures forall i :: 0 <= i < |r| ==>
      && r[i].group == Enemy && r[i].category == Fungus && r[i].imagePath == "images/fungus.png"
      && |r[i].abilities| == 1 && r[i].attributes.Keys == {HitPoints, Attack, Defense}
    ensures r[0].abilities[0] == catalogue["hit"] && r[1].abilities[0] == catalogue["slam"]
  {
    [ Game.CharacterRecord("fungus", Fungus, GetAbilities(["hit"], catalogue), Stats(50, 5, 5, toAttribute), Enemy, "images/fungus.png"),
      Game.CharacterRecord("angry fungus", Fungus, GetAbilities(["slam"], catalogue), Stats(50, 7, 3, toAttribute), Enemy, "images/fungus.png") ]
  }

  /**
   * With the game's catalogue the tier has two enemy templates, both fungi:
   * "fungus" with the melee hit and "angry fungus" with the ranged slam, each
   * with 50 hit points and its attack and defense, and only abilities aimed
   * at the player's side.
   */
  lemma Normal1Facts(toAttribute: (AttributeType, int) -> Attribute)
    ensures AbilityCatalogue.Catalogue().Keys >= {"hit", "slam"}
    ensures var t := Normal1Templates(AbilityCatalogue.Catalogue(), toAttribute);
      && |t| == 2
      && t[0].name == "fungus" && t[1].name == "angry fungus"
      && (forall i :: 0 <= i < 2 ==> t[i].group == Enemy && t[i].category == Fungus && |t[i].abilities| == 1)
      && t[0].abilities[0] == AbilityCatalogue.HitAbility
      && t[1].abilities[0] == AbilityCatalogue.SlamAbility
      && (forall i :: 0 <= i < 2 ==> t[i].abilities[0].target == {AbilityCatalogue.Abilities.Enemy})
      && t[0].attributes[HitPoints] == toAttribute(HitPoints, 50) && t[1].attributes[HitPoints] == toAttribute(HitPoints, 50)
      && t[0].attributes[Attack] == toAttribute(Attack, 5) && t[1].attributes[Attack] == toAttribute(Attack, 7)
      && t[0].attributes[Defense] == toAttribute(Defense, 5) && t[1].attributes[Defense] == toAttribute(Defense, 3)
  {
    AbilityCatalogue.CatalogueEntries();
  }

  /**
   * `init_available_enemies`: the first character of the roster gets "move"
   * and "hit" in place of its abilities, and the tiers are returned. The roster
   * must not be empty and the catalogue must have every ability named.
   */
  method InitAvailableEnemies(gs: Game.GameState, catalogue: map<string, Ability>, toAttribute: (AttributeType, int) -> Attribute)
    returns (enemies: map<EnemyTier, seq<Game.CharacterRecord>>)
    requires |gs.characters| > 0
    requires "move" in catalogue && "hit" in catalogue && "slam" in catalogue
    modifies gs
    ensures gs.characters == old(gs.characters)[0 := old(gs.characters)[0].(abilities := [catalogue["move"], catalogue["hit"]])]
    ensures gs.round == old(gs.round)
    ensures enemies == map[Normal1 := Normal1Templates(catalogue, toAttribute)]
  {
    var player := gs.characters[0];
    var abilities := GetAbilities(["move", "hit"], catalogue);
    assert abilities == [catalogue["move"], catalogue["hit"]];
    gs.characters := gs.characters[0 := player.(abilities := abilities)];
    enemies := map[Normal1 := Normal1Templates(catalogue, toAttribute)];
  }
}
