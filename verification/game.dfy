/**
 * The application-wide state the battle systems read and write: the roster of
 * characters carried from battle to battle and the round counter.
 */
module Game {
  import opened Character
  import AbilityCatalogue

  /** A roster entry: the bundle a character is spawned with, and its sprite. */
  datatype CharacterRecord = CharacterRecord(
    name: string,
    category: CharacterCategory,
    abilities: seq<AbilityCatalogue.Ability>,
    attributes: map<AttributeType, Attribute>,
    group: Group,
    imagePath: string)

  /** The `GameState` resource: a roster updated in place between and after battles. */
  class GameState {
    var characters: seq<CharacterRecord>
    var round: int

    /** The default state: a single player character with no abilities and no attributes. */
    constructor ()
      ensures characters == [DefaultPlayer()] && round == 0
    {
      characters := [DefaultPlayer()];
      round := 0;
    }
  }

  /** The roster's first character: the human player, with no abilities and no attributes until a battle gives them. */
  function DefaultPlayer(): (p: CharacterRecord)
    ensures p.group == Player && p.category == Human
    ensures p.abilities == [] && p.attributes == map[]
  {
    CharacterRecord("player", Human, [], map[], Player, "images/human.png")
  }
}
