/**
 * The catalogue of abilities a character can be given, keyed by ability name.
 * It is built once at start-up.
 */
module AbilityCatalogue {
  import opened Character
  import App
  import Abilities

  datatype AbilityProximity = Melee | Ranged

  datatype TargetedAbilityType = ChangeAttribute(atType: AttributeType, potency: int)

  datatype AbilityKind =
    | Movement
    | Targeted(abType: TargetedAbilityType, proximity: AbilityProximity)

  /** A catalogue entry; `target` is the set of tile kinds it may be aimed at. */
  datatype Ability = Ability(name: string, kind: AbilityKind, target: set<Abilities.AbilityTargetType>, range: int)

  const MoveAbility := Ability("move", Movement, {Abilities.Empty}, 5)
  const HitAbility := Ability("hit", Targeted(ChangeAttribute(HitPoints, 15), Melee), {Abilities.Enemy}, 2)
  const ShootAbility := Ability("shoot", Targeted(ChangeAttribute(HitPoints, 10), Ranged), {Abilities.Enemy}, 5)
  const SlamAbility := Ability("slam", Targeted(ChangeAttribute(HitPoints, 20), Ranged), {Abilities.Enemy}, 1)

  /** The abilities of the game, in the order they are listed. */
  const Listed: seq<Ability> := [MoveAbility, HitAbility, ShootAbility, SlamAbility]

  /**
   * Collecting `(name, ability)` pairs into a map: every listed name is a key,
   * and every key maps to a listed ability of that name.
   */
  function Collect(abilities: seq<Ability>): (m: map<string, Ability>)
    ensures forall i :: 0 <= i < |abilities| ==> abilities[i].name in m
    ensures forall k :: k in m ==> m[k].name == k && m[k] in abilities
    decreases |abilities|
  {
    if abilities == [] then map[]
    else
      var rest := abilities[..|abilities| - 1];
      assert forall i :: 0 <= i < |rest| ==> rest[i] == abilities[i];
      Collect(rest)[abilities[|abilities| - 1].name := abilities[|abilities| - 1]]
  }

  /** With distinct names, each listed ability is found under its name. */
  lemma CollectDistinct(abilities: seq<Ability>)
    requires forall i, j :: 0 <= i < j < |abilities| ==> abilities[i].name != abilities[j].name
    ensures forall i :: 0 <= i < |abilities| ==> Collect(abilities)[abilities[i].name] == abilities[i]
  {
    var m := Collect(abilities);
    forall i | 0 <= i < |abilities|
      ensures m[abilities[i].name] == abilities[i]
    {
      var j :| 0 <= j < |abilities| && abilities[j] == m[abilities[i].name];
    }
  }

  /** `init_available_abilities`: the catalogue, and the init state that follows it. */
  function InitAvailableAbilities(): (r: (map<string, Ability>, App.InitState))
    ensures r.1 == App.AfterAbilities
  {
    (Collect(Listed), App.AfterAbilities)
  }

  /** The catalogue the game starts with. */
  function Catalogue(): map<string, Ability>
  {
    InitAvailableAbilities().0
  }

  /** The catalogue holds exactly the four listed abilities, each under its own name. */
  lemma CatalogueEntries()
    ensures Catalogue() == map["move" := MoveAbility, "hit" := HitAbility, "shoot" := ShootAbility, "slam" := SlamAbility]
  {
    var l3 := [MoveAbility, HitAbility, ShootAbility];
    var l2 := [MoveAbility, HitAbility];
    assert Listed[..3] == l3 && l3[..2] == l2 && l2[..1] == [MoveAbility] && [MoveAbility][..0] == [];
    assert Collect([MoveAbility]) == map["move" := MoveAbility];
    assert Collect(l2) == map["move" := MoveAbility, "hit" := HitAbility];
    assert Collect(l3) == map["move" := MoveAbility, "hit" := HitAbility, "shoot" := ShootAbility];
  }

  /** "move" is the only movement and the only ability aimed at empty tiles, with range 5. */
  lemma MoveIsTheOnlyMovement()
    ensures "move" in Catalogue() && Catalogue()["move"] == Ability("move", Movement, {Abilities.Empty}, 5)
    ensures forall k :: k in Catalogue() ==> (Catalogue()[k].kind.Movement? <==> k == "move")
    ensures forall k :: k in Catalogue() ==> (Abilities.Empty in Catalogue()[k].target <==> k == "move")
  {
    CatalogueEntries();
  }

  /** The three attacks: their hit-point potency, their proximity and their range. */
  lemma AttackEntries()
    ensures "hit" in Catalogue() && Catalogue()["hit"].kind == Targeted(ChangeAttribute(HitPoints, 15), Melee) && Catalogue()["hit"].range == 2
    ensures "shoot" in Catalogue() && Catalogue()["shoot"].kind == Targeted(ChangeAttribute(HitPoints, 10), Ranged) && Catalogue()["shoot"].range == 5
    ensures "slam" in Catalogue() && Catalogue()["slam"].kind == Targeted(ChangeAttribute(HitPoints, 20), Ranged) && Catalogue()["slam"].range == 1
  {
    CatalogueEntries();
  }

  /** Every key names its ability, and every targeted ability is aimed at enemies only. */
  lemma CatalogueKeysAndTargets()
    ensures |Catalogue()| == 4
    ensures forall k :: k in Catalogue() ==> Catalogue()[k].name == k
    ensures forall k :: k in Catalogue() && Catalogue()[k].kind.Targeted? ==> Catalogue()[k].target == {Abilities.Enemy}
  {
    CatalogueEntries();
  }
}
