/**
 * The older ability resolution: a cast names its caster and a list of target
 * characters, and changes one attribute of every target it reaches. A gauge
 * change is logged and may report a death; a plain value only decreases.
 */
module LegacyAbility {
  import opened Character
  import opened Wrappers
  import BattleLog
  import LegacyLifecycle
  import Abilities

  datatype AbilityType = ChangeAttribute(attribute: AttributeType)

  datatype Ability = Ability(name: string, typ: AbilityType, potency: int, sideEffect: Option<Ability>)

  /** A cast of `ability` by `caster` on every character listed in `on`. */
  datatype AbilityCastEvent = AbilityCastEvent(ability: Ability, caster: Entity, on: seq<Entity>)

  /**
   * What `cast_ability` reads and writes: each character's name, category and
   * attributes, and the log and lifecycle events it sends.
   */
  datatype World = World(
    names: map<Entity, string>,
    categories: map<Entity, CharacterCategory>,
    attributes: map<Entity, map<AttributeType, Attribute>>,
    log: seq<BattleLog.BattleLogEvent>,
    lifecycle: seq<LegacyLifecycle.BattleLifecycleEvent>)

  /** Every gauge of every character has ordered bounds, so clamping it cannot panic. */
  ghost predicate BoundsOk(w: World)
  {
    forall e, t :: e in w.attributes && t in w.attributes[e] ==> BoundsOrdered(w.attributes[e][t])
  }

  /** The cast reaches `e`: it is listed, it is a character with a name, a category and attributes, and it has the attribute. */
  predicate Hit(w: World, cast: AbilityCastEvent, e: Entity)
  {
    && e in cast.on && e in w.names && e in w.categories && e in w.attributes
    && cast.ability.typ.attribute in w.attributes[e]
  }

  /** The cast reaches `e` on a gauge, which logs a line. */
  predicate GaugeHit(w: World, cast: AbilityCastEvent, e: Entity)
  {
    Hit(w, cast, e) && w.attributes[e][cast.ability.typ.attribute].Gauge?
  }

  /**
   * The cast drops `e`'s hit-point gauge to zero or below, which reports a
   * death; a gauge whose minimum is above zero therefore never reports one.
   */
  predicate Kills(w: World, cast: AbilityCastEvent, e: Entity)
    requires BoundsOk(w)
    ensures Kills(w, cast, e) ==>
      (e in w.attributes && HitPoints in w.attributes[e]
       && w.attributes[e][HitPoints].Gauge? && w.attributes[e][HitPoints].min <= 0)
  {
    && GaugeHit(w, cast, e) && cast.ability.typ.attribute == HitPoints
    && Character.ChangeAttribute(w.attributes[e][HitPoints], cast.ability.potency).value <= 0
  }

  /** The attribute a reached character ends with: the attribute-change rule applied to it. */
  function Changed(w: World, cast: AbilityCastEvent, e: Entity): (a: Attribute)
    requires BoundsOk(w) && Hit(w, cast, e)
    ensures BoundsOrdered(a)
    ensures a.Gauge? <==> w.attributes[e][cast.ability.typ.attribute].Gauge?
  {
    Character.ChangeAttribute(w.attributes[e][cast.ability.typ.attribute], cast.ability.potency)
  }

  /** The attribute maps after the cast reaches `e`: only `e`'s attribute of the cast's type changes. */
  function AttributesAfter(w: World, cast: AbilityCastEvent, e: Entity): (r: map<Entity, map<AttributeType, Attribute>>)
    requires BoundsOk(w)
    ensures r.Keys == w.attributes.Keys
    ensures forall x :: x in w.attributes ==> r[x].Keys == w.attributes[x].Keys
    ensures forall x :: x in w.attributes && x != e ==> r[x] == w.attributes[x]
    ensures e in w.attributes ==> forall u :: u in w.attributes[e] && u != cast.ability.typ.attribute ==> r[e][u] == w.attributes[e][u]
    ensures forall x, t :: x in r && t in r[x] ==> BoundsOrdered(r[x][t])
  {
    if Hit(w, cast, e) then w.attributes[e := w.attributes[e][cast.ability.typ.attribute := Changed(w, cast, e)]]
    else w.attributes
  }

  /** The log after the cast reaches `e`: one line more for a gauge, naming the caster, the ability, the target and the new value. */
  function LogAfter(w: World, cast: AbilityCastEvent, casterName: string, e: Entity): (r: seq<BattleLog.BattleLogEvent>)
    requires BoundsOk(w)
    ensures |r| == |w.log| + (if GaugeHit(w, cast, e) then 1 else 0)
    ensures w.log <= r
    ensures forall k :: |w.log| <= k < |r| ==> casterName <= r[k].message
  {
    if GaugeHit(w, cast, e) then w.log + [Abilities.HitLine(casterName, cast.ability.name, w.names[e], Changed(w, cast, e).value)]
    else w.log
  }

  /** The lifecycle events after the cast reaches `e`: one death more when it drops `e`'s hit points to zero or below. */
  function LifecycleAfter(w: World, cast: AbilityCastEvent, e: Entity): (r: seq<LegacyLifecycle.BattleLifecycleEvent>)
    requires BoundsOk(w)
    ensures |r| == |w.lifecycle| + (if Kills(w, cast, e) then 1 else 0)
    ensures r[..|w.lifecycle|] == w.lifecycle
    ensures Kills(w, cast, e) ==> r[|r| - 1] == LegacyLifecycle.CharacterDied(e)
  {
    if Kills(w, cast, e) then w.lifecycle + [LegacyLifecycle.CharacterDied(e)] else w.lifecycle
  }

  /** The body of the target loop for the character `e`, with the caster's name already found. */
  function Affect(w: World, cast: AbilityCastEvent, casterName: string, e: Entity): (r: World)
    requires BoundsOk(w)
    ensures BoundsOk(r)
  {
    World(w.names, w.categories, AttributesAfter(w, cast, e), LogAfter(w, cast, casterName, e), LifecycleAfter(w, cast, e))
  }

  /** One cast applied to the characters in the query's iteration order `order`. */
  function CastOver(w: World, cast: AbilityCastEvent, casterName: string, order: seq<Entity>): (r: World)
    requires BoundsOk(w)
    ensures BoundsOk(r)
    ensures r.names == w.names && r.categories == w.categories && r.attributes.Keys == w.attributes.Keys
    ensures forall x :: x in w.attributes ==> r.attributes[x].Keys == w.attributes[x].Keys
    ensures w.log <= r.log && w.lifecycle <= r.lifecycle
    decreases |order|
  {
    if order == [] then w
    else
      var p := CastOver(w, cast, casterName, order[..|order| - 1]);
      var r := Affect(p, cast, casterName, order[|order| - 1]);
      assert r.names == p.names && r.categories == p.categories;
      r
  }

  /** The caster lookup finds the caster: it is iterated and has a name and attributes. */
  predicate CanCast(w: World, order: seq<Entity>, cast: AbilityCastEvent)
  {
    cast.caster in order && cast.caster in w.names && cast.caster in w.attributes
  }

  /** The casts of a frame, in the order they were sent. */
  function CastAll(w: World, order: seq<Entity>, casts: seq<AbilityCastEvent>): (r: World)
    requires BoundsOk(w)
    requires forall i :: 0 <= i < |casts| ==> CanCast(w, order, casts[i])
    ensures BoundsOk(r)
    ensures r.names == w.names && r.attributes.Keys == w.attributes.Keys
    decreases |casts|
  {
    if casts == [] then w
    else
      var c := casts[0];
      assert CanCast(w, order, c);
      var n := CastOver(w, c, w.names[c.caster], order);
      forall i | 0 <= i < |casts| - 1
        ensures CanCast(n, order, casts[1..][i])
      {
        assert casts[1..][i] == casts[i + 1];
        assert CanCast(w, order, casts[i + 1]);
        assert casts[i + 1].caster in n.attributes.Keys;
      }
      CastAll(n, order, casts[1..])
  }

  /** The characters a cast's target loop visits, in the query's iteration order. */
  class CastWorld {
    var order: seq<Entity>
    var names: map<Entity, string>
    var categories: map<Entity, CharacterCategory>
    var attributes: map<Entity, map<AttributeType, Attribute>>
    var log: seq<BattleLog.BattleLogEvent>
    var lifecycle: seq<LegacyLifecycle.BattleLifecycleEvent>

    function State(): World
      reads this
    {
      World(names, categories, attributes, log, lifecycle)
    }

    /** The caster lookup of `cast_ability`: the name of the first iterated character that is the caster. */
    method FindCasterName(caster: Entity) returns (name: Option<string>)
      ensures name.Some? <==> caster in order && caster in names && caster in attributes
      ensures name.Some? ==> name.value == names[caster]
    {
      name := None;
      var i := 0;
      while i < |order|
        invariant 0 <= i <= |order|
        invariant caster !in order[..i] || caster !in names || caster !in attributes
      {
        if order[i] == caster && caster in names && caster in attributes {
          name := Some(names[caster]);
          return;
        }
        assert order[..i + 1] == order[..i] + [order[i]];
        i := i + 1;
      }
      assert order[..i] == order;
    }

    /** `cast_ability`: the casts of the frame, one after another. */
    method CastAbility(casts: seq<AbilityCastEvent>)
      requires BoundsOk(State())
      requires forall i :: 0 <= i < |casts| ==> CanCast(State(), order, casts[i])
      modifies this
      ensures order == old(order)
      ensures State() == CastAll(old(State()), order, casts)
    {
      var i := 0;
      while i < |casts|
        invariant 0 <= i <= |casts|
        invariant order == old(order)
        invariant BoundsOk(State())
        invariant forall j :: i <= j < |casts| ==> CanCast(State(), order, casts[j])
        invariant CastAll(State(), order, casts[i..]) == CastAll(old(State()), order, casts)
      {
        assert casts[i..][1..] == casts[i + 1..];
        CastOne(casts[i]);
        i := i + 1;
      }
    }

    /**
     * One cast: the caster's name is looked up first (a missing caster panics
     * before any character changes), then every iterated character the cast
     * reaches is changed in place.
     */
    method CastOne(cast: AbilityCastEvent)
      requires BoundsOk(State()) && CanCast(State(), order, cast)
      modifies this
      ensures order == old(order)
      ensures State() == CastOver(old(State()), cast, old(names)[cast.caster], order)
    {
      var found := FindCasterName(cast.caster);
      var casterName := found.value;
      ghost var start := State();
      var i := 0;
      while i < |order|
        invariant 0 <= i <= |order|
        invariant order == old(order)
        invariant BoundsOk(State())
        invariant State() == CastOver(start, cast, casterName, order[..i])
      {
        CastOverStep(start, cast, casterName, order, i);
        AffectOne(cast, casterName, order[i]);
        i := i + 1;
      }
      assert order[..i] == order;
    }

    /** The body of the target loop, in place. */
    method AffectOne(cast: AbilityCastEvent, casterName: string, e: Entity)
      requires BoundsOk(State())
      modifies this
      ensures order == old(order)
      ensures State() == Affect(old(State()), cast, casterName, e)
    {
      if Hit(State(), cast, e) {
        var t := cast.ability.typ.attribute;
        var changed := Character.ChangeAttribute(attributes[e][t], cast.ability.potency);
        var targetName := names[e];
        attributes := attributes[e := attributes[e][t := changed]];
        if changed.Gauge? {
          log := log + [Abilities.HitLine(casterName, cast.ability.name, targetName, changed.value)];
          if t == HitPoints && changed.value <= 0 {
            lifecycle := lifecycle + [LegacyLifecycle.CharacterDied(e)];
          }
        }
      }
    }
  }

  // ---------------------------------------------------------------------------
  // Properties of one cast

  /** One more iteration of the target loop. */
  lemma CastOverStep(w: World, cast: AbilityCastEvent, casterName: string, order: seq<Entity>, i: nat)
    requires BoundsOk(w) && i < |order|
    ensures CastOver(w, cast, casterName, order[..i + 1]) == Affect(CastOver(w, cast, casterName, order[..i]), cast, casterName, order[i])
  {
    assert order[..i + 1][..i] == order[..i];
  }

  /** The cast reaches the same characters, on the same kind of attribute, whatever it changed before. */
  lemma HitStable(w: World, cast: AbilityCastEvent, casterName: string, order: seq<Entity>, e: Entity)
    requires BoundsOk(w)
    ensures Hit(CastOver(w, cast, casterName, order), cast, e) <==> Hit(w, cast, e)
  {
  }

  /** A character the cast does not list, or that the query does not visit, keeps all its attributes. */
  lemma {:induction false} Untouched(w: World, cast: AbilityCastEvent, casterName: string, order: seq<Entity>, e: Entity)
    requires BoundsOk(w) && e in w.attributes
    requires e !in cast.on || e !in order
    ensures CastOver(w, cast, casterName, order).attributes[e] == w.attributes[e]
    decreases |order|
  {
    if order != [] {
      var init := order[..|order| - 1];
      assert forall x :: x in init ==> x in order;
      Untouched(w, cast, casterName, init, e);
      var p := CastOver(w, cast, casterName, init);
      if order[|order| - 1] == e {
        assert !Hit(p, cast, e);
      }
    }
  }

  /**
   * A character the cast reaches, visited once, has its attribute changed by
   * the attribute-change rule: a value loses the potency, a gauge loses it and
   * is clamped into its bounds.
   */
  lemma {:induction false} TargetChanged(w: World, cast: AbilityCastEvent, casterName: string, order: seq<Entity>, e: Entity)
    requires BoundsOk(w) && Hit(w, cast, e)
    requires e in order && forall i, j :: 0 <= i < j < |order| ==> order[i] != order[j]
    ensures var t := cast.ability.typ.attribute;
      CastOver(w, cast, casterName, order).attributes[e][t] == Character.ChangeAttribute(w.attributes[e][t], cast.ability.potency)
    ensures forall u :: u in w.attributes[e] && u != cast.ability.typ.attribute ==>
      CastOver(w, cast, casterName, order).attributes[e][u] == w.attributes[e][u]
    decreases |order|
  {
    forall u | u in w.attributes[e] && u != cast.ability.typ.attribute
      ensures CastOver(w, cast, casterName, order).attributes[e][u] == w.attributes[e][u]
    {
      OtherAttributesKept(w, cast, casterName, order, e, u);
    }
    var last := |order| - 1;
    var init := order[..last];
    var p := CastOver(w, cast, casterName, init);
    if order[last] == e {
      assert e !in init;
      Untouched(w, cast, casterName, init, e);
    } else {
      assert e in init;
      TargetChanged(w, cast, casterName, init, e);
    }
  }

  /** The cast changes only the attribute of its type: every other attribute of every character stays. */
  lemma {:induction false} OtherAttributesKept(w: World, cast: AbilityCastEvent, casterName: string, order: seq<Entity>, e: Entity, u: AttributeType)
    requires BoundsOk(w) && e in w.attributes && u in w.attributes[e] && u != cast.ability.typ.attribute
    ensures CastOver(w, cast, casterName, order).attributes[e][u] == w.attributes[e][u]
    decreases |order|
  {
    if order != [] {
      OtherAttributesKept(w, cast, casterName, order[..|order| - 1], e, u);
    }
  }

  /** The characters the cast reaches on a gauge, in the order visited. */
  function GaugeTargets(w: World, cast: AbilityCastEvent, order: seq<Entity>): (r: seq<Entity>)
    ensures forall x :: x in r <==> x in order && GaugeHit(w, cast, x)
    ensures forall k :: 0 <= k < |r| ==> GaugeHit(w, cast, r[k])
    decreases |order|
  {
    if order == [] then []
    else
      var last := order[|order| - 1];
      var init := GaugeTargets(w, cast, order[..|order| - 1]);
      assert forall x :: x in order <==> x in order[..|order| - 1] || x == last;
      if GaugeHit(w, cast, last) then init + [last] else init
  }

  /**
   * One log line per gauge the cast reaches, each naming the caster first.
   * When every character is listed once, each line is exactly the `HitLine` of
   * its gauge: caster, ability, target and the target's new gauge value.
   */
  lemma {:induction false} OneLinePerGauge(w: World, cast: AbilityCastEvent, casterName: string, order: seq<Entity>)
    requires BoundsOk(w)
    ensures var r := CastOver(w, cast, casterName, order);
      && |r.log| == |w.log| + |GaugeTargets(w, cast, order)|
      && forall k :: |w.log| <= k < |r.log| ==> casterName <= r.log[k].message
    ensures (forall i, j :: 0 <= i < j < |order| ==> order[i] != order[j]) ==>
      var r := CastOver(w, cast, casterName, order);
      var g := GaugeTargets(w, cast, order);
      forall k :: 0 <= k < |g| ==>
        r.log[|w.log| + k] == Abilities.HitLine(casterName, cast.ability.name, w.names[g[k]],
          Character.ChangeAttribute(w.attributes[g[k]][cast.ability.typ.attribute], cast.ability.potency).value)
    decreases |order|
  {
    if forall i, j :: 0 <= i < j < |order| ==> order[i] != order[j] {
      GaugeLines(w, cast, casterName, order);
    }
    if order != [] {
      var init := order[..|order| - 1];
      OneLinePerGauge(w, cast, casterName, init);
      var p := CastOver(w, cast, casterName, init);
      var x := order[|order| - 1];
      HitStable(w, cast, casterName, init, x);
      if Hit(w, cast, x) {
        KindStable(w, cast, casterName, init, x);
      }
    }
  }

  /**
   * With every character visited once, the new log lines are exactly the
   * `HitLine`s of the gauges reached, in visiting order: each names the
   * caster, the ability, the target and the target's new gauge value.
   */
  lemma {:induction false} GaugeLines(w: World, cast: AbilityCastEvent, casterName: string, order: seq<Entity>)
    requires BoundsOk(w)
    requires forall i, j :: 0 <= i < j < |order| ==> order[i] != order[j]
    ensures var r := CastOver(w, cast, casterName, order);
      var g := GaugeTargets(w, cast, order);
      var t := cast.ability.typ.attribute;
      && |r.log| == |w.log| + |g|
      && forall k :: 0 <= k < |g| ==>
        r.log[|w.log| + k] == Abilities.HitLine(casterName, cast.ability.name, w.names[g[k]],
          Character.ChangeAttribute(w.attributes[g[k]][t], cast.ability.potency).value)
    decreases |order|
  {
    if order != [] {
      var init := order[..|order| - 1];
      var x := order[|order| - 1];
      assert x !in init by {
        forall i | 0 <= i < |init| ensures init[i] != x {
          assert init[i] == order[i];
        }
      }
      GaugeLines(w, cast, casterName, init);
      LastLine(w, cast, casterName, order);
      assert order[..|order| - 1] == init;
    }
  }

  /** The last iteration of the target loop logs the line of its character, if that character is reached on a gauge. */
  lemma LastLine(w: World, cast: AbilityCastEvent, casterName: string, order: seq<Entity>)
    requires BoundsOk(w) && order != [] && order[|order| - 1] !in order[..|order| - 1]
    ensures var x := order[|order| - 1];
      var t := cast.ability.typ.attribute;
      CastOver(w, cast, casterName, order).log == CastOver(w, cast, casterName, order[..|order| - 1]).log +
        if GaugeHit(w, cast, x) then
          [Abilities.HitLine(casterName, cast.ability.name, w.names[x], Character.ChangeAttribute(w.attributes[x][t], cast.ability.potency).value)]
        else []
  {
    var init := order[..|order| - 1];
    var x := order[|order| - 1];
    HitStable(w, cast, casterName, init, x);
    if Hit(w, cast, x) {
      KindStable(w, cast, casterName, init, x);
      Untouched(w, cast, casterName, init, x);
    }
  }

  /** A gauge stays a gauge and a value a value, whatever the cast changed. */
  lemma {:induction false} KindStable(w: World, cast: AbilityCastEvent, casterName: string, order: seq<Entity>, e: Entity)
    requires BoundsOk(w) && Hit(w, cast, e)
    ensures var t := cast.ability.typ.attribute;
      CastOver(w, cast, casterName, order).attributes[e][t].Gauge? <==> w.attributes[e][t].Gauge?
    decreases |order|
  {
    if order != [] {
      var init := order[..|order| - 1];
      KindStable(w, cast, casterName, init, e);
    }
  }

  /**
   * A death is reported for exactly the characters visited once whose
   * hit-point gauge the cast drops to zero or below, and for no one else.
   */
  lemma {:induction false} DeathIff(w: World, cast: AbilityCastEvent, casterName: string, order: seq<Entity>, e: Entity)
    requires BoundsOk(w)
    requires forall i, j :: 0 <= i < j < |order| ==> order[i] != order[j]
    ensures var r := CastOver(w, cast, casterName, order);
      LegacyLifecycle.CharacterDied(e) in r.lifecycle[|w.lifecycle|..] <==> e in order && Kills(w, cast, e)
    decreases |order|
  {
    var r := CastOver(w, cast, casterName, order);
    if order != [] {
      var last := |order| - 1;
      var init := order[..last];
      var x := order[last];
      var p := CastOver(w, cast, casterName, init);
      DeathIff(w, cast, casterName, init, e);
      assert order == init + [x];
      assert x !in init by {
        forall i | 0 <= i < |init| ensures init[i] != x {
          assert init[i] == order[i];
        }
      }
      LastDeath(w, cast, casterName, order);
      var added := if Kills(w, cast, x) then [LegacyLifecycle.CharacterDied(x)] else [];
      InSuffix(r.lifecycle, p.lifecycle, added, |w.lifecycle|, LegacyLifecycle.CharacterDied(e));
    }
  }

  /** An element lies in the tail of `p + added` past `base` iff it lies in the tail of `p` or in `added`. */
  lemma InSuffix<T>(l: seq<T>, p: seq<T>, added: seq<T>, base: nat, d: T)
    requires l == p + added && base <= |p|
    ensures d in l[base..] <==> d in p[base..] || d in added
  {
    assert l[base..] == p[base..] + added;
  }

  /** The last iteration of the target loop reports the death of its character, if the cast kills that character. */
  lemma LastDeath(w: World, cast: AbilityCastEvent, casterName: string, order: seq<Entity>)
    requires BoundsOk(w) && order != [] && order[|order| - 1] !in order[..|order| - 1]
    ensures var x := order[|order| - 1];
      CastOver(w, cast, casterName, order).lifecycle == CastOver(w, cast, casterName, order[..|order| - 1]).lifecycle +
        if Kills(w, cast, x) then [LegacyLifecycle.CharacterDied(x)] else []
  {
    var init := order[..|order| - 1];
    var x := order[|order| - 1];
    HitStable(w, cast, casterName, init, x);
    if Hit(w, cast, x) {
      KindStable(w, cast, casterName, init, x);
      Untouched(w, cast, casterName, init, x);
    }
  }
}
