/**
 * Ability resolution: each cast read this frame changes one attribute of the
 * character standing on the target tile, or moves the caster onto the target
 * tile, and then ends the turn.
 */
module Abilities {
  import opened Character
  import opened Wrappers
  import BattleLog
  import Lifecycle
  import Text

  datatype AbilityTargetType = Empty | Ally | Enemy

  datatype AbilityType = ChangeAttribute(typ: AttributeType, potency: int) | Movement

  /** An ability; `target` is the set of tile kinds it may be aimed at. */
  datatype Ability = Ability(
    name: string,
    typ: AbilityType,
    target: set<AbilityTargetType>,
    range: int,
    sideEffect: Option<Ability>)

  /** A cast of `ability` by the character `caster` (`by` in the source) at the tile `on`. */
  datatype AbilityCastEvent = AbilityCastEvent(ability: Ability, caster: Entity, on: Entity)

  /**
   * What `resolve_ability` reads and writes: character names and attribute
   * maps, the tile entities and the children of each entity that has any, and
   * the log and lifecycle events sent.
   */
  datatype World = World(
    names: map<Entity, string>,
    attributes: map<Entity, map<AttributeType, Attribute>>,
    tiles: set<Entity>,
    children: map<Entity, seq<Entity>>,
    log: seq<BattleLog.BattleLogEvent>,
    lifecycle: seq<Lifecycle.BattleLifecycleEvent>)

  // ---------------------------------------------------------------------------
  // Reparenting

  /** `xs` with every occurrence of `e` removed, the rest in order. */
  function Without(xs: seq<Entity>, e: Entity): (r: seq<Entity>)
    ensures forall x :: x in r <==> x in xs && x != e
    ensures |r| <= |xs|
  {
    if xs == [] then []
    else if xs[0] == e then Without(xs[1..], e)
    else [xs[0]] + Without(xs[1..], e)
  }

  /**
   * `push_children(&[child])` on `parent`: the child leaves whatever list it was
   * in and is appended to the parent's children.
   */
  function PushChild(children: map<Entity, seq<Entity>>, parent: Entity, child: Entity): (r: map<Entity, seq<Entity>>)
    ensures r.Keys == children.Keys + {parent}
    ensures |r[parent]| > 0 && r[parent][|r[parent]| - 1] == child
    ensures forall p :: p in r ==> (child in r[p] <==> p == parent)
  {
    var detached := map p | p in children :: Without(children[p], child);
    detached[parent := (if parent in detached then detached[parent] else []) + [child]]
  }

  /** A push changes no parent–child link other than the child's own. */
  lemma PushChildMoves(children: map<Entity, seq<Entity>>, parent: Entity, child: Entity)
    ensures var r := PushChild(children, parent, child);
      forall p, x :: p in r && x != child ==> (x in r[p] <==> p in children && x in children[p])
  {
  }

  // ---------------------------------------------------------------------------
  // One cast

  /** The log line of a gauge change. */
  function HitLine(caster: string, ability: string, target: string, value: int): (ev: BattleLog.BattleLogEvent)
    ensures caster <= ev.message
    ensures var v := Text.IntToString(value);
      |v| <= |ev.message| && ev.message[|ev.message| - |v|..] == v
  {
    var v := Text.IntToString(value);
    var m := caster + " used " + ability + " on " + target + ". Hp removed to: " + v;
    assert m == caster + (" used " + ability + " on " + target + ". Hp removed to: " + v);
    assert m == (caster + " used " + ability + " on " + target + ". Hp removed to: ") + v;
    BattleLog.BattleLogEvent(m)
  }

  /** The character a `ChangeAttribute` cast hits: the first child of the target tile. */
  function Victim(w: World, cast: AbilityCastEvent): (v: Entity)
    requires cast.on in w.children && |w.children[cast.on]| > 0
    ensures v in w.children[cast.on]
  {
    w.children[cast.on][0]
  }

  /**
   * The cast does not make the system panic: the caster has a name and
   * attributes, the target is a tile, and a `ChangeAttribute` cast finds a
   * character with a name and attributes on it, whose gauge (if it has the
   * attribute) has ordered bounds. A character cannot be pushed under itself.
   */
  predicate CanResolve(w: World, cast: AbilityCastEvent)
  {
    && cast.caster in w.names && cast.caster in w.attributes
    && cast.on in w.tiles
    && match cast.ability.typ
       case ChangeAttribute(t, _) =>
         && cast.on in w.children && |w.children[cast.on]| > 0
         && Victim(w, cast) in w.names && Victim(w, cast) in w.attributes
         && (t in w.attributes[Victim(w, cast)] ==> BoundsOrdered(w.attributes[Victim(w, cast)][t]))
       case Movement => cast.caster != cast.on
  }

  /**
   * The effect of one cast, before its turn ends: names, tiles and the set of
   * characters with attributes stay; nothing already sent is dropped, and at
   * most one log line and one lifecycle event are added.
   */
  function Effect(w: World, cast: AbilityCastEvent): (r: World)
    requires CanResolve(w, cast)
    ensures r.names == w.names && r.tiles == w.tiles && r.attributes.Keys == w.attributes.Keys
    ensures w.log <= r.log && |r.log| <= |w.log| + 1
    ensures w.lifecycle <= r.lifecycle && |r.lifecycle| <= |w.lifecycle| + 1
  {
    match cast.ability.typ
    case ChangeAttribute(t, potency) =>
      var victim := Victim(w, cast);
      var attrs := w.attributes[victim];
      if t !in attrs then w
      else
        var a := Character.ChangeAttribute(attrs[t], potency);
        var changed := w.(attributes := w.attributes[victim := attrs[t := a]]);
        if a.Value? then changed
        else
          var died := if t == HitPoints && a.value <= 0 then [Lifecycle.CharacterDied(victim)] else [];
          changed.(log := w.log + [HitLine(w.names[cast.caster], cast.ability.name, w.names[victim], a.value)],
                   lifecycle := w.lifecycle + died)
    case Movement =>
      w.(children := PushChild(w.children, cast.on, cast.caster))
  }

  /** One iteration of `resolve_ability`: the effect, then the end of the turn, sent last. */
  function Resolve(w: World, cast: AbilityCastEvent): (r: World)
    requires CanResolve(w, cast)
    ensures r.names == w.names && r.tiles == w.tiles && w.log <= r.log
    ensures w.lifecycle < r.lifecycle && r.lifecycle[|r.lifecycle| - 1] == Lifecycle.EndTurn
  {
    var e := Effect(w, cast);
    e.(lifecycle := e.lifecycle + [Lifecycle.EndTurn])
  }

  predicate CanResolveAll(w: World, casts: seq<AbilityCastEvent>)
    decreases |casts|
  {
    casts == [] || (CanResolve(w, casts[0]) && CanResolveAll(Resolve(w, casts[0]), casts[1..]))
  }

  /**
   * The casts resolved one after another, in the order they were sent: names
   * and tiles stay, nothing already sent is dropped, and each cast ends at
   * least one turn.
   */
  function ResolveAll(w: World, casts: seq<AbilityCastEvent>): (r: World)
    requires CanResolveAll(w, casts)
    ensures r.names == w.names && r.tiles == w.tiles && w.log <= r.log
    ensures w.lifecycle <= r.lifecycle && |r.lifecycle| >= |w.lifecycle| + |casts|
    decreases |casts|
  {
    if casts == [] then w else ResolveAll(Resolve(w, casts[0]), casts[1..])
  }

  /** The world of the resolution system: components and event queues updated in place. */
  class AbilityWorld {
    var names: map<Entity, string>
    var attributes: map<Entity, map<AttributeType, Attribute>>
    var tiles: set<Entity>
    var children: map<Entity, seq<Entity>>
    var log: seq<BattleLog.BattleLogEvent>
    var lifecycle: seq<Lifecycle.BattleLifecycleEvent>

    function State(): World
      reads this
    {
      World(names, attributes, tiles, children, log, lifecycle)
    }

    /** `resolve_ability`: the casts read this frame, resolved in order. */
    method ResolveAbility(casts: seq<AbilityCastEvent>)
      requires CanResolveAll(State(), casts)
      modifies this
      ensures State() == ResolveAll(old(State()), casts)
    {
      var i := 0;
      while i < |casts|
        invariant 0 <= i <= |casts|
        invariant CanResolveAll(State(), casts[i..])
        invariant ResolveAll(State(), casts[i..]) == ResolveAll(old(State()), casts)
      {
        assert casts[i..][1..] == casts[i + 1..];
        ResolveOne(casts[i]);
        i := i + 1;
      }
    }

    /** The body of the cast loop. */
    method ResolveOne(cast: AbilityCastEvent)
      requires CanResolve(State(), cast)
      modifies this
      ensures State() == Resolve(old(State()), cast)
    {
      var casterName := names[cast.caster];
      match cast.ability.typ {
        case ChangeAttribute(t, potency) =>
          var victim := children[cast.on][0];
          if t in attributes[victim] {
            var a := Character.ChangeAttribute(attributes[victim][t], potency);
            attributes := attributes[victim := attributes[victim][t := a]];
            if a.Gauge? {
              log := log + [HitLine(casterName, cast.ability.name, names[victim], a.value)];
              if t == HitPoints && a.value <= 0 {
                lifecycle := lifecycle + [Lifecycle.CharacterDied(victim)];
              }
            }
          }
        case Movement =>
          children := PushChild(children, cast.on, cast.caster);
      }
      lifecycle := lifecycle + [Lifecycle.EndTurn];
    }
  }

  // ---------------------------------------------------------------------------
  // Properties of one cast

  /** A `Value` attribute loses exactly the potency, unbounded; nothing is logged and nobody dies. */
  lemma ValueLosesPotency(w: World, cast: AbilityCastEvent, t: AttributeType, potency: int)
    requires CanResolve(w, cast) && cast.ability.typ == ChangeAttribute(t, potency)
    requires t in w.attributes[Victim(w, cast)] && w.attributes[Victim(w, cast)][t].Value?
    ensures var r := Resolve(w, cast);
      && r.attributes[Victim(w, cast)][t] == Value(w.attributes[Victim(w, cast)][t].v - potency)
      && r.log == w.log
      && r.lifecycle == w.lifecycle + [Lifecycle.EndTurn]
  {
  }

  /**
   * A gauge becomes `clamp(value - potency, min, max)` and stays within its
   * bounds; one line naming caster, ability, target and the new value is
   * logged; the target dies exactly when the gauge is its hit points and the
   * new value is at most zero (not at most `min`); the turn ends last.
   */
  lemma GaugeIsClamped(w: World, cast: AbilityCastEvent, t: AttributeType, potency: int)
    requires CanResolve(w, cast) && cast.ability.typ == ChangeAttribute(t, potency)
    requires t in w.attributes[Victim(w, cast)] && w.attributes[Victim(w, cast)][t].Gauge?
    ensures var g := w.attributes[Victim(w, cast)][t];
      var r := Resolve(w, cast);
      var died := t == HitPoints && Clamp(g.value - potency, g.min, g.max) <= 0;
      && r.attributes[Victim(w, cast)][t] == Gauge(Clamp(g.value - potency, g.min, g.max), g.min, g.max)
      && g.min <= r.attributes[Victim(w, cast)][t].value <= g.max
      && r.log == w.log + [HitLine(w.names[cast.caster], cast.ability.name, w.names[Victim(w, cast)],
                                   Clamp(g.value - potency, g.min, g.max))]
      && r.lifecycle == w.lifecycle + (if died then [Lifecycle.CharacterDied(Victim(w, cast))] else []) + [Lifecycle.EndTurn]
  {
  }

  /** A target without the attribute is left alone: only the turn ends. */
  lemma MissingAttributeNoChange(w: World, cast: AbilityCastEvent, t: AttributeType, potency: int)
    requires CanResolve(w, cast) && cast.ability.typ == ChangeAttribute(t, potency)
    requires t !in w.attributes[Victim(w, cast)]
    ensures Resolve(w, cast) == w.(lifecycle := w.lifecycle + [Lifecycle.EndTurn])
  {
  }

  /** An attack on a tile nobody stands on makes the system panic. */
  lemma EmptyTileCannotBeHit(w: World, cast: AbilityCastEvent)
    requires cast.ability.typ.ChangeAttribute?
    requires cast.on !in w.children || w.children[cast.on] == []
    ensures !CanResolve(w, cast)
  {
  }

  /**
   * An attack changes one attribute of one character: every other character's
   * attributes, every other attribute of the target, the names, tiles and
   * children stay as they were.
   */
  lemma OnlyTargetChanges(w: World, cast: AbilityCastEvent, t: AttributeType, potency: int)
    requires CanResolve(w, cast) && cast.ability.typ == ChangeAttribute(t, potency)
    ensures var r := Resolve(w, cast);
      && r.names == w.names && r.tiles == w.tiles && r.children == w.children
      && r.attributes.Keys == w.attributes.Keys
      && (forall e :: e in w.attributes && e != Victim(w, cast) ==> r.attributes[e] == w.attributes[e])
      && r.attributes[Victim(w, cast)].Keys == w.attributes[Victim(w, cast)].Keys
      && (forall u :: u in w.attributes[Victim(w, cast)] && u != t ==>
            r.attributes[Victim(w, cast)][u] == w.attributes[Victim(w, cast)][u])
  {
  }

  /** A move puts the caster under the target tile and changes no attribute. */
  lemma MovementReparents(w: World, cast: AbilityCastEvent)
    requires CanResolve(w, cast) && cast.ability.typ == Movement
    ensures var r := Resolve(w, cast);
      && r.children == PushChild(w.children, cast.on, cast.caster)
      && r.attributes == w.attributes && r.log == w.log
      && r.lifecycle == w.lifecycle + [Lifecycle.EndTurn]
  {
  }

  /**
   * Every cast ends exactly one turn, as its last lifecycle event, after at
   * most one death; nothing sent before is dropped.
   */
  lemma EndTurnLast(w: World, cast: AbilityCastEvent)
    requires CanResolve(w, cast)
    ensures var r := Resolve(w, cast);
      && w.lifecycle <= r.lifecycle
      && r.lifecycle[|r.lifecycle| - 1] == Lifecycle.EndTurn
      && (|r.lifecycle| == |w.lifecycle| + 1 || |r.lifecycle| == |w.lifecycle| + 2)
      && (|r.lifecycle| == |w.lifecycle| + 2 ==> r.lifecycle[|w.lifecycle|].CharacterDied?)
      && w.log <= r.log && |r.log| <= |w.log| + 1
  {
  }

  /** Every gauge with ordered bounds keeps them ordered. */
  ghost predicate AllBoundsOrdered(attributes: map<Entity, map<AttributeType, Attribute>>)
  {
    forall e, t :: e in attributes && t in attributes[e] ==> BoundsOrdered(attributes[e][t])
  }

  /** One cast keeps every gauge's bounds ordered. */
  lemma ResolveKeepsBounds(w: World, cast: AbilityCastEvent)
    requires CanResolve(w, cast) && AllBoundsOrdered(w.attributes)
    ensures AllBoundsOrdered(Resolve(w, cast).attributes)
  {
    match cast.ability.typ {
      case Movement =>
        MovementReparents(w, cast);
      case ChangeAttribute(t, potency) =>
        OnlyTargetChanges(w, cast, t, potency);
        var r := Resolve(w, cast);
        var v := Victim(w, cast);
        forall e, u | e in r.attributes && u in r.attributes[e]
          ensures BoundsOrdered(r.attributes[e][u])
        {
          if e == v && u == t {
            if w.attributes[v][t].Gauge? {
              GaugeIsClamped(w, cast, t, potency);
            } else {
              ValueLosesPotency(w, cast, t, potency);
            }
          }
        }
    }
  }

  lemma {:induction false} ResolveAllKeepsBounds(w: World, casts: seq<AbilityCastEvent>)
    requires CanResolveAll(w, casts) && AllBoundsOrdered(w.attributes)
    ensures AllBoundsOrdered(ResolveAll(w, casts).attributes)
    decreases |casts|
  {
    if casts != [] {
      ResolveKeepsBounds(w, casts[0]);
      ResolveAllKeepsBounds(Resolve(w, casts[0]), casts[1..]);
    }
  }
}
