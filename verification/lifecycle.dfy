/**
 * The battle's lifecycle state machine: deaths are recorded, and at the end of
 * every turn the battle either ends with a winner or passes the turn to the
 * next combatant of the queue.
 */
module Lifecycle {
  import opened Character
  import opened Wrappers
  import Battle
  import BattleLog

  datatype BattleLifecycleEvent = CharacterDied(entity: Entity) | EndTurn

  datatype LifeState = Alive | Dead

  datatype Visibility = Inherited | Hidden | Visible

  /**
   * What `handle_lifecycle_event` reads and writes: the life state, group,
   * visibility and name components, the turn queue resource (absent before the
   * battle is set up), the log events sent, the `BattleResolution` resource and
   * the pending next battle state.
   */
  datatype World = World(
    life: map<Entity, LifeState>,
    groups: map<Entity, Group>,
    visibility: map<Entity, Visibility>,
    names: map<Entity, string>,
    queue: Option<seq<Entity>>,
    log: seq<BattleLog.BattleLogEvent>,
    winner: Option<Group>,
    next: Option<Battle.BattleState>)

  /** Some combatant of group `g` is still alive. */
  ghost predicate AnyAlive(w: World, g: Group)
  {
    exists e :: e in w.life && e in w.groups && w.groups[e] == g && w.life[e] == Alive
  }

  /** The number of combatants of group `g` whose life state is `Alive`. */
  function AliveCount(w: World, g: Group): (n: nat)
    ensures n == 0 <==> !AnyAlive(w, g)
  {
    var alive := set e | e in w.life && e in w.groups && w.groups[e] == g && w.life[e] == Alive;
    assert forall e :: e in w.life && e in w.groups && w.groups[e] == g && w.life[e] == Alive ==> e in alive;
    |alive|
  }

  /** The message logged when an enemy is defeated: its name, then ` defeated!`. */
  function DefeatMessage(name: string): (ev: BattleLog.BattleLogEvent)
    ensures name <= ev.message && ev.message[|name|..] == " defeated!"
  {
    BattleLog.BattleLogEvent(name + " defeated!")
  }

  /**
   * The queue after the turn passes: the same combatants, the active one moved
   * to the back and the next one, if any, at the head.
   */
  function PassTurn(w: World): (q: seq<Entity>)
    requires w.queue.Some? && |w.queue.value| > 0
    ensures |q| == |w.queue.value| && multiset(q) == multiset(w.queue.value)
    ensures q[|q| - 1] == w.queue.value[0]
    ensures |q| > 1 ==> q[0] == w.queue.value[1]
  {
    Battle.RotatePermutes(w.queue.value);
    Battle.RotateLeft(w.queue.value)
  }

  /**
   * The event does not make the system panic: a dying entity has a life state
   * and a group; a turn that does not end the battle needs the queue, and its
   * new head must have a life state and a group. A turn that ends the battle
   * never needs the queue.
   */
  predicate CanHandle(w: World, ev: BattleLifecycleEvent)
    ensures ev.EndTurn? && (!AnyAlive(w, Enemy) || !AnyAlive(w, Player)) ==> CanHandle(w, ev)
    ensures ev.EndTurn? && CanHandle(w, ev) && AnyAlive(w, Enemy) && AnyAlive(w, Player) ==> w.queue.Some?
  {
    match ev
    case CharacterDied(e) => e in w.life && e in w.groups
    case EndTurn =>
      AliveCount(w, Enemy) == 0 || AliveCount(w, Player) == 0 ||
      (w.queue.Some? && |w.queue.value| > 0 &&
       PassTurn(w)[0] in w.life && PassTurn(w)[0] in w.groups)
  }

  /**
   * One event of `handle_lifecycle_event`: groups and names stay, at most one
   * line is logged, a death marks its entity `Dead` and the end of a turn always
   * sets the next battle state.
   */
  function Handle(w: World, ev: BattleLifecycleEvent): (r: World)
    requires CanHandle(w, ev)
    ensures r.groups == w.groups && r.names == w.names
    ensures w.log <= r.log && |r.log| <= |w.log| + 1
    ensures ev.CharacterDied? ==> ev.entity in r.life && r.life[ev.entity] == Dead
    ensures ev.EndTurn? ==> r.next.Some? && r.life == w.life && r.log == w.log
  {
    match ev
    case CharacterDied(e) =>
      var died := w.(life := w.life[e := Dead]);
      if w.groups[e] == Enemy && e in w.visibility && e in w.names then
        died.(visibility := w.visibility[e := Hidden], log := w.log + [DefeatMessage(w.names[e])])
      else
        died
    case EndTurn =>
      if AliveCount(w, Enemy) == 0 then
        w.(winner := Some(Player), next := Some(Battle.BattleEnd))
      else if AliveCount(w, Player) == 0 then
        w.(winner := Some(Enemy), next := Some(Battle.BattleEnd))
      else
        var q := PassTurn(w);
        var state := if w.groups[q[0]] == Player then Battle.AbilityChoosingPlayer else Battle.AbilityCastingEnemy;
        w.(queue := Some(q), next := Some(state))
  }

  /** Every event in turn can be handled without a panic. */
  predicate CanHandleAll(w: World, events: seq<BattleLifecycleEvent>)
    decreases |events|
  {
    events == [] || (CanHandle(w, events[0]) && CanHandleAll(Handle(w, events[0]), events[1..]))
  }

  /**
   * The events handled one after another, in the order they were sent: groups
   * and names stay, and at most one line per event is added to the log.
   */
  function HandleAll(w: World, events: seq<BattleLifecycleEvent>): (r: World)
    requires CanHandleAll(w, events)
    ensures r.groups == w.groups && r.names == w.names
    ensures w.log <= r.log && |r.log| <= |w.log| + |events|
    decreases |events|
  {
    if events == [] then w else HandleAll(Handle(w, events[0]), events[1..])
  }

  /** The world of the lifecycle system, whose components and resources it updates in place. */
  class LifecycleWorld {
    var life: map<Entity, LifeState>
    var groups: map<Entity, Group>
    var visibility: map<Entity, Visibility>
    var names: map<Entity, string>
    var queue: Option<seq<Entity>>
    var log: seq<BattleLog.BattleLogEvent>
    var winner: Option<Group>
    var next: Option<Battle.BattleState>

    function State(): World
      reads this
    {
      World(life, groups, visibility, names, queue, log, winner, next)
    }

    /** `handle_lifecycle_event`: the events read this frame, handled in order. */
    method HandleLifecycleEvent(events: seq<BattleLifecycleEvent>)
      requires CanHandleAll(State(), events)
      modifies this
      ensures State() == HandleAll(old(State()), events)
    {
      var i := 0;
      while i < |events|
        invariant 0 <= i <= |events|
        invariant CanHandleAll(State(), events[i..])
        invariant HandleAll(State(), events[i..]) == HandleAll(old(State()), events)
      {
        assert events[i..][1..] == events[i + 1..];
        HandleOne(events[i]);
        i := i + 1;
      }
    }

    /** The body of the event loop: one event, in place. */
    method HandleOne(ev: BattleLifecycleEvent)
      requires CanHandle(State(), ev)
      modifies this
      ensures State() == Handle(old(State()), ev)
    {
      match ev {
        case CharacterDied(e) =>
          life := life[e := Dead];
          if groups[e] == Enemy && e in visibility && e in names {
            visibility := visibility[e := Hidden];
            log := log + [DefeatMessage(names[e])];
          }
        case EndTurn =>
          if AliveCount(State(), Enemy) == 0 {
            winner := Some(Player);
            next := Some(Battle.BattleEnd);
          } else if AliveCount(State(), Player) == 0 {
            winner := Some(Enemy);
            next := Some(Battle.BattleEnd);
          } else {
            queue := Some(Battle.RotateLeft(queue.value));
            var active := Battle.GetCurrent(queue.value);
            if groups[active] == Player {
              next := Some(Battle.AbilityChoosingPlayer);
            } else {
              next := Some(Battle.AbilityCastingEnemy);
            }
          }
      }
    }
  }

  // ---------------------------------------------------------------------------
  // Properties of one event

  /** A death marks the entity `Dead`, touches no other life state and never ends the battle by itself. */
  lemma DiedMarksDead(w: World, e: Entity)
    requires CanHandle(w, CharacterDied(e))
    ensures Handle(w, CharacterDied(e)).life[e] == Dead
    ensures forall x :: x != e ==> (x in Handle(w, CharacterDied(e)).life <==> x in w.life)
    ensures forall x :: x in w.life && x != e ==> Handle(w, CharacterDied(e)).life[x] == w.life[x]
    ensures Handle(w, CharacterDied(e)).(life := w.life, visibility := w.visibility, log := w.log) == w
  {
  }

  /**
   * A dead enemy that has a visibility and a name is hidden and announced with
   * exactly one message; any other death logs nothing and hides nothing.
   */
  lemma DiedLogsOnlyEnemies(w: World, e: Entity)
    requires CanHandle(w, CharacterDied(e))
    ensures var r := Handle(w, CharacterDied(e));
      if w.groups[e] == Enemy && e in w.visibility && e in w.names then
        r.log == w.log + [DefeatMessage(w.names[e])] && r.visibility == w.visibility[e := Hidden]
      else
        r.log == w.log && r.visibility == w.visibility
    ensures |Handle(w, CharacterDied(e)).log| == |w.log| + 1 <==> w.groups[e] == Enemy && e in w.visibility && e in w.names
  {
  }

  /** With no enemy alive the player wins at the end of the turn; the queue is not rotated. */
  lemma PlayerWinsFirst(w: World)
    requires !AnyAlive(w, Enemy)
    ensures CanHandle(w, EndTurn)
    ensures Handle(w, EndTurn) == w.(winner := Some(Player), next := Some(Battle.BattleEnd))
  {
  }

  /** With enemies alive but no player alive, the enemy wins; the queue is not rotated. */
  lemma EnemyWins(w: World)
    requires AnyAlive(w, Enemy) && !AnyAlive(w, Player)
    ensures CanHandle(w, EndTurn)
    ensures Handle(w, EndTurn) == w.(winner := Some(Enemy), next := Some(Battle.BattleEnd))
  {
  }

  /**
   * While both sides have someone alive, the turn passes: the queue keeps its
   * combatants, its new head is the old second (or the only one), and the next
   * state is the player's choice or the enemy's cast after the new head's group.
   */
  lemma TurnPasses(w: World)
    requires AnyAlive(w, Enemy) && AnyAlive(w, Player) && CanHandle(w, EndTurn)
    ensures w.queue.Some? && |w.queue.value| > 0
    ensures var r := Handle(w, EndTurn);
      && r.queue.Some?
      && |r.queue.value| == |w.queue.value|
      && multiset(r.queue.value) == multiset(w.queue.value)
      && r.queue.value[0] == (if |w.queue.value| > 1 then w.queue.value[1] else w.queue.value[0])
      && r.next == Some(if w.groups[r.queue.value[0]] == Player then Battle.AbilityChoosingPlayer else Battle.AbilityCastingEnemy)
      && r.(queue := w.queue, next := w.next) == w
  {
    Battle.RotatePermutes(w.queue.value);
  }

  /**
   * Passing the turn does not skip the dead: in a queue whose second combatant
   * has died, that combatant becomes the active one.
   */
  lemma DeadCombatantGetsTurn()
    ensures var w := World(map[1 := Alive, 2 := Dead, 3 := Alive], map[1 := Player, 2 := Enemy, 3 := Enemy],
                           map[], map[], Some([1, 2, 3]), [], None, None);
      && CanHandle(w, EndTurn)
      && Handle(w, EndTurn).queue == Some([2, 3, 1])
      && Handle(w, EndTurn).life[2] == Dead
      && Handle(w, EndTurn).next == Some(Battle.AbilityCastingEnemy)
  {
    var w := World(map[1 := Alive, 2 := Dead, 3 := Alive], map[1 := Player, 2 := Enemy, 3 := Enemy],
                   map[], map[], Some([1, 2, 3]), [], None, None);
    assert AnyAlive(w, Enemy) by { assert w.groups[3] == Enemy && w.life[3] == Alive; }
    assert AnyAlive(w, Player) by { assert w.groups[1] == Player && w.life[1] == Alive; }
    assert PassTurn(w) == [2, 3, 1];
  }

  // ---------------------------------------------------------------------------
  // Properties of a frame's events

  /** Handling a frame's events in two batches is the same as handling them at once. */
  lemma {:induction false} HandleAllAppend(w: World, a: seq<BattleLifecycleEvent>, b: seq<BattleLifecycleEvent>)
    requires CanHandleAll(w, a + b)
    ensures CanHandleAll(w, a) && CanHandleAll(HandleAll(w, a), b)
    ensures HandleAll(w, a + b) == HandleAll(HandleAll(w, a), b)
    decreases |a|
  {
    if a != [] {
      assert (a + b)[0] == a[0];
      assert (a + b)[1..] == a[1..] + b;
      HandleAllAppend(Handle(w, a[0]), a[1..], b);
    } else {
      assert a + b == b;
    }
  }
}
