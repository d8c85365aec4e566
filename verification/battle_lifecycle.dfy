/**
 * The older lifecycle handler: every death ends the battle, and the winner is
 * decided from the combatants still marked `Alive`. Its effects go through
 * deferred commands, so every death of a frame is judged against the `Alive`
 * markers as they stood when the frame began.
 */
module LegacyLifecycle {
  import opened Character
  import opened Wrappers
  import Battle

  datatype BattleLifecycleEvent = CharacterDied(entity: Entity)

  /** The combatants of group `g`, other than `e`, that carry the `Alive` marker and a group. */
  function OthersAlive(alive: set<Entity>, groups: map<Entity, Group>, g: Group, e: Entity): (s: set<Entity>)
    ensures forall x :: x in s <==> x in alive && x in groups && groups[x] == g && x != e
  {
    set x | x in alive && x in groups && groups[x] == g && x != e
  }

  /**
   * The winner recorded for the death of `e`: the player when no other enemy is
   * alive (checked first), else the enemy when no other player is alive, else
   * none.
   */
  function Outcome(alive: set<Entity>, groups: map<Entity, Group>, e: Entity): (r: Option<Group>)
    ensures r == Some(Player) <==> |OthersAlive(alive, groups, Enemy, e)| == 0
    ensures r == Some(Enemy) <==> |OthersAlive(alive, groups, Enemy, e)| != 0 && |OthersAlive(alive, groups, Player, e)| == 0
    ensures r.None? <==> |OthersAlive(alive, groups, Enemy, e)| != 0 && |OthersAlive(alive, groups, Player, e)| != 0
  {
    if |OthersAlive(alive, groups, Enemy, e)| == 0 then Some(Player)
    else if |OthersAlive(alive, groups, Player, e)| == 0 then Some(Enemy)
    else None
  }

  /**
   * The `BattleResolution` resource after the deaths of a frame: each death
   * that decides a winner overwrites it, so the last deciding death counts.
   */
  function RecordedWinner(alive: set<Entity>, groups: map<Entity, Group>, events: seq<BattleLifecycleEvent>, before: Option<Group>): (r: Option<Group>)
    ensures r == before || exists i :: 0 <= i < |events| && r == Outcome(alive, groups, events[i].entity) && r.Some?
    decreases |events|
  {
    if events == [] then before
    else
      var last := events[|events| - 1];
      var prev := RecordedWinner(alive, groups, events[..|events| - 1], before);
      assert prev == before || exists i :: 0 <= i < |events| - 1 && prev == Outcome(alive, groups, events[i].entity) && prev.Some?;
      match Outcome(alive, groups, last.entity)
      case Some(g) => Some(g)
      case None => prev
  }

  /** The entities the events name. */
  function Dying(events: seq<BattleLifecycleEvent>): (s: set<Entity>)
    ensures forall e :: e in s <==> exists i :: 0 <= i < |events| && events[i].entity == e
  {
    set i | 0 <= i < |events| :: events[i].entity
  }

  /** The state `handle_lifecycle_event` reads and writes. */
  class LifecycleWorld {
    /** The combatants carrying the `Alive` marker. */
    var alive: set<Entity>
    var groups: map<Entity, Group>
    /** The `BattleResolution` resource. */
    var winner: Option<Group>
    /** The pending next battle state. */
    var next: Option<Battle.BattleState>

    /**
     * `handle_lifecycle_event`. Every death sets the next state to
     * `BattleEnd`, records the winner it decides, and removes the entity's
     * `Alive` marker once the frame's commands are applied.
     */
    method HandleLifecycleEvent(events: seq<BattleLifecycleEvent>)
      modifies this
      ensures groups == old(groups)
      ensures alive == old(alive) - Dying(events)
      ensures winner == RecordedWinner(old(alive), old(groups), events, old(winner))
      ensures next == if events == [] then old(next) else Some(Battle.BattleEnd)
    {
      var snapshot := alive;
      var recorded := winner;
      var removed: set<Entity> := {};
      var state := next;
      for i := 0 to |events|
        invariant recorded == RecordedWinner(snapshot, groups, events[..i], old(winner))
        invariant removed == Dying(events[..i])
        invariant state == if i == 0 then old(next) else Some(Battle.BattleEnd)
      {
        var e := events[i].entity;
        assert events[..i + 1][..i] == events[..i];
        var outcome := Outcome(snapshot, groups, e);
        if outcome.Some? {
          recorded := outcome;
        }
        assert Dying(events[..i + 1]) == Dying(events[..i]) + {e};
        removed := removed + {e};
        state := Some(Battle.BattleEnd);
      }
      assert events[..|events|] == events;
      winner := recorded;
      next := state;
      alive := alive - removed;
    }
  }

  /** Judged against the markers of the frame's start, two enemies dying together each see the other alive. */
  lemma SimultaneousDeathsRecordNoWinner()
    ensures var alive := {1, 2, 3};
      var groups := map[1 := Enemy, 2 := Enemy, 3 := Player];
      RecordedWinner(alive, groups, [CharacterDied(1), CharacterDied(2)], None) == None
  {
    var alive := {1, 2, 3};
    var groups := map[1 := Enemy, 2 := Enemy, 3 := Player];
    assert 2 in OthersAlive(alive, groups, Enemy, 1) && 3 in OthersAlive(alive, groups, Player, 1);
    assert 1 in OthersAlive(alive, groups, Enemy, 2) && 3 in OthersAlive(alive, groups, Player, 2);
    assert [CharacterDied(1), CharacterDied(2)][..1] == [CharacterDied(1)];
    assert [CharacterDied(1)][..0] == [];
  }

  /**
   * The player wins exactly when no enemy other than the dying one is alive;
   * the enemy wins exactly when some other enemy but no other player is alive.
   */
  lemma OutcomeMeaning(alive: set<Entity>, groups: map<Entity, Group>, e: Entity)
    ensures Outcome(alive, groups, e) == Some(Player) <==>
      forall x :: x in alive && x in groups && groups[x] == Enemy ==> x == e
    ensures Outcome(alive, groups, e) == Some(Enemy) <==>
      && (exists x :: x in alive && x in groups && groups[x] == Enemy && x != e)
      && (forall x :: x in alive && x in groups && groups[x] == Player ==> x == e)
  {
    var enemies := OthersAlive(alive, groups, Enemy, e);
    var players := OthersAlive(alive, groups, Player, e);
    if enemies != {} {
      var x :| x in enemies;
    }
    if players != {} {
      var x :| x in players;
    }
  }

  /** When both sides lose their last other combatant at once, the player is the winner. */
  lemma PlayerCheckedFirst(alive: set<Entity>, groups: map<Entity, Group>, e: Entity)
    requires forall x :: x in alive && x in groups ==> x == e
    ensures Outcome(alive, groups, e) == Some(Player)
  {
    assert OthersAlive(alive, groups, Enemy, e) == {};
  }

  /** A lone death decides exactly what `Outcome` says of it, and a frame without deaths keeps the old winner. */
  lemma SingleDeath(alive: set<Entity>, groups: map<Entity, Group>, e: Entity, before: Option<Group>)
    ensures RecordedWinner(alive, groups, [], before) == before
    ensures RecordedWinner(alive, groups, [CharacterDied(e)], before) ==
      if Outcome(alive, groups, e).Some? then Outcome(alive, groups, e) else before
  {
    assert [CharacterDied(e)][..0] == [];
  }
}
