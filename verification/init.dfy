/** `setup_battle`: one combatant is spawned per roster character and the turn queue is built. */
module Init {
  import opened Character
  import Game
  import Lifecycle
  import Battle

  /**
   * Spawns the roster in order, each character as a fresh entity numbered
   * from `firstId` (above every entity alive before), alive, with a clone of
   * its bundle; the queue lists the new entities in roster order, and the
   * player chooses first whatever the group of the queue's head.
   */
  method SetupBattle(characters: seq<Game.CharacterRecord>, firstId: Entity)
    returns (queue: seq<Entity>, spawned: map<Entity, Game.CharacterRecord>,
             life: map<Entity, Lifecycle.LifeState>, nextId: Entity, next: Battle.BattleState)
    ensures |queue| == |characters| && nextId == firstId + |characters|
    ensures forall i :: 0 <= i < |queue| ==> firstId <= queue[i] < nextId
    ensures forall i, j :: 0 <= i < j < |queue| ==> queue[i] != queue[j]
    ensures forall i :: 0 <= i < |queue| ==> queue[i] in spawned && spawned[queue[i]] == characters[i]
    ensures forall e :: e in spawned <==> e in queue
    ensures forall e :: e in life <==> e in queue
    ensures forall e :: e in life ==> life[e] == Lifecycle.Alive
    ensures next == Battle.AbilityChoosingPlayer
  {
    queue, spawned, life := [], map[], map[];
    nextId := firstId;
    for i := 0 to |characters|
      invariant |queue| == i && nextId == firstId + i
      invariant forall k :: 0 <= k < i ==> queue[k] == firstId + k
      invariant forall k :: 0 <= k < i ==> queue[k] in spawned && spawned[queue[k]] == characters[k]
      invariant forall e :: e in spawned <==> e in queue
      invariant forall e :: e in life <==> e in queue
      invariant forall e :: e in life ==> life[e] == Lifecycle.Alive
    {
      var id := nextId;
      nextId := nextId + 1;
      spawned := spawned[id := characters[i]];
      life := life[id := Lifecycle.Alive];
      queue := queue + [id];
    }
    next := Battle.AbilityChoosingPlayer;
  }
}
