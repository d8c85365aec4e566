/**
 * The battle's two state machines, the turn queue and the schedule that gates
 * each battle system on a state of those machines.
 */
module Battle {
  import opened Character
  import App

  datatype BattleInitState = BeforeBattleField | AfterBattleField

  datatype BattleState =
    | BattleInit
    | BattleEnd
    | AbilityChoosingPlayer
    | AbilityTargeting
    | AbilityCastingEnemy
    | AbilityResolution

  /** Both machines start in their first variant. */
  const DefaultBattleInitState: BattleInitState := BeforeBattleField
  const DefaultBattleState: BattleState := BattleInit

  // ---------------------------------------------------------------------------
  // The turn queue: a deque of combatants whose head is the active one

  /** `BattleQueue::get_current`: the head of the queue, read without changing it; an empty queue panics. */
  function GetCurrent(queue: seq<Entity>): (e: Entity)
    requires |queue| > 0
    ensures e in queue
  {
    queue[0]
  }

  /** `VecDeque::rotate_left(1)`: the head moves to the back; the deque panics when empty. */
  function RotateLeft(queue: seq<Entity>): (r: seq<Entity>)
    requires |queue| > 0
    ensures |r| == |queue| && r[|r| - 1] == queue[0]
    ensures forall i :: 0 <= i < |queue| - 1 ==> r[i] == queue[i + 1]
  {
    queue[1..] + [queue[0]]
  }

  /** A rotation neither adds nor drops a combatant. */
  lemma RotatePermutes(queue: seq<Entity>)
    requires |queue| > 0
    ensures multiset(RotateLeft(queue)) == multiset(queue)
  {
    assert queue == [queue[0]] + queue[1..];
  }

  /** `n` successive rotations, one per ended turn. */
  function RotateTimes(queue: seq<Entity>, n: nat): (r: seq<Entity>)
    requires |queue| > 0
    ensures |r| == |queue|
    decreases n
  {
    if n == 0 then queue else RotateTimes(RotateLeft(queue), n - 1)
  }

  /** After `n` ended turns the queue starts at its `n`-th element and wraps around. */
  lemma {:induction false} RotateTimesIsSplice(queue: seq<Entity>, n: nat)
    requires 0 < |queue| && n <= |queue|
    ensures RotateTimes(queue, n) == queue[n..] + queue[..n]
    decreases n
  {
    if n > 0 {
      var rotated := queue[1..] + [queue[0]];
      assert RotateLeft(queue) == rotated;
      RotateTimesIsSplice(rotated, n - 1);
      assert rotated[n - 1..] == queue[n..] + [queue[0]];
      assert rotated[..n - 1] == queue[1..n];
      assert queue[..n] == [queue[0]] + queue[1..n];
    }
  }

  /** A full round of turns brings every combatant back to its starting place. */
  lemma FullRound(queue: seq<Entity>)
    requires |queue| > 0
    ensures RotateTimes(queue, |queue|) == queue
  {
    RotateTimesIsSplice(queue, |queue|);
  }

  /** Every combatant gets the turn within one round: the `n`-th rotation's head is `queue[n]`. */
  lemma HeadAfterRotations(queue: seq<Entity>, n: nat)
    requires n < |queue|
    ensures GetCurrent(RotateTimes(queue, n)) == queue[n]
  {
    RotateTimesIsSplice(queue, n);
  }

  // ---------------------------------------------------------------------------
  // The schedule of the battle plugin

  datatype System =
    | SetupBattleLog | SetupBattleUi | InitializeEnemies | SetupBattleField
    | SetupBattle
    | CleanupBattle | CleanupBattleLog
    | ChooseAction
    | ChooseTarget | CancelAction
    | InitTargeting | CleanupTargeting
    | SetupAvailableActions
    | HandleEnemyTurn
    | ResizeMeshesForSprites | ResizeBattleCameraViewport | UpdateBattleLog | UpdateTopText | HandleLifecycleEvent
    | SetupBattleResolution
    | BattleResolutionButtonInteraction

  /** When a system runs: on entering, on leaving, or on every frame while in a state. */
  datatype Trigger =
    | OnEnterApp(app: App.AppState)
    | OnExitApp(app: App.AppState)
    | OnUpdateApp(app: App.AppState)
    | OnEnterInit(init: BattleInitState)
    | OnEnterBattle(battle: BattleState)
    | OnExitBattle(battle: BattleState)
    | OnUpdateBattle(battle: BattleState)

  /**
   * The trigger each system is registered under; every system is registered
   * once. Entering the battle runs exactly the chained systems, and the player's
   * choice and the enemy's turn each have a trigger of their own.
   */
  function TriggerOf(s: System): (t: Trigger)
    ensures t == OnEnterApp(App.Battle) <==> s in EnterBattleChain
    ensures t == OnUpdateBattle(AbilityChoosingPlayer) <==> s == ChooseAction
    ensures t == OnEnterBattle(AbilityCastingEnemy) <==> s == HandleEnemyTurn
    ensures t == OnEnterInit(AfterBattleField) <==> s == SetupBattle
  {
    match s
    case SetupBattleLog | SetupBattleUi | InitializeEnemies | SetupBattleField => OnEnterApp(App.Battle)
    case SetupBattle => OnEnterInit(AfterBattleField)
    case CleanupBattle | CleanupBattleLog => OnExitApp(App.Battle)
    case ChooseAction => OnUpdateBattle(AbilityChoosingPlayer)
    case ChooseTarget | CancelAction => OnUpdateBattle(AbilityTargeting)
    case InitTargeting => OnEnterBattle(AbilityTargeting)
    case CleanupTargeting => OnExitBattle(AbilityTargeting)
    case SetupAvailableActions => OnEnterBattle(AbilityChoosingPlayer)
    case HandleEnemyTurn => OnEnterBattle(AbilityCastingEnemy)
    case ResizeMeshesForSprites | ResizeBattleCameraViewport | UpdateBattleLog | UpdateTopText | HandleLifecycleEvent =>
      OnUpdateApp(App.Battle)
    case SetupBattleResolution => OnEnterBattle(BattleEnd)
    case BattleResolutionButtonInteraction => OnUpdateBattle(BattleEnd)
  }

  /** The systems entering the battle runs, chained so that each starts after the previous one. */
  const EnterBattleChain: seq<System> := [SetupBattleLog, SetupBattleUi, InitializeEnemies, SetupBattleField]

  predicate RunsOn(s: System, t: Trigger)
  {
    TriggerOf(s) == t
  }

  /** Player input is read only in the two player states, and the enemy acts only on entering its state. */
  lemma StateGates(t: Trigger)
    ensures RunsOn(ChooseAction, t) <==> t == OnUpdateBattle(AbilityChoosingPlayer)
    ensures RunsOn(ChooseTarget, t) <==> t == OnUpdateBattle(AbilityTargeting)
    ensures RunsOn(CancelAction, t) <==> t == OnUpdateBattle(AbilityTargeting)
    ensures RunsOn(HandleEnemyTurn, t) <==> t == OnEnterBattle(AbilityCastingEnemy)
  {
  }

  /**
   * The combatants are spawned only on entering `AfterBattleField`, a state set
   * by the last system of the chain that enters the battle, after the enemies
   * were added to the roster.
   */
  lemma SetupOrder()
    ensures RunsOn(SetupBattle, OnEnterInit(AfterBattleField))
    ensures forall s :: s in EnterBattleChain ==> RunsOn(s, OnEnterApp(App.Battle))
    ensures EnterBattleChain[|EnterBattleChain| - 1] == SetupBattleField
    ensures EnterBattleChain[2] == InitializeEnemies
    ensures !RunsOn(SetupBattle, OnEnterApp(App.Battle))
  {
  }
}
