/**
 * The battle log: a resource holding the messages written during one battle.
 * It exists from the moment the battle is entered until it is left.
 */
module BattleLog {
  import opened Wrappers

  datatype BattleLogEvent = BattleLogEvent(message: string)

  /** The messages a sequence of log events carries, one per event, in event order. */
  function Messages(events: seq<BattleLogEvent>): (r: seq<string>)
    ensures |r| == |events|
    ensures forall i :: 0 <= i < |events| ==> r[i] == events[i].message
  {
    if events == [] then [] else [events[0].message] + Messages(events[1..])
  }

  /** Reading two batches of events one after the other logs what reading them at once does. */
  lemma {:induction false} MessagesAppend(a: seq<BattleLogEvent>, b: seq<BattleLogEvent>)
    ensures Messages(a + b) == Messages(a) + Messages(b)
    decreases |a|
  {
    if a != [] {
      assert (a + b)[1..] == a[1..] + b;
      MessagesAppend(a[1..], b);
    }
  }

  /** The `BattleLog` resource slot of the world: `None` while no battle is running. */
  class BattleLogSlot {
    var log: Option<seq<string>>

    constructor ()
      ensures log == None
    {
      log := None;
    }

    /** `setup_battle_log`: a fresh log with no messages. */
    method SetupBattleLog()
      modifies this
      ensures log == Some([])
    {
      log := Some([]);
    }

    /** `cleanup_battle_log`: the resource is removed. */
    method CleanupBattleLog()
      modifies this
      ensures log == None
    {
      log := None;
    }

    /**
     * `update_battle_log`: each event's message is pushed in event order; the
     * messages already logged stay where they are. The system needs the
     * resource to exist.
     */
    method UpdateBattleLog(events: seq<BattleLogEvent>)
      requires log.Some?
      modifies this
      ensures log == Some(old(log.value) + Messages(events))
    {
      ghost var before := log.value;
      var i := 0;
      assert before + Messages(events[..0]) == before;
      while i < |events|
        invariant 0 <= i <= |events|
        invariant log == Some(before + Messages(events[..i]))
      {
        assert events[..i + 1] == events[..i] + [events[i]];
        MessagesAppend(events[..i], [events[i]]);
        assert before + Messages(events[..i + 1]) == log.value + [events[i].message];
        log := Some(log.value + [events[i].message]);
        i := i + 1;
      }
      assert events[..i] == events;
    }
  }

  /** An update never drops or reorders a logged message: the old log is a prefix of the new one. */
  lemma UpdateKeepsHistory(messages: seq<string>, events: seq<BattleLogEvent>)
    ensures messages <= messages + Messages(events)
    ensures (messages + Messages(events))[|messages|..] == Messages(events)
  {
  }
}
