/** The lifecycle protocol of a state's hooks, as a reference against which the
    machine's trace is judged: a state is entered once when it becomes current, runs
    `execute` only while it is current, and is exited once, just before the next
    state is entered. Replaying a trace through this automaton yields the current
    and previous state the trace implies, or None when the trace breaks the protocol. */
module Lifecycle {
  import opened Wrappers
  import opened Fsm

  /** Where a replay stands: between transitions (`Idle`), or halfway through one,
      after the old current state's `exit` and before the new state's `enter`. */
  datatype Cursor =
    | Idle(current: Option<string>, previous: Option<string>)
    | Exiting(leaving: string)

  /** One hook call. `enter` without a preceding `exit` is only allowed when nothing
      is current; `exit` and `execute` must name the current state. */
  function Step(c: Cursor, e: Event): Option<Cursor> {
    match e
    case Enter(k) =>
      (match c
       case Idle(None, _) => Some(Idle(Some(k), None))
       case Exiting(x) => Some(Idle(Some(k), Some(x)))
       case Idle(Some(_), _) => None)
    case Exit(k) =>
      if c.Idle? && c.current == Some(k) then Some(Exiting(k)) else None
    case Execute(k) =>
      if c.Idle? && c.current == Some(k) then Some(c) else None
  }

  /** Continues a replay that has not yet failed. */
  function Resume(o: Option<Cursor>, e: Event): Option<Cursor> {
    if o.Some? then Step(o.value, e) else None
  }

  /** Replays a whole trace from a freshly constructed machine. */
  function Replay(t: seq<Event>): Option<Cursor>
    decreases |t|
  {
    if |t| == 0 then Some(Idle(None, None))
    else Resume(Replay(t[..|t| - 1]), t[|t| - 1])
  }

  /** Replaying one more event continues the replay of the shorter trace. */
  lemma ReplaySnoc(t: seq<Event>, e: Event)
    ensures Replay(t + [e]) == Resume(Replay(t), e)
  {
    assert (t + [e])[..|t|] == t;
  }

  /** Replaying a transition's hook calls from an idle cursor whose current state is
      `leaving` ends idle at `key`, with `leaving` as the previous state. */
  lemma ReplayTransition(t: seq<Event>, leaving: Option<string>, p: Option<string>, key: string)
    requires Replay(t) == Some(Idle(leaving, p))
    requires leaving.None? ==> p.None?
    ensures Replay(t + TransitionEvents(leaving, key)) == Some(Idle(Some(key), leaving))
  {
    if leaving.Some? {
      ReplaySnoc(t, Exit(leaving.value));
      ReplaySnoc(t + [Exit(leaving.value)], Enter(key));
      assert t + [Exit(leaving.value)] + [Enter(key)] == t + TransitionEvents(leaving, key);
    } else {
      ReplaySnoc(t, Enter(key));
    }
  }

  /** A replay only stands idle with nothing current before any hook has run, so
      nothing is previous either. */
  lemma IdleWithoutCurrentIsFresh(t: seq<Event>, p: Option<string>)
    requires Replay(t) == Some(Idle(None, p))
    ensures t == [] && p.None?
  {
  }

  /** In a trace that follows the protocol, every `exit` is immediately followed by
      an `enter`, unless it is the last event and the replay is halfway through a
      transition. */
  lemma {:induction false} ExitIsFollowedByEnter(t: seq<Event>, i: int)
    requires Replay(t).Some?
    requires 0 <= i < |t| && t[i].Exit?
    ensures i == |t| - 1 ==> Replay(t).value == Exiting(t[i].key)
    ensures i < |t| - 1 ==> t[i + 1].Enter?
    decreases |t|
  {
    var front := t[..|t| - 1];
    assert Replay(t) == Resume(Replay(front), t[|t| - 1]);
    if i < |t| - 1 {
      assert front[i] == t[i];
      ExitIsFollowedByEnter(front, i);
      if i == |front| - 1 {
        assert Replay(front).value.Exiting?;
      } else {
        assert t[i + 1] == front[i + 1];
      }
    }
  }

  /** In a trace that follows the protocol and ends between transitions, every
      `exit` is immediately followed by an `enter`. */
  lemma ExitIsFollowedByEnterWhenIdle(t: seq<Event>, i: int)
    requires Replay(t).Some? && Replay(t).value.Idle?
    requires 0 <= i < |t| && t[i].Exit?
    ensures i + 1 < |t| && t[i + 1].Enter?
  {
  }
}
