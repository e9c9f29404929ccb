/** Properties relating several operations: revert toggling, auto-activation of the
    initial state, and what the accessors return after a transition. */
module Transitions {
  import opened Wrappers
  import opened Fsm
  import opened Lifecycle
  import opened Invariants

  /** On a valid machine with a previous state, reverting swaps current and previous. */
  lemma RevertSwaps(m: Machine)
    requires Valid(m) && m.previous.Some?
    ensures RevertToPreviousState(m).Success?
    ensures RevertToPreviousState(m).value.current == m.previous
    ensures RevertToPreviousState(m).value.previous == m.current
    ensures RevertToPreviousState(m).value.trace ==
      m.trace + [Exit(m.current.value), Enter(m.previous.value)]
  {
  }

  /** Reverting twice restores the original current and previous states and leaves
      the registry as it was. */
  lemma RevertTwiceRestores(m: Machine)
    requires Valid(m)
    ensures
      var once := RevertToPreviousState(m).value;
      RevertToPreviousState(once).Success? &&
      var twice := RevertToPreviousState(once).value;
      && twice.current == m.current
      && twice.previous == m.previous
      && twice.states == m.states
  {
  }

  /** From current state `a`, changing to `b` and reverting yields current `a` and
      previous `b`; reverting again yields current `b` and previous `a`. */
  lemma ChangeThenRevertToggles(m: Machine, a: string, b: string)
    requires Valid(m) && m.current == Some(a) && b in m.states
    ensures
      var changed := ChangeState(m, b).value;
      var back := RevertToPreviousState(changed).value;
      var again := RevertToPreviousState(back).value;
      && changed.current == Some(b) && changed.previous == Some(a)
      && back.current == Some(a) && back.previous == Some(b)
      && again.current == Some(b) && again.previous == Some(a)
  {
  }

  /** Registering an initial state has the same effect as registering it and then
      calling change_state on its key. */
  lemma AddInitialIsChangeState(m: Machine, s: TinyState)
    requires AddState(m, s).Success? && s.isInitialState
    ensures
      var registered := m.(states := m.states[s.key.value := true], initial := s.key);
      ChangeState(registered, s.key.value) == AddState(m, s)
  {
  }

  /** Registering the initial state on a valid machine with nothing current makes it
      current, leaves nothing previous, and enters it without any exit. */
  lemma AddInitialActivates(m: Machine, s: TinyState)
    requires Valid(m) && m.current.None?
    requires AddState(m, s).Success? && s.isInitialState
    ensures CurrentState(AddState(m, s).value) == Some(s)
    ensures PreviousState(AddState(m, s).value).None?
    ensures AddState(m, s).value.trace == m.trace + [Enter(s.key.value)]
    ensures AddState(m, s).value.initial == s.key
  {
  }

  /** A registered state object is recovered unchanged from its key. */
  lemma RegisteredStateIsRecovered(m: Machine, s: TinyState)
    requires AddState(m, s).Success?
    ensures s.key.value in AddState(m, s).value.states
    ensures StateFor(AddState(m, s).value, s.key.value) == s
  {
  }

  /** After a transition the previous-state accessor returns what the current-state
      accessor returned before, and the current-state accessor the state for `key`. */
  lemma ChangeStateAccessors(m: Machine, key: string)
    requires Valid(m) && key in m.states
    ensures Valid(ChangeState(m, key).value)
    ensures PreviousState(ChangeState(m, key).value) == CurrentState(m)
    ensures CurrentState(ChangeState(m, key).value) == Some(StateFor(m, key))
  {
    ChangeStatePreservesValid(m, key);
  }
}
