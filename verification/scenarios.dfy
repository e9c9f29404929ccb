/** The unit-test scenario of tests.py, stated about the model: a machine with an
    initial state "state0" and a second state "state1". */
module Scenarios {
  import opened Wrappers
  import opened Fsm

  const State0 := TinyState(Some("state0"), true)
  const State1 := TinyState(Some("state1"), false)

  /** The machine of `setUp`: both states registered, "state0" first. */
  function SetUp(): (m: Machine)
    ensures m.states == map["state0" := true, "state1" := false]
  {
    var m1 := AddState(NewMachine(), State0);
    assert InitialKeys(map[]) == {};
    var m2 := AddState(m1.value, State1);
    m2.value
  }

  /** `setUp` leaves "state0" current, nothing previous, and "state0" entered once. */
  lemma SetUpActivatesInitial()
    ensures CurrentState(SetUp()) == Some(State0)
    ensures PreviousState(SetUp()).None?
    ensures SetUp().trace == [Enter("state0")]
  {
  }

  /** `test_add_state`: a missing key, a duplicate key and a second initial state are
      each refused with their own error. */
  lemma AddStateErrors()
    ensures AddState(SetUp(), TinyState(None, false)) == Failure(InvalidStateError)
    ensures AddState(SetUp(), TinyState(Some("state0"), false)) == Failure(DuplicateStateError)
    ensures AddState(SetUp(), TinyState(Some("state2"), true)) == Failure(StateMachineError)
  {
    InitialKeysMember(SetUp().states);
  }

  /** `test_change_state`: an unknown key is refused; after `process`, changing to
      "state1" makes it current. */
  lemma ChangeStateScenario()
    ensures ChangeState(SetUp(), "error") == Failure(StateNotFoundError)
    ensures
      var changed := ChangeState(Process(SetUp()), "state1");
      && changed.Success?
      && CurrentState(changed.value) == Some(State1)
      && changed.value.trace == [Enter("state0"), Execute("state0"), Exit("state0"), Enter("state1")]
  {
  }

  /** `test_revert_to_previous_state`: after changing to "state1" the previous state is
      "state0"; reverting makes "state0" current and "state1" previous. */
  lemma RevertScenario()
    ensures
      var changed := ChangeState(SetUp(), "state1").value;
      var reverted := RevertToPreviousState(changed);
      && PreviousState(changed) == Some(State0)
      && CurrentState(changed) == Some(State1)
      && reverted.Success?
      && CurrentState(reverted.value) == Some(State0)
      && PreviousState(reverted.value) == Some(State1)
  {
  }
}
