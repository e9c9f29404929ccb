/** The structural invariant of a machine and its preservation by every operation. */
module Invariants {
  import opened Wrappers
  import opened Fsm
  import opened Lifecycle

  /** What holds of every machine built from a fresh one by the four operations:
      registered keys are non-empty; current and previous name registered states;
      the initial-flagged states are exactly the recorded initial state, so there is
      at most one; once an initial state exists something is current; and the trace
      follows the hook protocol and leaves exactly (current, previous) behind. */
  predicate Valid(m: Machine) {
    && (forall k | k in m.states :: k != "")
    && (m.current.Some? ==> m.current.value in m.states)
    && (m.previous.Some? ==> m.previous.value in m.states)
    && InitialKeys(m.states) == (if m.initial.Some? then {m.initial.value} else {})
    && (m.initial.Some? ==> m.current.Some?)
    && Replay(m.trace) == Some(Idle(m.current, m.previous))
  }

  /** A fresh machine satisfies the invariant. */
  lemma NewMachineValid()
    ensures Valid(NewMachine())
    ensures NewMachine().states == map[] && NewMachine().trace == []
    ensures NewMachine().current.None? && NewMachine().previous.None? && NewMachine().initial.None?
  {
  }

  /** Without a current state no transition has happened: nothing is previous and
      no hook has run. */
  lemma NoCurrentMeansNoHistory(m: Machine)
    requires Valid(m) && m.current.None?
    ensures m.previous.None? && m.trace == [] && m.initial.None?
  {
  }

  /** At most one registered state is flagged initial, and `initial` is set exactly
      when one is; it names that state. */
  lemma AtMostOneInitial(m: Machine)
    requires Valid(m)
    ensures forall a, b :: a in m.states && b in m.states && m.states[a] && m.states[b] ==> a == b
    ensures m.initial.Some? <==> exists k :: k in m.states && m.states[k]
    ensures m.initial.Some? ==> m.initial.value in m.states && m.states[m.initial.value]
  {
    InitialKeysMember(m.states);
  }

  /** add_state finds an already registered initial state by scanning the registry;
      on a valid machine that scan agrees with the recorded `initial` field. */
  lemma InitialScanAgreesWithField(m: Machine)
    requires Valid(m)
    ensures InitialKeys(m.states) != {} <==> m.initial.Some?
  {
  }

  /** On a valid machine add_state refuses a second initial state exactly when the
      recorded initial state exists. */
  lemma AddStateSecondInitial(m: Machine, s: TinyState)
    requires Valid(m)
    ensures AddState(m, s) == Failure(StateMachineError) <==>
      && ValidKey(s.key) && s.key.value !in m.states
      && s.isInitialState && m.initial.Some?
  {
  }

  /** Registering a key adds it to the initial-flagged keys exactly when its flag is set. */
  lemma InitialKeysInsert(states: map<string, bool>, key: string, flag: bool)
    requires key !in states
    ensures InitialKeys(states[key := flag]) == InitialKeys(states) + (if flag then {key} else {})
  {
  }

  lemma AddStatePreservesValid(m: Machine, s: TinyState)
    requires Valid(m) && AddState(m, s).Success?
    ensures Valid(AddState(m, s).value)
  {
    var key := s.key.value;
    var r := AddState(m, s).value;
    InitialKeysInsert(m.states, key, s.isInitialState);
    if s.isInitialState {
      assert m.current.None? ==> m.previous.None? by {
        if m.current.None? { NoCurrentMeansNoHistory(m); }
      }
      ReplayTransition(m.trace, m.current, m.previous, key);
    }
  }

  lemma ChangeStatePreservesValid(m: Machine, key: string)
    requires Valid(m) && ChangeState(m, key).Success?
    ensures Valid(ChangeState(m, key).value)
  {
    assert m.current.None? ==> m.previous.None? by {
      if m.current.None? { NoCurrentMeansNoHistory(m); }
    }
    ReplayTransition(m.trace, m.current, m.previous, key);
  }

  /** On a valid machine revert_to_previous_state never raises. */
  lemma RevertNeverFails(m: Machine)
    requires Valid(m)
    ensures RevertToPreviousState(m).Success?
  {
  }

  lemma RevertPreservesValid(m: Machine)
    requires Valid(m)
    ensures Valid(RevertToPreviousState(m).value)
  {
    if m.previous.Some? {
      ChangeStatePreservesValid(m, m.previous.value);
    }
  }

  lemma ProcessPreservesValid(m: Machine)
    requires Valid(m)
    ensures Valid(Process(m))
  {
  }
}
