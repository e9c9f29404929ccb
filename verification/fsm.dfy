/** The TinyFSM engine of tinyfsm.py as an immutable record and pure operations.

    A registered state is identified by its key: keys are unique and states are never
    removed, so the key stands for the state object `TinyFSM` keeps in its fields.
    The user-defined `enter`, `execute` and `exit` hooks are opaque; each call to one
    of them is recorded as an `Event` at the end of the machine's trace. */
module Fsm {
  import opened Wrappers

  /** The four exception classes the engine raises. */
  datatype Error =
    | InvalidStateError
    | DuplicateStateError
    | StateNotFoundError
    | StateMachineError

  /** What the engine reads of a TinyState: its key (None when the caller gave None)
      and its initial flag. */
  datatype TinyState = TinyState(key: Option<string>, isInitialState: bool)

  /** One call of a state's lifecycle hook, naming the state whose hook ran. */
  datatype Event = Enter(key: string) | Execute(key: string) | Exit(key: string)

  /** The machine: registered keys with their initial flags, the current, previous
      and initial state (by key), and the hook calls made so far, oldest first. */
  datatype Machine = Machine(
    states: map<string, bool>,
    current: Option<string>,
    previous: Option<string>,
    initial: Option<string>,
    trace: seq<Event>)

  /** A freshly constructed machine: no states, nothing current, no hook called. */
  function NewMachine(): Machine {
    Machine(map[], None, None, None, [])
  }

  /** A key the engine accepts: present and non-empty. */
  predicate ValidKey(key: Option<string>) {
    key.Some? && key.value != ""
  }

  /** The keys of the registered states flagged as initial: the scan add_state does. */
  function InitialKeys(states: map<string, bool>): set<string> {
    set k | k in states && states[k]
  }

  /** A key is among the initial keys exactly when it is registered with its flag set. */
  lemma InitialKeysMember(states: map<string, bool>)
    ensures forall k :: k in InitialKeys(states) <==> k in states && states[k]
  {
  }

  /** The registered state object for `key`. */
  function StateFor(m: Machine, key: string): TinyState
    requires key in m.states
  {
    TinyState(Some(key), m.states[key])
  }

  /** The `current_state` accessor: the registered state object that is current. */
  function CurrentState(m: Machine): (r: Option<TinyState>)
    requires m.current.Some? ==> m.current.value in m.states
    ensures r.Some? <==> m.current.Some?
    ensures r.Some? ==> r.value.key == m.current && r.value.isInitialState == m.states[m.current.value]
  {
    if m.current.Some? then Some(StateFor(m, m.current.value)) else None
  }

  /** The `previous_state` accessor: the registered state object that was current
      before the last transition. */
  function PreviousState(m: Machine): (r: Option<TinyState>)
    requires m.previous.Some? ==> m.previous.value in m.states
    ensures r.Some? <==> m.previous.Some?
    ensures r.Some? ==> r.value.key == m.previous && r.value.isInitialState == m.states[m.previous.value]
  {
    if m.previous.Some? then Some(StateFor(m, m.previous.value)) else None
  }

  /** The hook calls of a transition from `leaving` to `key`: exit the old current state
      if there is one, then enter the new one. */
  function TransitionEvents(leaving: Option<string>, key: string): seq<Event> {
    if leaving.Some? then [Exit(leaving.value), Enter(key)] else [Enter(key)]
  }

  /** The body of change_state once the key is known to be registered. */
  function Transition(m: Machine, key: string): Machine {
    m.(previous := m.current, current := Some(key),
       trace := m.trace + TransitionEvents(m.current, key))
  }

  /** `change_state(key)`: fails when no state has that key; otherwise exits the
      current state, makes the old current state previous, makes `key` current and
      enters it. Self-transitions go through the same sequence. */
  function ChangeState(m: Machine, key: string): (r: Result<Machine, Error>)
    ensures r.Failure? <==> key !in m.states
    ensures r.Failure? ==> r.error == StateNotFoundError
    ensures r.Success? ==>
      && r.value.states == m.states
      && r.value.initial == m.initial
      && r.value.current == Some(key)
      && r.value.previous == m.current
    ensures r.Success? && m.current.None? ==> r.value.trace == m.trace + [Enter(key)]
    ensures r.Success? && m.current.Some? ==>
      r.value.trace == m.trace + [Exit(m.current.value), Enter(key)]
  {
    if key !in m.states then Failure(StateNotFoundError)
    else Success(Transition(m, key))
  }

  /** `add_state(state)`: the checks run in the order of tinyfsm.py (key, duplicate,
      second initial state) and the first that fails decides the error; a state that
      passes is registered, and an initial one is made current at once. */
  function AddState(m: Machine, s: TinyState): (r: Result<Machine, Error>)
    ensures r == Failure(InvalidStateError) <==> !ValidKey(s.key)
    ensures r == Failure(DuplicateStateError) <==> ValidKey(s.key) && s.key.value in m.states
    ensures r == Failure(StateMachineError) <==>
      && ValidKey(s.key) && s.key.value !in m.states
      && s.isInitialState && InitialKeys(m.states) != {}
    ensures r.Failure? ==> r.error != StateNotFoundError
    ensures r.Success? ==>
      && ValidKey(s.key)
      && r.value.states == m.states[s.key.value := s.isInitialState]
      && s.key.value !in m.states
    ensures r.Success? && !s.isInitialState ==>
      && r.value.current == m.current
      && r.value.previous == m.previous
      && r.value.initial == m.initial
      && r.value.trace == m.trace
    ensures r.Success? && s.isInitialState ==>
      && r.value.initial == s.key
      && r.value.current == s.key
      && r.value.previous == m.current
      && r.value.trace == m.trace + TransitionEvents(m.current, s.key.value)
  {
    if !ValidKey(s.key) then Failure(InvalidStateError)
    else if s.key.value in m.states then Failure(DuplicateStateError)
    else if InitialKeys(m.states) != {} && s.isInitialState then Failure(StateMachineError)
    else
      var key := s.key.value;
      var added := m.(states := m.states[key := s.isInitialState]);
      if s.isInitialState then Success(Transition(added.(initial := Some(key)), key))
      else Success(added)
  }

  /** `revert_to_previous_state()`: a normal transition back to the previous state,
      and nothing at all when there is none. */
  function RevertToPreviousState(m: Machine): (r: Result<Machine, Error>)
    ensures m.previous.None? ==> r == Success(m)
    ensures r.Failure? <==> m.previous.Some? && m.previous.value !in m.states
    ensures r.Failure? ==> r.error == StateNotFoundError
    ensures r.Success? && m.previous.Some? ==>
      && r.value.states == m.states
      && r.value.initial == m.initial
      && r.value.current == m.previous
      && r.value.previous == m.current
      && r.value.trace == m.trace + TransitionEvents(m.current, m.previous.value)
  {
    if m.previous.Some? then ChangeState(m, m.previous.value) else Success(m)
  }

  /** `process()`: calls `execute` on the current state, if any; never fails and
      never changes which states exist or which is current. */
  function Process(m: Machine): (r: Machine)
    ensures r.states == m.states && r.initial == m.initial
    ensures r.current == m.current && r.previous == m.previous
    ensures m.current.Some? ==> r.trace == m.trace + [Execute(m.current.value)]
    ensures m.current.None? ==> r.trace == m.trace
  {
    if m.current.Some? then m.(trace := m.trace + [Execute(m.current.value)]) else m
  }
}
