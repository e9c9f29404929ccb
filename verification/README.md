# TinyFSM in Dafny

A model of the finite-state-machine engine `TinyFSM` of the tinyfsm Python package. Its
own data are a registry of named states, a current state and a previous state. It has
four operations: `add_state`, `change_state`, `revert_to_previous_state` and `process`.
Each state has `enter`, `execute` and `exit` hooks, which the engine calls in a fixed
order.

The machine is an immutable record (`Fsm.Machine`):

- `states: map<string, bool>` maps each registered key to its `is_initial_state` flag.
- `current`, `previous` and `initial` are optional keys.
- `trace: seq<Event>` records every hook call in order, as `Enter(k)`, `Execute(k)` or
  `Exit(k)`.

Keys are unique and states are never removed, so, as long as a registered state
object's key and flag are not changed after registration, a key stands for the state
object `TinyFSM` stores in its fields, and `Fsm.StateFor` turns it back into that object. Each
operation is a pure function. It returns `Success(machine)` or `Failure(error)`, one
constructor per exception class. A `Failure` carries no machine, so the caller keeps the
machine it had. This is exactly what `TinyFSM` does, because every check in `add_state`
and `change_state` runs before anything is changed.

Modules:

- `Wrappers`: `Option` and `Result`.
- `Fsm`: the data model, the four operations and the two accessors, each with its
  contract.
- `Lifecycle`: the hook protocol as an automaton (`Replay`), independent of the
  machine. A state is entered when it becomes current. It executes only while it is
  current. It is exited just before the next state is entered.
- `Invariants`: the invariant `Valid`, and a proof that every operation preserves it.
  `Valid` says that keys are non-empty, current and previous are registered, the
  initial-flagged states are exactly `initial`, and replaying the trace gives back
  exactly (current, previous).
- `Transitions`: revert toggling, auto-activation of the initial state, and the
  accessors after a transition.
- `Runs`: sequences of calls, reachability, and what stays fixed along a run.
- `Scenarios`: the scenario of `tests.py`.

Registering an initial state while another state is already current does not leave
`previous` unset: add_state calls change_state (tinyfsm.py:98), which exits the old
current state and makes it previous (tinyfsm.py:109-111). `previous` stays unset only
when nothing was current, as after setUp (tests.py:43, 54). `Fsm.AddState` states the
general case, and `Transitions.AddInitialActivates` states the case with nothing current.

## Model

| member | source | states |
|---|---|---|
| Fsm.AddState | tinyfsm.py:76-98 | The errors come in the order of tinyfsm.py: an invalid key gives InvalidStateError, then a registered key gives DuplicateStateError, then an initial flag while the registry already holds an initial-flagged state gives StateMachineError. On success exactly the new key is added with its flag. A non-initial state leaves current, previous, initial and trace unchanged. An initial state becomes initial and current, the old current becomes previous, and the old current is exited before the new state is entered. |
| Fsm.ChangeState | tinyfsm.py:100-114 | Fails with StateNotFoundError exactly when the key is not registered. Otherwise the registry and initial are unchanged, current becomes the key, previous becomes the old current (self-transitions included), and the trace gains Exit(old), only if something was current, followed by Enter(key). |
| Fsm.RevertToPreviousState | tinyfsm.py:116-121 | With nothing previous it is a no-op and succeeds. It fails only when previous names an unregistered key. Otherwise it runs a full change_state to the previous state: current and previous are swapped, the registry and initial are unchanged, and the trace gains Exit(current), if something was current, followed by Enter(previous). |
| Fsm.Process | tinyfsm.py:69-74 | Never fails. It never changes the registry, current, previous or initial. It appends exactly Execute(current) when something is current, and nothing otherwise. |
| Fsm.NewMachine | tinyfsm.py:48-53 | A fresh machine: no registered states, nothing current, previous or initial, and no hook called. Its properties are proved in Invariants.NewMachineValid. |
| Fsm.InitialKeysMember | tinyfsm.py:92 | A key is among the keys the initial-state scan finds exactly when it is registered with its initial flag set. |
| Fsm.CurrentState | tinyfsm.py:62-67 | Returns a state exactly when one is current: the registered state with that key and its flag. |
| Fsm.PreviousState | tinyfsm.py:55-60 | Returns a state exactly when one is previous: the registered state with that key and its flag. |
| Lifecycle.ExitIsFollowedByEnter | tinyfsm.py:109-114 | In a trace that follows the hook protocol, every exit is followed at once by an enter, unless it is the last event and the replay stands halfway through a transition. |
| Lifecycle.ExitIsFollowedByEnterWhenIdle | tinyfsm.py:109-114 | In a protocol trace that ends between transitions, every exit is followed at once by an enter. |
| Lifecycle.IdleWithoutCurrentIsFresh | tinyfsm.py:51-53 | The replay stands idle with nothing current only when the trace is empty, and then nothing is previous. |
| Lifecycle.ReplayTransition | tinyfsm.py:109-114 | Replaying the hook calls of a transition from `leaving` ends with the new key current and `leaving` previous. |
| Invariants.NewMachineValid | tinyfsm.py:48-53 | A fresh machine has no states, nothing current, previous or initial, an empty trace, and satisfies the invariant. |
| Invariants.NoCurrentMeansNoHistory | tinyfsm.py:108-114 | On a valid machine with nothing current, nothing is previous, no initial state is recorded, and no hook has run. |
| Invariants.AtMostOneInitial | tinyfsm.py:92-97 | On a valid machine any two initial-flagged states are the same state. `initial` is set exactly when some registered state is flagged, and it names that state. |
| Invariants.InitialScanAgreesWithField | tinyfsm.py:92-93 | On a valid machine the scan of add_state for an initial-flagged state finds one exactly when `initial` is set. |
| Invariants.AddStateSecondInitial | tinyfsm.py:92-94 | On a valid machine add_state raises StateMachineError exactly when a new, validly keyed, initial-flagged state meets an already recorded initial state. |
| Invariants.AddStatePreservesValid | tinyfsm.py:95-98 | A successful add_state keeps the invariant: keys stay non-empty, there is still at most one initial state, and the trace still replays to (current, previous). |
| Invariants.ChangeStatePreservesValid | tinyfsm.py:108-114 | A successful change_state keeps the invariant, including the hook protocol of the trace. |
| Invariants.RevertNeverFails | tinyfsm.py:116-121 | On a valid machine revert_to_previous_state never raises. |
| Invariants.RevertPreservesValid | tinyfsm.py:116-121 | revert_to_previous_state keeps the invariant. |
| Invariants.ProcessPreservesValid | tinyfsm.py:69-74 | process keeps the invariant: its execute call names the current state. |
| Transitions.RevertSwaps | tinyfsm.py:116-121 | On a valid machine with a previous state, reverting succeeds and swaps current and previous. It exits the current state and then enters the previous one. |
| Transitions.RevertTwiceRestores | tinyfsm.py:116-121 | On a valid machine, two reverts in a row restore the original current and previous states and leave the registry unchanged. |
| Transitions.ChangeThenRevertToggles | tinyfsm.py:100-121 | From current A, changing to B gives (B, A). Reverting then gives (A, B), and reverting again gives (B, A). |
| Transitions.AddInitialIsChangeState | tinyfsm.py:95-98 | Registering an initial state gives the same result as registering it, recording it as initial and calling change_state on its key. |
| Transitions.AddInitialActivates | tinyfsm.py:96-98 | On a valid machine with nothing current, registering the initial state makes that very state current, leaves nothing previous, records it as initial, and only enters it. |
| Transitions.RegisteredStateIsRecovered | tinyfsm.py:95 | After a successful add_state, the state object read back from its key is the object that was registered. |
| Transitions.ChangeStateAccessors | tinyfsm.py:108-114 | After change_state to a registered key, the previous-state accessor returns what the current-state accessor returned before, and the current-state accessor returns the state for the key. |
| Runs.NextPreservesValid | tinyfsm.py:69-121 | Any single public call keeps the invariant, whether it succeeds or raises. |
| Runs.RunPreservesValid | tinyfsm.py:69-121 | Any sequence of public calls keeps the invariant. |
| Runs.ReachableIsValid | tinyfsm.py:92-97 | Every machine reachable from a fresh one is valid, has at most one initial-flagged state, and has `initial` set exactly when it has one. |
| Runs.RunOnlyGrows | tinyfsm.py:95 | Along any run, no registered state is removed or changes its flag, and the trace is only appended to. |
| Runs.RunKeepsInitial | tinyfsm.py:92-97 | Once a valid machine records an initial state, no sequence of calls replaces it. |
| Scenarios.SetUp | tests.py:38-44 | The setUp machine holds "state0" (initial) and "state1" (not initial). |
| Scenarios.SetUpActivatesInitial | tests.py:52-54 | After setUp, "state0" is current, nothing is previous, and "state0" has been entered once. |
| Scenarios.AddStateErrors | tests.py:46-50 | A missing key, a duplicate key and a second initial state give InvalidStateError, DuplicateStateError and StateMachineError. |
| Scenarios.ChangeStateScenario | tests.py:52-58 | An unknown key gives StateNotFoundError. After process, changing to "state1" makes it current, with the hook calls in order. |
| Scenarios.RevertScenario | tests.py:60-69 | After changing to "state1", "state0" is previous. Reverting then makes "state0" current and "state1" previous. |

## Left out

- The check that the argument of add_state is a non-null TinyState (tinyfsm.py:86-87): the parameter's type makes any other argument unrepresentable.
- Changes to a registered TinyState object after registration: the registry holds each state's key and initial flag as fixed values, while tinyfsm.py:95 stores the caller's object, which the caller can still change. Two consequences are not modelled. Setting `is_initial_state` to true on an already registered state (tinyfsm.py:27, re-read by the scan at line 92) can leave two initial-flagged states, which Runs.ReachableIsValid rules out. Reassigning `__key__` (tinyfsm.py:26) of the previous state makes revert look up a key that is not registered (line 121) and raise StateNotFoundError, which Invariants.RevertNeverFails rules out.
- Exception messages and their formatting with `unicode`: errors are datatype constructors only.
- Fsm.AddState: keys stand for Python 2 `unicode` values (or ASCII `str` values). The message formatting at tinyfsm.py:87-91 is assumed to succeed, so a duplicate non-ASCII byte-string key, whose `unicode(state.key)` would raise `UnicodeDecodeError` before `DuplicateStateError` is built, is not modelled. tinyfsm.py runs under Python 2 only: under Python 3 the `unicode` builtin is missing, and lines 87, 89 and 91 raise `NameError`.
- The bodies of user-defined hooks and the opaque owner: each hook call is recorded only as a trace event.
- Hooks that raise, leaving a transition half done, and hooks that call back into the machine: hooks are taken to return normally and not to re-enter.
- Python truthiness beyond None and the empty string: keys are strings or None, and registered state objects are always truthy.
- The print-only test state classes of tests.py and the packaging metadata of setup.py: they hold no engine logic.
- Concurrency: the engine is single-threaded and synchronous.
