/** Sequences of calls on one machine, as the owner makes them. A call that raises
    leaves the machine as it was, since every check precedes every change; the owner
    is taken to catch the exception and carry on. */
module Runs {
  import opened Wrappers
  import opened Fsm
  import opened Lifecycle
  import opened Invariants

  /** One call of the machine's public surface. */
  datatype Command =
    | AddStateCall(state: TinyState)
    | ChangeStateCall(key: string)
    | RevertCall
    | ProcessCall

  /** The outcome of one call. */
  function Apply(m: Machine, c: Command): Result<Machine, Error> {
    match c
    case AddStateCall(s) => AddState(m, s)
    case ChangeStateCall(k) => ChangeState(m, k)
    case RevertCall => RevertToPreviousState(m)
    case ProcessCall => Success(Process(m))
  }

  /** The machine after one call: the new machine, or the old one if the call raised. */
  function Next(m: Machine, c: Command): Machine {
    match Apply(m, c)
    case Success(m') => m'
    case Failure(_) => m
  }

  /** The machine after a sequence of calls, in order. */
  function Run(m: Machine, cs: seq<Command>): Machine
    decreases |cs|
  {
    if |cs| == 0 then m else Run(Next(m, cs[0]), cs[1..])
  }

  /** Every machine reachable from a fresh one by the owner's calls. */
  ghost predicate Reachable(m: Machine) {
    exists cs :: Run(NewMachine(), cs) == m
  }

  /** One call keeps the invariant. */
  lemma NextPreservesValid(m: Machine, c: Command)
    requires Valid(m)
    ensures Valid(Next(m, c))
  {
    match c
    case AddStateCall(s) =>
      if AddState(m, s).Success? { AddStatePreservesValid(m, s); }
    case ChangeStateCall(k) =>
      if ChangeState(m, k).Success? { ChangeStatePreservesValid(m, k); }
    case RevertCall =>
      RevertPreservesValid(m);
    case ProcessCall =>
      ProcessPreservesValid(m);
  }

  /** Any sequence of calls keeps the invariant. */
  lemma {:induction false} RunPreservesValid(m: Machine, cs: seq<Command>)
    requires Valid(m)
    ensures Valid(Run(m, cs))
    decreases |cs|
  {
    if |cs| > 0 {
      NextPreservesValid(m, cs[0]);
      RunPreservesValid(Next(m, cs[0]), cs[1..]);
    }
  }

  /** Every reachable machine satisfies the invariant; in particular it has at most
      one initial-flagged state, and `initial` is set exactly when it has one. */
  lemma ReachableIsValid(m: Machine)
    requires Reachable(m)
    ensures Valid(m)
    ensures forall a, b :: a in m.states && b in m.states && m.states[a] && m.states[b] ==> a == b
    ensures m.initial.Some? <==> exists k :: k in m.states && m.states[k]
  {
    var cs :| Run(NewMachine(), cs) == m;
    NewMachineValid();
    RunPreservesValid(NewMachine(), cs);
    AtMostOneInitial(m);
  }

  /** States are never removed or changed, and the trace is only appended to. */
  lemma {:induction false} RunOnlyGrows(m: Machine, cs: seq<Command>)
    ensures m.states.Keys <= Run(m, cs).states.Keys
    ensures forall k :: k in m.states ==> Run(m, cs).states[k] == m.states[k]
    ensures m.trace <= Run(m, cs).trace
    decreases |cs|
  {
    if |cs| > 0 {
      RunOnlyGrows(Next(m, cs[0]), cs[1..]);
    }
  }

  /** The initial state is set at most once: on a valid machine that has one, no
      sequence of calls replaces it. */
  lemma {:induction false} RunKeepsInitial(m: Machine, cs: seq<Command>)
    requires Valid(m) && m.initial.Some?
    ensures Run(m, cs).initial == m.initial
    decreases |cs|
  {
    if |cs| > 0 {
      InitialScanAgreesWithField(m);
      NextPreservesValid(m, cs[0]);
      RunKeepsInitial(Next(m, cs[0]), cs[1..]);
    }
  }
}
