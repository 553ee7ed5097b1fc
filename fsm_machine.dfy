/**
 * A machine built by `StateMachine.create`: the object whose `current` and
 * `transition` the event methods update in place, with its query surface
 * (`is`, `can`, `cannot`, `isFinished`).
 */
module FsmMachine {

  import opened Wrappers
  import opened FsmTable
  import opened FsmHooks
  import opened FsmDispatch

  /** The argument of `is`: one state name or an array of names. */
  datatype Query = Name(state: string) | Names(states: seq<string>)

  /** The configuration `create` reads: `initial`, `terminal`, `final` and `events`. */
  datatype Config = Config(initial: Initial, terminal: Option<Query>, final: Option<Query>, events: seq<Descriptor>)

  /** JavaScript truthiness of an optional query: an array always counts, a name
      only when non-empty. */
  predicate QueryTruthy(q: Option<Query>)
  {
    q.Some? && (q.value.Names? || q.value.state != "")
  }

  /** `cfg.terminal || cfg['final']`. */
  function Terminal(cfg: Config): (q: Option<Query>)
    ensures q == cfg.terminal || q == cfg.final
    ensures q != cfg.terminal ==> !QueryTruthy(cfg.terminal)
  {
    if QueryTruthy(cfg.terminal) then cfg.terminal else cfg.final
  }

  /** The states a query stands for. */
  function StatesOf(q: Query): seq<string>
  {
    match q
    case Name(x) => [x]
    case Names(xs) => xs
  }

  /** The state `create` leaves the machine in: 'none', after which the startup event
      fires unless it is deferred. */
  function Launch(cfg: Config, hooks: Hooks): (s: State)
    ensures s.current == NONE_STATE || (cfg.initial.Initial? && !cfg.initial.defer && s.transition.None?)
    ensures s.transition.Some? ==> cfg.initial.Initial? && !cfg.initial.defer
  {
    var t := Build(cfg.initial, cfg.events);
    var s := State(NONE_STATE, None);
    if cfg.initial.Initial? && !cfg.initial.defer then
      StartupDeclared(cfg.initial, cfg.events);
      FsmDispatch.Fire(t, hooks, s, StartupEvent(cfg.initial)).state
    else s
  }

  /** The hooks `create` runs: those of the startup event when it fires, none when it
      is deferred or absent. */
  function LaunchCalls(cfg: Config, hooks: Hooks): (cs: seq<Call>)
    ensures cs != [] ==> cfg.initial.Initial? && !cfg.initial.defer
  {
    var t := Build(cfg.initial, cfg.events);
    if cfg.initial.Initial? && !cfg.initial.defer then
      StartupDeclared(cfg.initial, cfg.events);
      FsmDispatch.Fire(t, hooks, State(NONE_STATE, None), StartupEvent(cfg.initial)).calls
    else []
  }

  /** Unless it is deferred, the startup event has fired when `create` returns, so the
      machine is in its initial state (provided the hooks let it through and no
      configured descriptor of the same name rewrites 'none'). */
  lemma LaunchReachesInitial(cfg: Config, hooks: Hooks, st: string)
    requires cfg.initial.Initial? && !cfg.initial.defer && cfg.initial.state == Some(st) && st != ""
    requires LastWriter(cfg.events, StartupEvent(cfg.initial), NONE_STATE).None?
    requires Compliant(hooks)
    ensures Launch(cfg, hooks) == State(st, None)
  {
    var t := Build(cfg.initial, cfg.events);
    var name := StartupEvent(cfg.initial);
    StartupEntry(cfg.initial, cfg.events);
    BuildTruthful(cfg.initial, cfg.events);
    assert Lookup(t, name, NONE_STATE) == Some(st);
    ExactBeforeWildcard(t, name, NONE_STATE);
    CompliantFire(t, hooks, State(NONE_STATE, None), name);
  }

  /** The startup event that `create` fires runs the whole protocol from 'none' to the
      initial state: the before hooks, both leave hooks, then the enter, change and
      after hooks (for instance `onenter<initial>` and `onafter<startup event>`). */
  lemma LaunchRunsStartupHooks(cfg: Config, hooks: Hooks, st: string)
    requires cfg.initial.Initial? && !cfg.initial.defer && cfg.initial.state == Some(st) && st != ""
    requires st != NONE_STATE
    requires LastWriter(cfg.events, StartupEvent(cfg.initial), NONE_STATE).None?
    requires Compliant(hooks)
    ensures var name := StartupEvent(cfg.initial);
            LaunchCalls(cfg, hooks) ==
              BeforeEvent(hooks, name, NONE_STATE, st).calls + LeaveState(hooks, name, NONE_STATE, st).calls +
              Commit(hooks, Transition(name, NONE_STATE, st)).calls
  {
    var t := Build(cfg.initial, cfg.events);
    var name := StartupEvent(cfg.initial);
    var s := State(NONE_STATE, None);
    StartupEntry(cfg.initial, cfg.events);
    BuildTruthful(cfg.initial, cfg.events);
    assert Lookup(t, name, NONE_STATE) == Some(st);
    ExactBeforeWildcard(t, name, NONE_STATE);
    CompliantProceeds(hooks, BeforeThisEvent, name, NONE_STATE, st);
    CompliantProceeds(hooks, BeforeAnyEvent, name, NONE_STATE, st);
    CompliantProceeds(hooks, LeaveThisState, name, NONE_STATE, st);
    CompliantProceeds(hooks, LeaveAnyState, name, NONE_STATE, st);
    LeaveProceedCommits(t, hooks, s, name);
  }

  /** Without `cfg.initial` the machine stays in 'none' until fired, and an event can
      leave 'none' exactly when some descriptor of that name lists 'none' or lists no
      source at all (the wildcard); otherwise it is refused and nothing changes. */
  lemma NoInitialLeavesNone(events: seq<Descriptor>, name: string, hooks: Hooks)
    requires name in Build(NoInitial, events)
    ensures var t := Build(NoInitial, events);
            var s := State(NONE_STATE, None);
            FsmDispatch.Can(t, s, name) <==>
              LastWriter(events, name, NONE_STATE).Some? || LastWriter(events, name, WILDCARD).Some?
    ensures var t := Build(NoInitial, events);
            var s := State(NONE_STATE, None);
            !FsmDispatch.Can(t, s, name) ==> FsmDispatch.Fire(t, hooks, s, name) == Step(s, Failed(InvalidTransition), [])
  {
    AddAllLookup(map[], events, name, NONE_STATE);
    AddAllLookup(map[], events, name, WILDCARD);
  }

  /** A deferred startup leaves the machine in 'none'; firing the startup event later
      then reaches the initial state. */
  lemma DeferredLaunch(cfg: Config, hooks: Hooks, st: string)
    requires cfg.initial.Initial? && cfg.initial.defer && cfg.initial.state == Some(st) && st != ""
    requires LastWriter(cfg.events, StartupEvent(cfg.initial), NONE_STATE).None?
    requires Compliant(hooks)
    ensures Launch(cfg, hooks) == State(NONE_STATE, None)
    ensures StartupEvent(cfg.initial) in Build(cfg.initial, cfg.events)
    ensures FsmDispatch.Fire(Build(cfg.initial, cfg.events), hooks, Launch(cfg, hooks),
                             StartupEvent(cfg.initial)).state == State(st, None)
  {
    var t := Build(cfg.initial, cfg.events);
    var name := StartupEvent(cfg.initial);
    StartupEntry(cfg.initial, cfg.events);
    BuildTruthful(cfg.initial, cfg.events);
    ExactBeforeWildcard(t, name, NONE_STATE);
    CompliantFire(t, hooks, State(NONE_STATE, None), name);
  }

  class Machine {
    /** The compiled transition table, captured by every event method. */
    const table: Table
    /** The hooks bound on the machine object (the target's and `cfg.callbacks`); the
        caller may rebind them between events, as it may any property of the object. */
    var hooks: Hooks
    /** The hooks `create` ran while firing the startup event. */
    ghost var startupCalls: seq<Call>
    /** The terminal state or states. */
    const terminal: Option<Query>
    /** `fsm.current`. */
    var current: string
    /** `fsm.transition`: the outstanding controller, if any. */
    var transition: Option<Transition>

    /** The machine invariant of `FsmDispatch.Consistent`. */
    ghost predicate Valid()
      reads this
    {
      Consistent(table, State(current, transition))
    }

    /** `StateMachine.create(cfg, target)`. */
    constructor (cfg: Config, hooks: Hooks)
      ensures table == Build(cfg.initial, cfg.events)
      ensures this.hooks == hooks && terminal == Terminal(cfg)
      ensures State(current, transition) == Launch(cfg, hooks)
      ensures startupCalls == LaunchCalls(cfg, hooks)
      ensures Valid()
    {
      var t := BuildTable(cfg.initial, cfg.events);
      table := t;
      this.hooks := hooks;
      terminal := Terminal(cfg);
      current := NONE_STATE;
      transition := None;
      startupCalls := [];
      new;
      if cfg.initial.Initial? && !cfg.initial.defer {
        StartupDeclared(cfg.initial, cfg.events);
        var _, calls := Fire(StartupEvent(cfg.initial));
        startupCalls := calls;
      }
    }

    /** `is(q)`: the current state is the named state, or one of the named states. */
    function Is(q: Query): (r: bool)
      reads this
      ensures r <==> current in StatesOf(q)
    {
      match q
      case Name(x) => current == x
      case Names(xs) => current in xs
    }

    /** `isFinished()`: the machine is in a terminal state; never without one. */
    function IsFinished(): (r: bool)
      reads this
      ensures r <==> terminal.Some? && current in StatesOf(terminal.value)
    {
      terminal.Some? && Is(terminal.value)
    }

    /** `can(name)`: exactly when firing the event now would not fail. */
    function Can(name: string): (r: bool)
      reads this
      requires name in table
      ensures r <==> !FsmDispatch.Fire(table, hooks, State(current, transition), name).result.Failed?
    {
      FsmDispatch.Can(table, State(current, transition), name)
    }

    /** `cannot(name)`: exactly when firing the event now would fail. */
    function Cannot(name: string): (r: bool)
      reads this
      requires name in table
      ensures r <==> FsmDispatch.Fire(table, hooks, State(current, transition), name).result.Failed?
    {
      !Can(name)
    }

    /** The event method `fsm[name]()` that `buildEvent` makes. */
    method Fire(name: string) returns (result: Result, calls: seq<Call>)
      requires name in table && Valid()
      modifies this`current, this`transition
      ensures Valid()
      ensures Step(State(current, transition), result, calls) ==
                FsmDispatch.Fire(table, hooks, old(State(current, transition)), name)
    {
      ghost var s := State(current, transition);
      FireKeepsConsistent(table, hooks, s, name);
      var from := current;
      var to := Destination(table[name], from);
      if transition.Some? {
        return Failed(PendingTransition), [];
      }
      if Cannot(name) {
        return Failed(InvalidTransition), [];
      }
      var before := BeforeEvent(hooks, name, from, to);
      if before.result == Veto {
        return Cancelled, before.calls;
      }
      if from == to {
        return NoTransition, before.calls + AfterEvent(hooks, name, from, to);
      }
      DestinationDeclared(table, name, from);
      transition := Some(Transition(name, from, to));
      var leave := LeaveState(hooks, name, from, to);
      if leave.result == Veto {
        transition := None;
        return Cancelled, before.calls + leave.calls;
      }
      if leave.result == Async {
        return Pending, before.calls + leave.calls;
      }
      var rest;
      result, rest := CompleteTransition();
      calls := before.calls + leave.calls + rest;
    }

    /** `fsm.transition()`: completes the outstanding transition. */
    method CompleteTransition() returns (result: Result, calls: seq<Call>)
      requires Valid() && transition.Some?
      modifies this`current, this`transition
      ensures Valid()
      ensures Step(State(current, transition), result, calls) == FsmDispatch.Commit(hooks, old(transition).value)
    {
      var c := transition.value;
      transition := None;
      current := c.to;
      calls := EnterState(hooks, c.event, c.from, c.to) + ChangeStateCalls(hooks, c.event, c.from, c.to) +
               AfterEvent(hooks, c.event, c.from, c.to);
      result := Succeeded;
    }

    /** `fsm.transition.cancel()`: abandons the outstanding transition. */
    method CancelTransition() returns (calls: seq<Call>)
      requires Valid() && transition.Some?
      modifies this`current, this`transition
      ensures Valid()
      ensures (State(current, transition), calls) ==
                FsmDispatch.Cancel(hooks, old(State(current, transition)), old(transition).value)
      ensures current == old(current) && transition.None?
    {
      var c := transition.value;
      transition := None;
      calls := AfterEvent(hooks, c.event, c.from, c.to);
    }
  }
}
