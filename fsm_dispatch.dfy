/**
 * The dispatch protocol of the state machine library (`buildEvent`): what firing an
 * event does to the machine's `current` state and outstanding `transition`, which
 * hooks it calls, and which result it returns; and what the one-shot `transition()` /
 * `transition.cancel()` controller does.
 *
 * The protocol is stated here on values (`State`); the class `FsmMachine.Machine`
 * performs it in place and is proved to agree with these functions.
 */
module FsmDispatch {

  import opened Wrappers
  import opened FsmTable
  import opened FsmHooks

  /** What an outstanding asynchronous transition captured. */
  datatype Transition = Transition(event: string, from: string, to: string)

  /** The mutable part of a machine: `fsm.current` and `fsm.transition`. */
  datatype State = State(current: string, transition: Option<Transition>)

  /** The kinds the library passes to `fsm.error`. */
  datatype ErrorKind = InvalidTransition | PendingTransition | InvalidCallback

  /** What firing an event returns: a result code, or the error handler's verdict. */
  datatype Result = Succeeded | NoTransition | Cancelled | Pending | Failed(error: ErrorKind)

  /** The state after a step, what it returned and the hooks it called, in order. */
  datatype Step = Step(state: State, result: Result, calls: seq<Call>)

  /** `StateMachine.Error`: the three codes are 100, 200 and 300. */
  function ErrorCode(e: ErrorKind): (code: int)
    ensures code in {100, 200, 300}
  {
    match e
    case InvalidTransition => 100
    case PendingTransition => 200
    case InvalidCallback => 300
  }

  /** `StateMachine.Result`, and the error code for a failure: results are 1 to 4,
      errors 100 and up. */
  function ResultCode(r: Result): (code: int)
    ensures r.Failed? <==> code >= 100
    ensures !r.Failed? ==> 1 <= code <= 4
  {
    match r
    case Succeeded => 1
    case NoTransition => 2
    case Cancelled => 3
    case Pending => 4
    case Failed(e) => ErrorCode(e)
  }

  /** Every outcome has its own code, so a caller can tell them apart by number. */
  lemma ResultCodesDistinct(a: Result, b: Result)
    ensures ResultCode(a) == ResultCode(b) <==> a == b
  {
  }

  /** `map[from] || map['*'] || from`. */
  function Destination(row: Row, from: string): (to: string)
    ensures to == from || to in row.Values
    ensures from in row && row[from] != "" ==> to == row[from]
  {
    if from in row && row[from] != "" then row[from]
    else if WILDCARD in row && row[WILDCARD] != "" then row[WILDCARD]
    else from
  }

  /** `can(name)`: no transition is outstanding and the event has an exact or a
      wildcard entry for the current state. */
  predicate Can(t: Table, s: State, name: string)
    requires name in t
    ensures s.transition.None? && !Can(t, s, name) ==> Destination(t[name], s.current) == s.current
    ensures Can(t, s, name) && Truthful(t) && s.current != "" ==>
              Destination(t[name], s.current) in t[name].Values
  {
    s.transition.None? && (s.current in t[name] || WILDCARD in t[name])
  }

  /** `transition()`: clears the controller, enters `to`, then runs the enter, change
      and after hooks. */
  function Commit(hooks: Hooks, c: Transition): (r: Step)
    ensures r.state == State(c.to, None) && r.result == Succeeded
  {
    Step(State(c.to, None), Succeeded,
         EnterState(hooks, c.event, c.from, c.to) + ChangeStateCalls(hooks, c.event, c.from, c.to) +
         AfterEvent(hooks, c.event, c.from, c.to))
  }

  /** `transition.cancel()`: clears the controller and runs the after hooks. */
  function Cancel(hooks: Hooks, s: State, c: Transition): (r: (State, seq<Call>))
    ensures r.0 == State(s.current, None)
    ensures forall i :: 0 <= i < |r.1| ==> r.1[i].phase in {AfterThisEvent, AfterAnyEvent}
  {
    (State(s.current, None), AfterEvent(hooks, c.event, c.from, c.to))
  }

  /** Firing event `name` (an event the table has, since only those become methods). */
  function Fire(t: Table, hooks: Hooks, s: State, name: string): (r: Step)
    requires name in t
    ensures r.result == Failed(PendingTransition) <==> s.transition.Some?
    ensures r.result == Failed(InvalidTransition) <==> s.transition.None? && !Can(t, s, name)
    ensures r.result != Failed(InvalidCallback)
    ensures r.result.Failed? ==> r.state == s && r.calls == []
    ensures r.state.current != s.current ==> r.result == Succeeded
    ensures r.result == Succeeded ==>
              r.state == State(Destination(t[name], s.current), None) &&
              Destination(t[name], s.current) != s.current
    ensures r.result == Pending ==>
              r.state == State(s.current, Some(Transition(name, s.current, Destination(t[name], s.current))))
    ensures r.result == NoTransition ==> r.state == s && Destination(t[name], s.current) == s.current
    ensures r.result == Cancelled ==> r.state == s
    ensures r.state.transition.Some? <==> s.transition.Some? || r.result == Pending
  {
    var from := s.current;
    var to := Destination(t[name], from);
    if s.transition.Some? then Step(s, Failed(PendingTransition), [])
    else if !Can(t, s, name) then Step(s, Failed(InvalidTransition), [])
    else
      var before := BeforeEvent(hooks, name, from, to);
      if before.result == Veto then Step(s, Cancelled, before.calls)
      else if from == to then Step(s, NoTransition, before.calls + AfterEvent(hooks, name, from, to))
      else
        var pending := Transition(name, from, to);
        var leave := LeaveState(hooks, name, from, to);
        if leave.result == Veto then Step(s, Cancelled, before.calls + leave.calls)
        else if leave.result == Async then Step(State(from, Some(pending)), Pending, before.calls + leave.calls)
        else
          var commit := Commit(hooks, pending);
          Step(commit.state, Succeeded, before.calls + leave.calls + commit.calls)
  }

  /** In a table `create` builds, resolution takes the exact entry for the current
      state, else the wildcard entry, else the current state itself. */
  lemma ExactBeforeWildcard(t: Table, name: string, from: string)
    requires Truthful(t) && name in t && from != ""
    ensures Destination(t[name], from) ==
              if from in t[name] then t[name][from]
              else if WILDCARD in t[name] then t[name][WILDCARD]
              else from
  {
    assert WILDCARD != "";
  }

  /** A veto from either before hook cancels the event: nothing changes and only the
      before hooks were called. */
  lemma BeforeVetoCancels(t: Table, hooks: Hooks, s: State, name: string)
    requires name in t && Can(t, s, name)
    requires var to := Destination(t[name], s.current);
             RunPhase(hooks, BeforeThisEvent, name, s.current, to).result == Veto ||
             RunPhase(hooks, BeforeAnyEvent, name, s.current, to).result == Veto
    ensures var r := Fire(t, hooks, s, name);
            r.result == Cancelled && r.state == s &&
            forall i :: 0 <= i < |r.calls| ==> r.calls[i].phase in {BeforeThisEvent, BeforeAnyEvent}
  {
    var to := Destination(t[name], s.current);
    var before := BeforeEvent(hooks, name, s.current, to);
    assert before.calls == RunPhase(hooks, BeforeThisEvent, name, s.current, to).calls ||
           before.calls == RunPhase(hooks, BeforeThisEvent, name, s.current, to).calls +
                           RunPhase(hooks, BeforeAnyEvent, name, s.current, to).calls;
  }

  /** Calls none of which belongs to a state change. */
  ghost predicate Quiet(cs: seq<Call>)
  {
    forall i :: 0 <= i < |cs| ==> !ChangesState(cs[i].phase)
  }

  /** A phase that is not part of a state change makes only quiet calls. */
  lemma QuietPhase(hooks: Hooks, p: Phase, name: string, from: string, to: string)
    requires !ChangesState(p)
    ensures Quiet(RunPhase(hooks, p, name, from, to).calls)
  {
    var cs := RunPhase(hooks, p, name, from, to).calls;
    forall i | 0 <= i < |cs|
      ensures !ChangesState(cs[i].phase)
    {
      assert cs[i] in cs;
    }
  }

  /** Quiet calls followed by quiet calls are quiet. */
  lemma QuietConcat(a: seq<Call>, b: seq<Call>)
    requires Quiet(a) && Quiet(b)
    ensures Quiet(a + b)
  {
    forall i | 0 <= i < |a + b|
      ensures !ChangesState((a + b)[i].phase)
    {
      if i < |a| {
        assert (a + b)[i] == a[i];
      } else {
        assert (a + b)[i] == b[i - |a|];
      }
    }
  }

  /** The before and after hooks of an event make only quiet calls. */
  lemma EventHooksQuiet(hooks: Hooks, name: string, x: string)
    ensures Quiet(BeforeEvent(hooks, name, x, x).calls + AfterEvent(hooks, name, x, x))
  {
    var b1 := RunPhase(hooks, BeforeThisEvent, name, x, x).calls;
    var b2 := RunPhase(hooks, BeforeAnyEvent, name, x, x).calls;
    var a1 := RunPhase(hooks, AfterThisEvent, name, x, x).calls;
    var a2 := RunPhase(hooks, AfterAnyEvent, name, x, x).calls;
    assert AfterEvent(hooks, name, x, x) == a1 + a2;
    QuietPhase(hooks, BeforeThisEvent, name, x, x);
    QuietPhase(hooks, BeforeAnyEvent, name, x, x);
    QuietPhase(hooks, AfterThisEvent, name, x, x);
    QuietPhase(hooks, AfterAnyEvent, name, x, x);
    QuietConcat(b1, b2);
    QuietConcat(a1, a2);
    assert Quiet(BeforeEvent(hooks, name, x, x).calls);
    QuietConcat(BeforeEvent(hooks, name, x, x).calls, a1 + a2);
  }

  /** The outcome of a no-op event that no before hook vetoed. */
  lemma FireNoOp(t: Table, hooks: Hooks, s: State, name: string)
    requires name in t && Can(t, s, name)
    requires Destination(t[name], s.current) == s.current
    requires BeforeEvent(hooks, name, s.current, s.current).result != Veto
    ensures Fire(t, hooks, s, name) ==
              Step(s, NoTransition, BeforeEvent(hooks, name, s.current, s.current).calls +
                                    AfterEvent(hooks, name, s.current, s.current))
  {
  }

  /** The declared no-op: when the destination is the current state, the event
      returns NOTRANSITION, changes nothing, and calls no leave, enter or change hook;
      after the before hooks only the after hooks run. */
  lemma NoOpRunsOnlyEventHooks(t: Table, hooks: Hooks, s: State, name: string)
    requires name in t && Can(t, s, name)
    requires Destination(t[name], s.current) == s.current
    requires BeforeEvent(hooks, name, s.current, s.current).result != Veto
    ensures var r := Fire(t, hooks, s, name);
            r.result == NoTransition && r.state == s &&
            r.calls == BeforeEvent(hooks, name, s.current, s.current).calls +
                       AfterEvent(hooks, name, s.current, s.current) &&
            forall i :: 0 <= i < |r.calls| ==> !ChangesState(r.calls[i].phase)
  {
    FireNoOp(t, hooks, s, name);
    EventHooksQuiet(hooks, name, s.current);
    assert Quiet(Fire(t, hooks, s, name).calls);
  }

  /** The state in which an event reaches its leave phase: it is legal, it is a real
      transition, and neither before hook vetoed it. */
  ghost predicate ReachesLeave(t: Table, hooks: Hooks, s: State, name: string)
    requires name in t
  {
    && Can(t, s, name)
    && Destination(t[name], s.current) != s.current
    && BeforeEvent(hooks, name, s.current, Destination(t[name], s.current)).result != Veto
  }

  /** The two leave hooks' answers for the event. */
  function LeaveAnswers(t: Table, hooks: Hooks, s: State, name: string): (HookResult, HookResult)
    requires name in t
  {
    var to := Destination(t[name], s.current);
    (RunPhase(hooks, LeaveThisState, name, s.current, to).result,
     RunPhase(hooks, LeaveAnyState, name, s.current, to).result)
  }

  /** The calls of an event that reaches its leave phase: the before calls and the
      leave calls, then the commit's calls unless a leave hook vetoed or suspended. */
  lemma FireCallsAtLeave(t: Table, hooks: Hooks, s: State, name: string)
    requires name in t && ReachesLeave(t, hooks, s, name)
    ensures var to := Destination(t[name], s.current);
            var head := BeforeEvent(hooks, name, s.current, to).calls + LeaveState(hooks, name, s.current, to).calls;
            var answer := LeaveState(hooks, name, s.current, to).result;
            Fire(t, hooks, s, name).calls ==
              if answer == Veto || answer == Async then head
              else head + Commit(hooks, Transition(name, s.current, to)).calls
  {
    var to := Destination(t[name], s.current);
    var before := BeforeEvent(hooks, name, s.current, to);
    var leave := LeaveState(hooks, name, s.current, to);
    assert s.transition.None? && before.result != Veto && s.current != to;
    if leave.result == Veto || leave.result == Async {
      assert Fire(t, hooks, s, name).calls == before.calls + leave.calls;
    }
  }

  /** Both leave hooks always run: the calls of an event that reaches its leave phase
      begin with the before calls and then the leave calls (the specific leave hook's,
      then the generic one's, by `LeaveState`), whatever the hooks answer. */
  lemma LeaveHooksBothRun(t: Table, hooks: Hooks, s: State, name: string)
    requires name in t && ReachesLeave(t, hooks, s, name)
    ensures var to := Destination(t[name], s.current);
            var head := BeforeEvent(hooks, name, s.current, to).calls + LeaveState(hooks, name, s.current, to).calls;
            var r := Fire(t, hooks, s, name);
            |head| <= |r.calls| && r.calls[..|head|] == head
  {
    FireCallsAtLeave(t, hooks, s, name);
    var to := Destination(t[name], s.current);
    PrefixOfEither(BeforeEvent(hooks, name, s.current, to).calls + LeaveState(hooks, name, s.current, to).calls,
                   Commit(hooks, Transition(name, s.current, to)).calls, Fire(t, hooks, s, name).calls);
  }

  /** A sequence that is `head`, or `head` followed by more, begins with `head`. */
  lemma PrefixOfEither(head: seq<Call>, rest: seq<Call>, cs: seq<Call>)
    requires cs == head || cs == head + rest
    ensures |head| <= |cs| && cs[..|head|] == head
  {
    assert (head + rest)[..|head|] == head;
  }

  /** A `false` from either leave hook cancels: nothing changes, the controller that
      was prepared is cleared again. */
  lemma LeaveVetoCancels(t: Table, hooks: Hooks, s: State, name: string)
    requires name in t && ReachesLeave(t, hooks, s, name)
    requires LeaveAnswers(t, hooks, s, name).0 == Veto || LeaveAnswers(t, hooks, s, name).1 == Veto
    ensures Fire(t, hooks, s, name).result == Cancelled
    ensures Fire(t, hooks, s, name).state == s
  {
    var to := Destination(t[name], s.current);
    var a := LeaveAnswers(t, hooks, s, name);
    assert LeaveState(hooks, name, s.current, to).result == Combine(a.0, a.1);
  }

  /** Otherwise an 'async' from either leave hook suspends: the result is PENDING and
      the machine keeps one controller for this very transition. */
  lemma LeaveAsyncSuspends(t: Table, hooks: Hooks, s: State, name: string)
    requires name in t && ReachesLeave(t, hooks, s, name)
    requires LeaveAnswers(t, hooks, s, name).0 != Veto && LeaveAnswers(t, hooks, s, name).1 != Veto
    requires LeaveAnswers(t, hooks, s, name).0 == Async || LeaveAnswers(t, hooks, s, name).1 == Async
    ensures Fire(t, hooks, s, name).result == Pending
    ensures Fire(t, hooks, s, name).state ==
              State(s.current, Some(Transition(name, s.current, Destination(t[name], s.current))))
  {
    var to := Destination(t[name], s.current);
    var a := LeaveAnswers(t, hooks, s, name);
    assert LeaveState(hooks, name, s.current, to).result == Combine(a.0, a.1);
  }

  /** Otherwise the transition commits at once: the machine enters the destination,
      no controller is left, and the enter, change and after hooks follow the leave
      hooks. */
  lemma LeaveProceedCommits(t: Table, hooks: Hooks, s: State, name: string)
    requires name in t && ReachesLeave(t, hooks, s, name)
    requires LeaveAnswers(t, hooks, s, name).0 == Proceed && LeaveAnswers(t, hooks, s, name).1 == Proceed
    ensures var to := Destination(t[name], s.current);
            var r := Fire(t, hooks, s, name);
            r.result == Succeeded && r.state == State(to, None) &&
            r.calls == BeforeEvent(hooks, name, s.current, to).calls +
                       LeaveState(hooks, name, s.current, to).calls +
                       Commit(hooks, Transition(name, s.current, to)).calls
  {
    var to := Destination(t[name], s.current);
    var a := LeaveAnswers(t, hooks, s, name);
    assert LeaveState(hooks, name, s.current, to).result == Combine(a.0, a.1);
  }

  /** While a transition is outstanding, every event fails with PENDING_TRANSITION,
      calls no hook and changes nothing, whichever event it is. */
  lemma PendingBlocksEverything(t: Table, hooks: Hooks, s: State, name: string, other: string)
    requires name in t && other in t
    requires Fire(t, hooks, s, name).result == Pending
    ensures var p := Fire(t, hooks, s, name).state;
            Fire(t, hooks, p, other) == Step(p, Failed(PendingTransition), [])
  {
  }

  /** Completing a suspended transition later has the effect the synchronous commit
      would have had: the machine is in the destination with no controller, and the
      enter, change and after hooks run once each, in that order. */
  lemma SuspendThenCommit(t: Table, hooks: Hooks, s: State, name: string)
    requires name in t
    requires Fire(t, hooks, s, name).result == Pending
    ensures var p := Fire(t, hooks, s, name).state;
            var to := Destination(t[name], s.current);
            var c := Commit(hooks, p.transition.value);
            c.state == State(to, None) && c.state.current != s.current && c.result == Succeeded &&
            c.calls == EnterState(hooks, name, s.current, to) + ChangeStateCalls(hooks, name, s.current, to) +
                       AfterEvent(hooks, name, s.current, to)
  {
  }

  /** Abandoning a suspended transition gives back exactly the state the event found,
      and runs only the after hooks. */
  lemma SuspendThenCancel(t: Table, hooks: Hooks, s: State, name: string)
    requires name in t
    requires Fire(t, hooks, s, name).result == Pending
    ensures var p := Fire(t, hooks, s, name).state;
            var c := Cancel(hooks, p, p.transition.value);
            c.0 == s &&
            c.1 == AfterEvent(hooks, name, s.current, Destination(t[name], s.current)) &&
            forall i :: 0 <= i < |c.1| ==> c.1[i].phase in {AfterThisEvent, AfterAnyEvent}
  {
    var p := Fire(t, hooks, s, name).state;
    var to := Destination(t[name], s.current);
    var a1 := RunPhase(hooks, AfterThisEvent, name, s.current, to);
    var a2 := RunPhase(hooks, AfterAnyEvent, name, s.current, to);
    forall i | 0 <= i < |a1.calls + a2.calls|
      ensures (a1.calls + a2.calls)[i].phase in {AfterThisEvent, AfterAnyEvent}
    {
      assert (a1.calls + a2.calls)[i] in a1.calls || (a1.calls + a2.calls)[i] in a2.calls;
    }
  }

  /** Hooks that never veto and never suspend. */
  ghost predicate Compliant(hooks: Hooks)
  {
    forall h :: h in hooks ==> hooks[h] == Proceed
  }

  /** A compliant hook, when one is bound at all, lets the protocol go on. */
  lemma CompliantProceeds(hooks: Hooks, p: Phase, name: string, from: string, to: string)
    requires Compliant(hooks)
    ensures RunPhase(hooks, p, name, from, to).result == Proceed
  {
    var r := RunPhase(hooks, p, name, from, to);
    assert r.calls != [] ==> r.calls[0] in r.calls;
  }

  /** With compliant hooks a legal event always completes synchronously. */
  lemma CompliantFire(t: Table, hooks: Hooks, s: State, name: string)
    requires name in t && Compliant(hooks) && Can(t, s, name)
    ensures var to := Destination(t[name], s.current);
            Fire(t, hooks, s, name).state == State(to, None) &&
            Fire(t, hooks, s, name).result == if to == s.current then NoTransition else Succeeded
  {
    var to := Destination(t[name], s.current);
    CompliantProceeds(hooks, BeforeThisEvent, name, s.current, to);
    CompliantProceeds(hooks, BeforeAnyEvent, name, s.current, to);
    CompliantProceeds(hooks, LeaveThisState, name, s.current, to);
    CompliantProceeds(hooks, LeaveAnyState, name, s.current, to);
  }

  /** A state name the table declares: 'none' or some entry's destination. */
  ghost predicate Declared(t: Table, x: string)
  {
    x == NONE_STATE || exists n, k :: n in t && k in t[n] && t[n][k] == x
  }

  /** The invariant of a machine: it is in a non-empty declared state, and an
      outstanding controller leaves that state for a declared one by a known event. */
  ghost predicate Consistent(t: Table, s: State)
  {
    && s.current != "" && Declared(t, s.current)
    && (s.transition.Some? ==>
          var c := s.transition.value;
          c.event in t && c.from == s.current && c.to != "" && Declared(t, c.to))
  }

  /** Resolution never leaves the declared states. */
  lemma DestinationDeclared(t: Table, name: string, from: string)
    requires name in t && from != "" && Declared(t, from)
    ensures Destination(t[name], from) != "" && Declared(t, Destination(t[name], from))
  {
    var row := t[name];
    if from in row && row[from] != "" {
      assert t[name][from] == Destination(row, from);
    } else if WILDCARD in row && row[WILDCARD] != "" {
      assert t[name][WILDCARD] == Destination(row, from);
    }
  }

  /** Firing any event keeps the invariant. */
  lemma FireKeepsConsistent(t: Table, hooks: Hooks, s: State, name: string)
    requires name in t && Consistent(t, s)
    ensures Consistent(t, Fire(t, hooks, s, name).state)
  {
    DestinationDeclared(t, name, s.current);
  }

  /** Committing the outstanding controller keeps the invariant. */
  lemma CommitKeepsConsistent(t: Table, hooks: Hooks, s: State)
    requires Consistent(t, s) && s.transition.Some?
    ensures Consistent(t, Commit(hooks, s.transition.value).state)
  {
  }

  /** Cancelling the outstanding controller keeps the invariant. */
  lemma CancelKeepsConsistent(t: Table, hooks: Hooks, s: State)
    requires Consistent(t, s) && s.transition.Some?
    ensures Consistent(t, Cancel(hooks, s, s.transition.value).0)
  {
  }

  /** The library's quirk: a descriptor with neither `from` nor `to` stores the
      wildcard self-entry '*' -> '*', so from any state without an exact entry the
      event resolves to the state named '*', and with compliant hooks it moves there. */
  lemma WildcardWithoutTarget(t: Table, e: Descriptor, hooks: Hooks, s: State)
    requires e.from == Unset && e.to.None?
    requires s.transition.None? && s.current != WILDCARD
    requires Lookup(Add(t, e), e.name, s.current).None? && Compliant(hooks)
    ensures Lookup(Add(t, e), e.name, WILDCARD) == Some(WILDCARD)
    ensures Destination(Add(t, e)[e.name], s.current) == WILDCARD
    ensures Fire(Add(t, e), hooks, s, e.name).state == State(WILDCARD, None)
    ensures Fire(Add(t, e), hooks, s, e.name).result == Succeeded
  {
    var t' := Add(t, e);
    assert Sources(e) == [WILDCARD];
    assert Lookup(t', e.name, WILDCARD) == Some(WILDCARD);
    CompliantFire(t', hooks, s, e.name);
  }
}
