/**
 * Lifecycle-hook resolution of the state machine library: which hook property each
 * phase of an event looks up (`beforeThisEvent` ... `enterAnyState`), and how the
 * values the before and leave hooks return are combined.
 *
 * A hook is abstracted to the value it returns: `false` (Veto), the string 'async'
 * (Async), or anything else (Proceed). An unbound hook is not called and yields
 * `undefined`, which is Proceed.
 */
module FsmHooks {

  import opened Wrappers

  /** What a hook returned. */
  datatype HookResult = Veto | Async | Proceed

  /** The hooks bound on the machine object, by property name. */
  type Hooks = map<string, HookResult>

  /** The nine lookups of the library, in the order the protocol may run them. */
  datatype Phase =
    | BeforeThisEvent | BeforeAnyEvent
    | LeaveThisState | LeaveAnyState
    | EnterThisState | EnterAnyState
    | ChangeState
    | AfterThisEvent | AfterAnyEvent

  /** One hook call: the phase that made it and the property name of the hook. */
  datatype Call = Call(phase: Phase, hook: string)

  /** The calls a group of phases made and the value the group yields. */
  datatype Ran = Ran(calls: seq<Call>, result: HookResult)

  /** The phases that belong to a state change rather than to the event itself. */
  predicate ChangesState(p: Phase)
  {
    p.LeaveThisState? || p.LeaveAnyState? || p.EnterThisState? || p.EnterAnyState? || p.ChangeState?
  }

  /** The property names a phase looks up, most specific first. */
  function Candidates(p: Phase, name: string, from: string, to: string): (cs: seq<string>)
    ensures 1 <= |cs| <= 2
    ensures |cs| == 2 <==> p.EnterThisState? || p.EnterAnyState? || p.AfterThisEvent? || p.AfterAnyEvent?
    ensures forall i :: 0 <= i < |cs| ==> |cs[i]| >= 2 && cs[i][..2] == "on"
  {
    match p
    case BeforeThisEvent => ["onbefore" + name]
    case BeforeAnyEvent => ["onbeforeevent"]
    case LeaveThisState => ["onleave" + from]
    case LeaveAnyState => ["onleavestate"]
    case EnterThisState => ["onenter" + to, "on" + to]
    case EnterAnyState => ["onenterstate", "onstate"]
    case ChangeState => ["onchangestate"]
    case AfterThisEvent => ["onafter" + name, "on" + name]
    case AfterAnyEvent => ["onafterevent", "onevent"]
  }

  /** The first of `names` that is bound, as `a || b` picks it. */
  function FirstBound(hooks: Hooks, names: seq<string>): (r: Option<string>)
    ensures r.None? <==> forall i :: 0 <= i < |names| ==> names[i] !in hooks
    ensures r.Some? ==> r.value in hooks
    ensures r.Some? ==>
              exists i :: 0 <= i < |names| && names[i] == r.value &&
                forall j :: 0 <= j < i ==> names[j] !in hooks
    decreases |names|
  {
    if names == [] then None
    else if names[0] in hooks then Some(names[0])
    else
      var r := FirstBound(hooks, names[1..]);
      assert forall i :: 0 <= i < |names| - 1 ==> names[1..][i] == names[i + 1];
      r
  }

  /** The hook a phase calls, if any. */
  function HookFor(hooks: Hooks, p: Phase, name: string, from: string, to: string): (r: Option<string>)
    ensures r.Some? ==> r.value in hooks && r.value in Candidates(p, name, from, to)
    ensures r.None? <==> forall c :: c in Candidates(p, name, from, to) ==> c !in hooks
  {
    FirstBound(hooks, Candidates(p, name, from, to))
  }

  /** `doCallback` for one phase. */
  function RunPhase(hooks: Hooks, p: Phase, name: string, from: string, to: string): (r: Ran)
    ensures |r.calls| <= 1
    ensures forall c :: c in r.calls ==> c.phase == p && c.hook in hooks
    ensures r.calls == [] ==> r.result == Proceed
    ensures r.calls != [] ==> r.result == hooks[r.calls[0].hook]
    ensures r.calls == [] <==> HookFor(hooks, p, name, from, to).None?
    ensures r.calls != [] ==> r.calls == [Call(p, HookFor(hooks, p, name, from, to).value)]
  {
    match HookFor(hooks, p, name, from, to)
    case None => Ran([], Proceed)
    case Some(h) => Ran([Call(p, h)], hooks[h])
  }

  /** The strength of a hook's answer: Veto beats Async beats Proceed. */
  function Rank(h: HookResult): nat
  {
    match h
    case Proceed => 0
    case Async => 1
    case Veto => 2
  }

  /** How `leaveState` combines its two answers: `false` from either wins, else
      'async' from either, else nothing. */
  function Combine(specific: HookResult, general: HookResult): (r: HookResult)
    ensures Rank(r) == if Rank(specific) >= Rank(general) then Rank(specific) else Rank(general)
  {
    if specific == Veto || general == Veto then Veto
    else if specific == Async || general == Async then Async
    else Proceed
  }

  /** `beforeEvent`: the event-specific hook, then (unless it vetoed) the generic one;
      the result is Veto if either vetoed and Proceed otherwise. */
  function BeforeEvent(hooks: Hooks, name: string, from: string, to: string): (r: Ran)
    ensures r.result != Async
    ensures r.result == Veto <==>
              RunPhase(hooks, BeforeThisEvent, name, from, to).result == Veto ||
              RunPhase(hooks, BeforeAnyEvent, name, from, to).result == Veto
    ensures var specific := RunPhase(hooks, BeforeThisEvent, name, from, to);
            r.calls == if specific.result == Veto then specific.calls
                       else specific.calls + RunPhase(hooks, BeforeAnyEvent, name, from, to).calls
  {
    var specific := RunPhase(hooks, BeforeThisEvent, name, from, to);
    if specific.result == Veto then Ran(specific.calls, Veto)
    else
      var general := RunPhase(hooks, BeforeAnyEvent, name, from, to);
      Ran(specific.calls + general.calls, if general.result == Veto then Veto else Proceed)
  }

  /** `leaveState`: both leave hooks always run. */
  function LeaveState(hooks: Hooks, name: string, from: string, to: string): (r: Ran)
    ensures r.calls == RunPhase(hooks, LeaveThisState, name, from, to).calls +
                       RunPhase(hooks, LeaveAnyState, name, from, to).calls
  {
    var specific := RunPhase(hooks, LeaveThisState, name, from, to);
    var general := RunPhase(hooks, LeaveAnyState, name, from, to);
    Ran(specific.calls + general.calls, Combine(specific.result, general.result))
  }

  /** Two phases run in order, their answers ignored. */
  function Both(hooks: Hooks, p: Phase, q: Phase, name: string, from: string, to: string): (cs: seq<Call>)
    ensures |cs| <= 2
    ensures forall i :: 0 <= i < |cs| ==> (cs[i].phase == p || cs[i].phase == q) && cs[i].hook in hooks
    ensures |cs| == 2 ==> cs[0].phase == p && cs[1].phase == q
    ensures cs == RunPhase(hooks, p, name, from, to).calls + RunPhase(hooks, q, name, from, to).calls
  {
    RunPhase(hooks, p, name, from, to).calls + RunPhase(hooks, q, name, from, to).calls
  }

  /** `enterState`. */
  function EnterState(hooks: Hooks, name: string, from: string, to: string): (cs: seq<Call>)
    ensures |cs| <= 2
    ensures forall i :: 0 <= i < |cs| ==> cs[i].phase in {EnterThisState, EnterAnyState} && cs[i].hook in hooks
    ensures |cs| == 2 ==> cs[0].phase == EnterThisState && cs[1].phase == EnterAnyState
    ensures cs == RunPhase(hooks, EnterThisState, name, from, to).calls +
                  RunPhase(hooks, EnterAnyState, name, from, to).calls
  {
    Both(hooks, EnterThisState, EnterAnyState, name, from, to)
  }

  /** `afterEvent`. */
  function AfterEvent(hooks: Hooks, name: string, from: string, to: string): (cs: seq<Call>)
    ensures |cs| <= 2
    ensures forall i :: 0 <= i < |cs| ==> cs[i].phase in {AfterThisEvent, AfterAnyEvent} && cs[i].hook in hooks
    ensures |cs| == 2 ==> cs[0].phase == AfterThisEvent && cs[1].phase == AfterAnyEvent
    ensures cs == RunPhase(hooks, AfterThisEvent, name, from, to).calls +
                  RunPhase(hooks, AfterAnyEvent, name, from, to).calls
  {
    Both(hooks, AfterThisEvent, AfterAnyEvent, name, from, to)
  }

  /** `changeState`. */
  function ChangeStateCalls(hooks: Hooks, name: string, from: string, to: string): (cs: seq<Call>)
    ensures cs == [] <==> "onchangestate" !in hooks
    ensures cs != [] ==> cs == [Call(ChangeState, "onchangestate")]
  {
    RunPhase(hooks, ChangeState, name, from, to).calls
  }

  /** Precedence: the after-event and enter-state lookups prefer the fully qualified
      name and fall back to the short `on<name>`; so do the generic after and enter
      lookups (`onafterevent` before `onevent`, `onenterstate` before `onstate`). */
  lemma QualifiedBeforeShort(hooks: Hooks, name: string, from: string, to: string)
    ensures HookFor(hooks, AfterThisEvent, name, from, to) ==
              if "onafter" + name in hooks then Some("onafter" + name)
              else if "on" + name in hooks then Some("on" + name) else None
    ensures HookFor(hooks, EnterThisState, name, from, to) ==
              if "onenter" + to in hooks then Some("onenter" + to)
              else if "on" + to in hooks then Some("on" + to) else None
    ensures HookFor(hooks, AfterAnyEvent, name, from, to) ==
              if "onafterevent" in hooks then Some("onafterevent")
              else if "onevent" in hooks then Some("onevent") else None
    ensures HookFor(hooks, EnterAnyState, name, from, to) ==
              if "onenterstate" in hooks then Some("onenterstate")
              else if "onstate" in hooks then Some("onstate") else None
  {
    forall a: string, b: string
      ensures FirstBound(hooks, [a, b]) ==
                if a in hooks then Some(a) else if b in hooks then Some(b) else None
    {
      assert [a, b][1..] == [b];
      assert [b][1..] == [];
    }
  }

  /** The before, leave and change lookups have one name each and no fallback. */
  lemma NoFallback(hooks: Hooks, p: Phase, name: string, from: string, to: string)
    requires !p.AfterThisEvent? && !p.AfterAnyEvent? && !p.EnterThisState? && !p.EnterAnyState?
    ensures |Candidates(p, name, from, to)| == 1
    ensures Candidates(p, name, from, to)[0] ==
              match p
              case BeforeThisEvent => "onbefore" + name
              case BeforeAnyEvent => "onbeforeevent"
              case LeaveThisState => "onleave" + from
              case LeaveAnyState => "onleavestate"
              case _ => "onchangestate"
    ensures HookFor(hooks, p, name, from, to) ==
              var h := Candidates(p, name, from, to)[0]; if h in hooks then Some(h) else None
  {
  }

  /** Leave-outcome algebra: the order of the two leave hooks does not matter, a veto
      from either decides, and an absent answer changes nothing. */
  lemma CombineLaws(a: HookResult, b: HookResult)
    ensures Combine(a, b) == Combine(b, a)
    ensures Combine(a, Veto) == Veto
    ensures Combine(a, Proceed) == a
    ensures Combine(a, a) == a
  {
  }
}
