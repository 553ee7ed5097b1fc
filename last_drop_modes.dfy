/**
 * The game's top-level modes (`cfg.state` of last-drop.js), run by the state machine
 * of `FsmMachine`: booting -> menu -> starting -> loading -> playing -> won/lost.
 *
 * The game object that `create` augments binds no `on...` hook, so the results hold
 * for every compliant set of hooks (none vetoes, none suspends), the empty one included.
 */
module LastDropModes {

  import opened Wrappers
  import opened FsmTable
  import opened FsmHooks
  import opened FsmDispatch
  import opened FsmMachine

  /** `cfg.state.events`. */
  const MODE_EVENTS: seq<Descriptor> := [
    Descriptor("ready", One("booting"), Some("menu")),
    Descriptor("start", One("menu"), Some("starting")),
    Descriptor("load", Many(["starting", "playing"]), Some("loading")),
    Descriptor("play", One("loading"), Some("playing")),
    Descriptor("help", Many(["loading", "playing"]), Some("help")),
    Descriptor("resume", One("help"), Some("playing")),
    Descriptor("lose", One("playing"), Some("lost")),
    Descriptor("quit", One("playing"), Some("lost")),
    Descriptor("win", One("playing"), Some("won")),
    Descriptor("finish", Many(["won", "lost"]), Some("menu"))
  ]

  /** `cfg.state`: `initial` is the plain string 'booting'. */
  const MODES: Config := Config(FromString("booting"), None, None, MODE_EVENTS)

  /** The table `create` compiles from `cfg.state`. */
  const MODE_TABLE: Table := Build(MODES.initial, MODES.events)

  /** Reference definition: the game's mode chart, event by event, as the comments of
      `cfg.state` describe it. `None` means the event is not allowed in that mode. */
  function Chart(mode: string, event: string): Option<string>
  {
    match event
    case "ready" => if mode == "booting" then Some("menu") else None
    case "start" => if mode == "menu" then Some("starting") else None
    case "load" => if mode == "starting" || mode == "playing" then Some("loading") else None
    case "play" => if mode == "loading" then Some("playing") else None
    case "help" => if mode == "loading" || mode == "playing" then Some("help") else None
    case "resume" => if mode == "help" then Some("playing") else None
    case "lose" => if mode == "playing" then Some("lost") else None
    case "quit" => if mode == "playing" then Some("lost") else None
    case "win" => if mode == "playing" then Some("won") else None
    case "finish" => if mode == "won" || mode == "lost" then Some("menu") else None
    case _ => None
  }

  /** The event names of `cfg.state`. */
  predicate IsModeEvent(event: string)
  {
    event in {"ready", "start", "load", "play", "help", "resume", "lose", "quit", "win", "finish"}
  }

  /** The ten descriptors have ten different names, none of them 'startup'; each has
      a non-empty `to` that is not among its sources, and none lists the wildcard or
      the empty name. */
  lemma ModeNames()
    ensures DistinctNames(MODE_EVENTS)
    ensures !Declares(MODE_EVENTS, DEFAULT_STARTUP)
    ensures forall k :: 0 <= k < |MODE_EVENTS| ==> WellFormed(MODE_EVENTS[k])
  {
    ModesDistinct();
    ModesSkipStartup();
    ModesWellFormed();
  }

  lemma ModesDistinct()
    ensures DistinctNames(MODE_EVENTS)
  {
  }

  lemma ModesSkipStartup()
    ensures !Declares(MODE_EVENTS, DEFAULT_STARTUP)
  {
  }

  lemma ModesWellFormed()
    ensures forall k :: 0 <= k < |MODE_EVENTS| ==> WellFormed(MODE_EVENTS[k])
  {
  }

  /** A descriptor of the shape all of `cfg.state`'s have. */
  predicate WellFormed(e: Descriptor)
  {
    Truthy(e.to) && e.to.value !in Sources(e) && WILDCARD !in Sources(e) && "" !in Sources(e)
  }

  /** With distinct names, none of them the startup event's, the row a configured
      event gets over a booting seed is its descriptor's entries and nothing else. */
  lemma RowOf(es: seq<Descriptor>, k: nat, mode: string)
    requires DistinctNames(es) && !Declares(es, DEFAULT_STARTUP) && k < |es| && WellFormed(es[k])
    ensures es[k].name in Build(MODES.initial, es)
    ensures Lookup(Build(MODES.initial, es), es[k].name, mode) ==
              if mode in Sources(es[k]) then es[k].to else None
  {
    DistinctLookup(MODES.initial, es, k, mode);
    AddClosedForm(map[], StartupDescriptor(MODES.initial));
    assert Seed(MODES.initial).Keys == {DEFAULT_STARTUP};
    assert es[k].name != DEFAULT_STARTUP;
  }

  /** Firing configured event `k` from `mode` with compliant hooks: when the descriptor
      lists the mode the machine moves to the descriptor's `to`, otherwise the event is
      refused with INVALID_TRANSITION and nothing changes. */
  lemma FireOf(es: seq<Descriptor>, k: nat, mode: string, hooks: Hooks)
    requires DistinctNames(es) && !Declares(es, DEFAULT_STARTUP) && k < |es| && WellFormed(es[k])
    requires Compliant(hooks)
    ensures es[k].name in Build(MODES.initial, es)
    ensures var r := FsmDispatch.Fire(Build(MODES.initial, es), hooks, State(mode, None), es[k].name);
            if mode in Sources(es[k])
            then r.state == State(es[k].to.value, None) && r.result == Succeeded
            else r.state == State(mode, None) && r.result == Failed(InvalidTransition)
  {
    var e := es[k];
    var t := Build(MODES.initial, es);
    RowOf(es, k, mode);
    RowOf(es, k, WILDCARD);
    if mode in Sources(e) {
      assert mode in t[e.name];
      BuildTruthful(MODES.initial, es);
      ExactBeforeWildcard(t, e.name, mode);
      CompliantFire(t, hooks, State(mode, None), e.name);
    } else {
      assert mode !in t[e.name] && WILDCARD !in t[e.name];
    }
  }

  /** The index of a configured event in `cfg.state.events`. */
  function IndexOf(event: string): (k: nat)
    requires IsModeEvent(event)
    ensures k < |MODE_EVENTS| && MODE_EVENTS[k].name == event
  {
    match event
    case "ready" => 0 case "start" => 1 case "load" => 2 case "play" => 3 case "help" => 4
    case "resume" => 5 case "lose" => 6 case "quit" => 7 case "win" => 8 case _ => 9
  }

  /** The descriptors say what the chart says. */
  lemma ChartOf(event: string, mode: string)
    requires IsModeEvent(event)
    ensures var e := MODE_EVENTS[IndexOf(event)];
            Chart(mode, event) == if mode in Sources(e) then e.to else None
  {
  }

  /** The compiled machine follows the chart: from any mode, every event of `cfg.state`
      either moves to the chart's next mode or is refused and leaves the mode alone. */
  lemma FollowsChart(mode: string, event: string, hooks: Hooks)
    requires IsModeEvent(event) && Compliant(hooks)
    ensures event in MODE_TABLE
    ensures var r := FsmDispatch.Fire(MODE_TABLE, hooks, State(mode, None), event);
            match Chart(mode, event)
            case Some(next) => r.state == State(next, None) && r.result == Succeeded
            case None => r.state == State(mode, None) && r.result == Failed(InvalidTransition)
  {
    ModeNames();
    var k := IndexOf(event);
    ChartOf(event, mode);
    FireOf(MODE_EVENTS, k, mode, hooks);
  }

  /** `create(cfg.state, game)` leaves the game booting, with no transition pending. */
  lemma Boots(hooks: Hooks)
    requires Compliant(hooks)
    ensures Launch(MODES, hooks) == State("booting", None)
  {
    ModeNames();
    UndeclaredWriter(MODE_EVENTS, DEFAULT_STARTUP, NONE_STATE);
    LaunchReachesInitial(MODES, hooks, "booting");
  }

  /** Won and lost are dead ends except for 'finish', which returns to the menu. */
  lemma OnlyFinishLeavesTheEnd(mode: string, event: string)
    requires mode == "won" || mode == "lost"
    ensures Chart(mode, event).Some? <==> event == "finish"
    ensures Chart(mode, "finish") == Some("menu")
  {
  }

  /** Over a booting seed, a startup event no descriptor redeclares keeps its one
      entry: from 'none' to 'booting', and from nowhere else. */
  lemma StartupRowOf(es: seq<Descriptor>, src: string)
    requires !Declares(es, DEFAULT_STARTUP)
    ensures DEFAULT_STARTUP in Build(MODES.initial, es)
    ensures Lookup(Build(MODES.initial, es), DEFAULT_STARTUP, src) ==
              if src == NONE_STATE then Some("booting") else None
  {
    StartupDeclared(MODES.initial, es);
    UndeclaredWriter(es, DEFAULT_STARTUP, src);
    AddAllLookup(Seed(MODES.initial), es, DEFAULT_STARTUP, src);
    assert Sources(StartupDescriptor(MODES.initial)) == [NONE_STATE];
  }

  /** Over a booting seed the event names are the startup event and the declared ones. */
  lemma NamesOf(es: seq<Descriptor>, event: string)
    ensures event in Build(MODES.initial, es) <==> event == DEFAULT_STARTUP || Declares(es, event)
  {
    AddAllNames(Seed(MODES.initial), es, event);
    assert Seed(MODES.initial).Keys == {DEFAULT_STARTUP};
  }

  /** The names `cfg.state` declares are exactly the ten mode events. */
  lemma DeclaredModes(event: string)
    ensures Declares(MODE_EVENTS, event) <==> IsModeEvent(event)
  {
    if IsModeEvent(event) {
      assert MODE_EVENTS[IndexOf(event)].name == event;
    }
    if Declares(MODE_EVENTS, event) {
      var i :| 0 <= i < |MODE_EVENTS| && MODE_EVENTS[i].name == event;
      assert i < 10;
    }
  }

  /** The compiled table has exactly the startup event and the ten mode events; the
      startup event leads from 'none' to 'booting' and from nowhere else. */
  lemma ModeTableNames(event: string, src: string)
    ensures event in MODE_TABLE <==> event == DEFAULT_STARTUP || IsModeEvent(event)
    ensures DEFAULT_STARTUP in MODE_TABLE
    ensures Lookup(MODE_TABLE, DEFAULT_STARTUP, src) == if src == NONE_STATE then Some("booting") else None
  {
    ModeNames();
    NamesOf(MODE_EVENTS, event);
    DeclaredModes(event);
    StartupRowOf(MODE_EVENTS, src);
  }

  /** Outside 'none' the startup event is refused and changes nothing. */
  lemma StartupRefused(mode: string, hooks: Hooks)
    requires mode != NONE_STATE
    ensures DEFAULT_STARTUP in MODE_TABLE
    ensures FsmDispatch.Fire(MODE_TABLE, hooks, State(mode, None), DEFAULT_STARTUP) ==
              Step(State(mode, None), Failed(InvalidTransition), [])
  {
    ModeTableNames(DEFAULT_STARTUP, mode);
    ModeTableNames(DEFAULT_STARTUP, WILDCARD);
  }

  /** On the compiled machine, won and lost are dead ends: of all the machine's events,
      the startup event included, only 'finish' leads out, and it leads to the menu. */
  lemma EndIsDeadEnd(mode: string, event: string, hooks: Hooks)
    requires mode == "won" || mode == "lost"
    requires event in MODE_TABLE && Compliant(hooks)
    ensures var r := FsmDispatch.Fire(MODE_TABLE, hooks, State(mode, None), event);
            (r.state.current != mode <==> event == "finish") &&
            (event == "finish" ==> r.state == State("menu", None) && r.result == Succeeded)
  {
    ModeTableNames(event, mode);
    if IsModeEvent(event) {
      FollowsChart(mode, event, hooks);
      OnlyFinishLeavesTheEnd(mode, event);
    } else {
      StartupRefused(mode, hooks);
    }
  }
}
