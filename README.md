# Last Drop: state machine, colour parsing and game timers

Last Drop is a browser arcade game. Its game object is driven by a bundled copy of
javascript-state-machine 2.2.0 (`StateMachine.create` / `buildEvent` in `js/vendor.js`).
The bundle also holds the `Animator` helpers `camelize` and `applyDefaults`, and
`ColorStyleSubject.parseColor` / `toColorPart`, which turn a CSS colour into a 6-digit
`#rrggbb` form. `js/last-drop.js` declares the game's mode table (`cfg.state`) and two
small timers, `countdown` and `Sprite.update`.

The model has these modules:

- `FsmTable`: `create`'s transition table. `add` stores one entry per source state
  (`e.to || from`, with `'*'` when `from` is missing). It also covers the synthetic
  startup event for `cfg.initial` and the whole build.
- `FsmHooks`: how a hook name is resolved for each phase. `onafter<event>` falls back to
  `on<event>`, `onenter<state>` to `on<state>`, `onafterevent` to `onevent` and
  `onenterstate` to `onstate`. It also covers how answers combine: `false` vetoes,
  `'async'` suspends, anything else proceeds.
- `FsmDispatch`: one call of an event function, as a pure function over the machine's
  `(current, transition)` pair. It returns the result code and the hooks that ran in
  order. The module also models the pending transition's commit (`transition()`) and
  `cancel()`.
- `FsmMachine`: the machine object. `class Machine` holds `current` and `transition` as
  fields and has `is`, `isFinished`, `can` and `cannot`. Its methods `Fire`,
  `CompleteTransition` and `CancelTransition` are each proved equal to the pure
  definitions. Its invariant is that the machine sits in a non-empty declared state.
- `LastDropModes`: the game's ten mode events checked against the mode chart that their
  comments describe.
- `ColorStyle`: `parseColor` and `toColorPart`. Each regular expression is a matcher.
  Round-trip lemmas show that the matcher accepts exactly the expression's strings.
- `AnimatorUtil`: `camelize`, proved against a character-by-character reference, and
  `applyDefaults`, proved against a closed-form merge.
- `LastDrop`: `countdown` and the `Sprite` frame stepper (`class Sprite`).

The machine's hooks are a field the caller may rebind between events (as methods can
be added to or replaced on the JavaScript object). Within one event the `Hooks` map
gives each property name one answer. A name that serves two lookups of the same event
(`onleavestate` for a state named `state`, `onbeforeevent` for an event named `event`)
is called twice and answers the same both times. The constructor also records, as `startupCalls`, the hooks
that the startup event ran while `create` was still executing.

Hooks are abstracted to the answer they give: `Veto` (`false`), `Async` (`'async'`) or
`Proceed` (anything else, including `undefined`). The `Hooks` map is every callable
member of the target object together with `cfg.callbacks`. When the error handler is
called, `Fire` returns `Failed(kind)` and leaves the state unchanged. Under the default
handler, which throws, this means the call did not complete.

JavaScript truthiness is kept wherever the code relies on it. An empty state name is
falsy in `e.from ? … : ['*']`, in `e.to || from[n]` and in
`map[from] || map['*'] || from`.

After `StateMachine.create(cfg.state, game)` the game is in `booting` (`Boots`).
The `ready` event that leads to `menu` fires only after resource loading has finished
(`js/last-drop.js:217`).

Two behaviours that follow from the code are proved as lemmas:

- An event declared with neither `from` nor `to` stores the entry `'*' -> '*'`. When
  fired from a state with no entry of its own, it therefore moves the machine into a
  state literally named `*` (`WildcardWithoutTarget`).
- A leave hook's veto cancels the event even when the other leave hook asked for an
  asynchronous transition (`LeaveVetoCancels`).

## Model

| member | source | states |
|---|---|---|
| FsmTable.Store | js/vendor.js:806-809 | the row gains exactly the listed source states, each mapped to `e.to`, or to itself when `to` is falsy; every other entry is kept |
| FsmTable.FromString | js/vendor.js:798 | a plain string `initial` stands for `{state: initial}`, with no event name and no `defer` |
| FsmTable.Sources | js/vendor.js:806 | an array `from` is taken as it is; a truthy string `from` is the single source; a missing or empty `from` is the wildcard `['*']` |
| FsmTable.Target | js/vendor.js:809 | a truthy `to` is stored as it is; a falsy `to` stores the source itself (a no-op transition), so the target is empty only when `to` is falsy and the source is empty |
| FsmTable.Add | js/vendor.js:805-810 | adds exactly the event's name; other events' rows are unchanged; a source state of the event maps to the event's target, any other keeps its old entry |
| FsmTable.AddDefaults | js/vendor.js:805-810 | for a non-array `from`, `add` writes one entry: from the `from` string, or from `'*'` when it is missing or empty, to `to`, or to that source itself when `to` is falsy; every other source of the row keeps its entry |
| FsmTable.AddClosedForm | js/vendor.js:805-810 | `add` equals storing the event's sources (the array, the single truthy name, or `'*'`) into its existing or empty row |
| FsmTable.AddAll | js/vendor.js:817-818 | adding events keeps every existing event name and adds each declared one |
| FsmTable.AddAllLookup | js/vendor.js:817-818 | after adding a list of events, an entry is the target given by the last event of that name listing that source, or the earlier table's entry if there is none |
| FsmTable.AddAllNames | js/vendor.js:817-818 | the table's event names are the earlier ones plus exactly the declared names |
| FsmTable.AddAllTruthful | js/vendor.js:806-809 | adding events to a table with no empty target under a non-empty source keeps that so |
| FsmTable.BuildTruthful | js/vendor.js:812-818 | every entry of a built table whose source is a non-empty name has a non-empty target |
| FsmTable.Build | js/vendor.js:812-818 | the built table has the startup event when there is an initial state, and every declared event |
| FsmTable.StartupEntry | js/vendor.js:812-815 | with an initial state, the startup event (`initial.event`, default `startup`) maps `none` to the initial state, or to `none` when the state is falsy, unless a declared event of that name overrides it |
| FsmTable.StartupDeclared | js/vendor.js:812-815 | with an initial state the startup event is always in the table |
| FsmTable.StartupEvent | js/vendor.js:813 | `initial.event \|\| 'startup'`: never empty, and the configured name when it is truthy |
| FsmTable.StartupDescriptor | js/vendor.js:814 | the synthesised descriptor is named by the startup event, lists only `none` and targets `initial.state` |
| FsmTable.Seed | js/vendor.js:812-815 | with an initial state the seed has only the startup event, mapping `none` to `initial.state \|\| 'none'` and nothing else; without one it is empty |
| FsmTable.NoStartup | js/vendor.js:812-818 | without `cfg.initial` no descriptor is synthesised: an event has an exact `none` entry only when a declared descriptor of that name lists `none` (a descriptor without `from` still reaches `none` through its `'*'` entry, see `FsmMachine.NoInitialLeavesNone`) |
| FsmTable.UndeclaredWriter | js/vendor.js:805-818 | an event name that is never declared writes no entry |
| FsmTable.DistinctWriter | js/vendor.js:805-818 | when names are distinct, the last writer of an event's entry is that event itself, exactly when it lists the source |
| FsmTable.DistinctLookup | js/vendor.js:812-818 | when names are distinct, an event's row maps each of its own sources to its target and keeps the startup entry everywhere else |
| FsmTable.AddDescriptor | js/vendor.js:805-810 | the loop over `from` builds exactly `Add(t, e)` |
| FsmTable.BuildTable | js/vendor.js:812-818 | the startup `add` followed by the loop over `cfg.events` builds exactly `Build(initial, events)` |
| FsmHooks.FirstBound | js/vendor.js:858-867 | the first bound name among the candidates: `None` exactly when none is bound, otherwise bound and preceded only by unbound names |
| FsmHooks.Candidates | js/vendor.js:858-867 | each phase looks up one or two property names, all starting with `on`; only the enter and after phases have a second (fallback) name |
| FsmHooks.HookFor | js/vendor.js:858-867 | the hook a phase calls is a bound one of its candidate names; none exactly when no candidate is bound |
| FsmHooks.RunPhase | js/vendor.js:847-867 | a phase calls exactly the hook `HookFor` picks, once, and nothing when it picks none; with no hook the answer is `Proceed` (undefined), otherwise the hook's own answer |
| FsmHooks.Combine | js/vendor.js:883-886 | the combined leave answer is the stronger of the two answers, with `false` above `'async'` above anything else |
| FsmHooks.CombineLaws | js/vendor.js:883-886 | combining is commutative and idempotent; `false` absorbs and "proceed" is neutral |
| FsmHooks.BeforeEvent | js/vendor.js:869-873 | `beforeEvent` never suspends; it vetoes exactly when `onbefore<event>` or `onbeforeevent` answers `false`; its calls are the specific phase's call, then the generic phase's call unless the specific hook vetoed (`\|\|` short-circuits) |
| FsmHooks.LeaveState | js/vendor.js:880-887 | both leave hooks run, the specific one first, whatever the first one answered |
| FsmHooks.EnterState | js/vendor.js:889-892 | `enterState` always runs both enter lookups, the state-specific one first: its calls are exactly those of `enterThisState` followed by those of `enterAnyState`, at most two, each to a bound hook |
| FsmHooks.AfterEvent | js/vendor.js:875-878 | `afterEvent` always runs both after lookups, the event-specific one first: its calls are exactly those of `afterThisEvent` followed by those of `afterAnyEvent`, at most two, each to a bound hook |
| FsmHooks.ChangeStateCalls | js/vendor.js:862 | `changeState` calls `onchangestate` exactly when it is bound, and nothing else |
| FsmHooks.QualifiedBeforeShort | js/vendor.js:859-867 | `onafter<event>` is chosen over `on<event>`, `onenter<state>` over `on<state>`, `onafterevent` over `onevent` and `onenterstate` over `onstate`; the short name is used only when the long one is unbound |
| FsmHooks.NoFallback | js/vendor.js:858-866 | the before, leave and change phases have a single candidate each: `onbefore<event>`, `onbeforeevent`, `onleave<from>`, `onleavestate` and `onchangestate`; it is called exactly when it is bound |
| FsmDispatch.Fire | js/vendor.js:896-946 | a pending transition gives PENDING_TRANSITION and an impossible event INVALID_TRANSITION (each iff), and an error changes nothing and runs no hook; the state moves only on SUCCEEDED, to the destination with no transition left; PENDING stores the transition `from -> to`; NOTRANSITION and CANCELLED keep the state |
| FsmDispatch.ResultCode | js/vendor.js:778-789 | the results are 1 to 4 and the errors 100 and up |
| FsmDispatch.ErrorCode | js/vendor.js:785-789 | the error codes are 100, 200 and 300 |
| FsmDispatch.ResultCodesDistinct | js/vendor.js:778-789 | two outcomes share a code exactly when they are the same outcome |
| FsmDispatch.Destination | js/vendor.js:900 | the destination is the current state or a stored target, and a non-empty exact entry always wins |
| FsmDispatch.Can | js/vendor.js:832 | with no transition pending, an event without an exact or `'*'` entry would resolve to the current state; in a table `create` builds, a legal event's destination is one of its stored targets |
| FsmDispatch.Commit | js/vendor.js:919-926 | `transition()` enters `to`, clears the controller and returns SUCCEEDED |
| FsmDispatch.Cancel | js/vendor.js:927-930 | `cancel()` keeps the state, clears the controller and calls only after hooks |
| FsmDispatch.ExactBeforeWildcard | js/vendor.js:900 | the destination is the entry for the current state if there is one, else the `'*'` entry, else the current state itself |
| FsmDispatch.BeforeVetoCancels | js/vendor.js:909-910 | a veto from `beforeEvent` cancels with the state unchanged and only the before hooks run |
| FsmDispatch.NoOpRunsOnlyEventHooks | js/vendor.js:912-915 | an event whose destination is the current state returns NOTRANSITION and runs only before and after hooks, no leave, enter or change hook |
| FsmDispatch.FireNoOp | js/vendor.js:912-915 | an event whose destination is the current state, past the before hooks, returns NOTRANSITION with the state unchanged, after the before calls and the after calls |
| FsmDispatch.LeaveHooksBothRun | js/vendor.js:880-888 | once past `beforeEvent`, both leave hooks are called, specific then generic, whatever they answer |
| FsmDispatch.FireCallsAtLeave | js/vendor.js:932-943 | past the before hooks, an event's calls are the before and leave calls, followed by the commit's calls unless a leave hook answered `false` or `'async'` |
| FsmDispatch.LeaveVetoCancels | js/vendor.js:932-936 | a `false` from either leave hook cancels, clears the transition and keeps the state |
| FsmDispatch.LeaveAsyncSuspends | js/vendor.js:937-939 | an `'async'` from either leave hook with no veto returns PENDING and keeps the state with the transition stored |
| FsmDispatch.LeaveProceedCommits | js/vendor.js:940-943 | when both leave hooks proceed, the transition runs at once: SUCCEEDED, new state, enter, change and after hooks in that order |
| FsmDispatch.PendingBlocksEverything | js/vendor.js:903-904 | while a transition is pending, every event fails with PENDING_TRANSITION and changes nothing |
| FsmDispatch.SuspendThenCommit | js/vendor.js:919-926 | committing a suspended transition gives SUCCEEDED, moves to its destination and clears it |
| FsmDispatch.SuspendThenCancel | js/vendor.js:927-930 | cancelling a suspended transition clears it, keeps the state and runs only the after hooks |
| FsmDispatch.CompliantFire | js/vendor.js:898-943 | with hooks that never veto or suspend, a legal event either moves to its destination (SUCCEEDED) or stays (NOTRANSITION), with no transition left |
| FsmDispatch.CompliantProceeds | js/vendor.js:847-856 | with hooks that never answer `false` or `'async'`, every phase proceeds |
| FsmDispatch.DestinationDeclared | js/vendor.js:900 | from a non-empty declared state every destination is a non-empty declared state |
| FsmDispatch.FireKeepsConsistent | js/vendor.js:898-943 | firing any event keeps the machine in a non-empty declared state with a well-formed pending transition |
| FsmDispatch.CommitKeepsConsistent | js/vendor.js:919-926 | committing keeps the machine consistent |
| FsmDispatch.CancelKeepsConsistent | js/vendor.js:927-930 | cancelling keeps the machine consistent |
| FsmDispatch.WildcardWithoutTarget | js/vendor.js:806-809 | an event with neither `from` nor `to` stores `'*' -> '*'` and, fired from a state without its own entry, moves the machine to the state `*` |
| FsmMachine.Terminal | js/vendor.js:799 | `terminal \|\| final`: the terminal query when it is truthy, otherwise `final` |
| FsmMachine.Launch | js/vendor.js:830-839 | `create` leaves the machine in `none` unless the startup event fired, and never with a transition pending once it has left `none` |
| FsmMachine.LaunchCalls | js/vendor.js:838-839 | `create` runs hooks only when it fires the startup event |
| FsmMachine.LaunchReachesInitial | js/vendor.js:838-839 | with a non-deferred initial state and compliant hooks, `create` leaves the machine in that state |
| FsmMachine.LaunchRunsStartupHooks | js/vendor.js:838-839 | the startup event that `create` fires runs the full protocol from `none` to the initial state: before hooks, both leave hooks, then the enter, change and after hooks |
| FsmMachine.NoInitialLeavesNone | js/vendor.js:812-832 | without `cfg.initial`, an event can fire from `none` exactly when a descriptor of that name stores a `none` or `'*'` entry; otherwise firing it is refused with INVALID_TRANSITION and changes nothing |
| FsmMachine.DeferredLaunch | js/vendor.js:838-839 | with `defer`, the machine stays in `none` and firing the startup event later reaches the initial state |
| FsmMachine.Machine.constructor | js/vendor.js:796-843 | builds the table from the configuration, keeps `terminal \|\| final`, starts in the state `create` reaches, and records the hooks the startup event ran during `create` (`startupCalls == LaunchCalls(cfg, hooks)`) |
| FsmMachine.Machine.Is | js/vendor.js:831 | `is(q)` holds iff the current state is the queried name or in the queried array |
| FsmMachine.Machine.IsFinished | js/vendor.js:836 | true iff a terminal query exists and the current state matches it |
| FsmMachine.Machine.Can | js/vendor.js:832 | `can(e)` holds iff firing `e` would not report an error |
| FsmMachine.Machine.Cannot | js/vendor.js:833 | `cannot(e)` holds iff firing `e` would report an error |
| FsmMachine.Machine.Fire | js/vendor.js:896-946 | the new `(current, transition)`, result and hook calls are those of `FsmDispatch.Fire` on the machine's hooks at that moment; only `current` and `transition` change, and the invariant holds afterwards |
| FsmMachine.Machine.CompleteTransition | js/vendor.js:919-926 | `transition()` commits the pending transition as `FsmDispatch.Commit` says, and the invariant holds afterwards |
| FsmMachine.Machine.CancelTransition | js/vendor.js:927-930 | `transition.cancel()` clears the transition, keeps the state and runs the after hooks |
| LastDropModes.ModeNames | js/last-drop.js:56-66 | the ten mode events have distinct names, none named `startup`, and each has non-empty sources and a target |
| LastDropModes.RowOf | js/last-drop.js:54-66 | each mode event's row maps exactly its sources to its target |
| LastDropModes.FireOf | js/last-drop.js:54-66 | firing a mode event moves a listed source mode to its target and fails INVALID_TRANSITION from any other mode |
| LastDropModes.ChartOf | js/last-drop.js:56-66 | the declared events agree with the mode chart |
| LastDropModes.FollowsChart | js/last-drop.js:54-66 | from any mode, each event succeeds exactly where the chart allows it, moving to the chart's mode, and otherwise fails with INVALID_TRANSITION |
| LastDropModes.Boots | js/last-drop.js:55 | after `create`, the game is in `booting` |
| LastDropModes.MODE_EVENTS | js/last-drop.js:56-66 | the ten descriptors of `cfg.state.events` (their shape is stated by `ModeNames`, their meaning by `ChartOf`) |
| LastDropModes.MODES | js/last-drop.js:54-67 | `cfg.state`: `initial: 'booting'` and the ten events (launch stated by `Boots`) |
| LastDropModes.MODE_TABLE | js/last-drop.js:54-67 | the table `create` compiles from `cfg.state` (its events and rows stated by `ModeTableNames` and `FollowsChart`) |
| LastDropModes.OnlyFinishLeavesTheEnd | js/last-drop.js:66 | in the mode chart, from `won` or `lost` only `finish` is allowed, and it leads to `menu` (for the compiled machine see `EndIsDeadEnd`) |
| LastDropModes.StartupRowOf | js/vendor.js:812-818 | over the booting seed, a startup event that no descriptor redeclares has the single entry `none -> booting` |
| LastDropModes.NamesOf | js/vendor.js:812-818 | over the booting seed, the table's events are the startup event and exactly the declared names |
| LastDropModes.DeclaredModes | js/last-drop.js:56-66 | the names `cfg.state` declares are exactly the ten mode events |
| LastDropModes.ModeTableNames | js/last-drop.js:54-66 | the game's machine has exactly the events `startup` and the ten mode events, and `startup` leads from `none` to `booting` only |
| LastDropModes.StartupRefused | js/last-drop.js:55 | outside `none` the game's `startup` event is refused with INVALID_TRANSITION and changes nothing |
| LastDropModes.EndIsDeadEnd | js/last-drop.js:54-66 | on the game's machine, of all its events including `startup`, only `finish` leads out of `won` or `lost`, and it leads to `menu` |
| LastDrop.OrElse | js/last-drop.js:140-148 | `x \|\| d`: a set, non-zero number is kept; `undefined` and 0 give the default |
| LastDrop.Countdown | js/last-drop.js:140 | never negative; 0 stays 0; otherwise `n - (dn or 1)` floored at 0, and strictly smaller for positive steps |
| LastDrop.CountdownReachesZero | js/last-drop.js:140 | a timer at `n` reads `n - k` after `k` frames and 0 from frame `n` on |
| LastDrop.NextFrame | js/last-drop.js:164-169 | advances by one exactly while the index is below the last frame, otherwise wraps to 0 |
| LastDrop.Tick | js/last-drop.js:157-170 | the tick count rises until it exceeds `ticksPerFrame`, then resets to 0 and the frame advances |
| LastDrop.FramePeriod | js/last-drop.js:155-171 | from a fresh count the frame changes exactly once every `ticksPerFrame + 1` updates |
| LastDrop.CountUp | js/last-drop.js:155-171 | below the threshold `k` updates only add `k` to the tick count |
| LastDrop.TickKeepsBounds | js/last-drop.js:155-171 | an update keeps the frame index within the strip and the count within `0..ticksPerFrame` |
| LastDrop.Sprite.constructor | js/last-drop.js:144-148 | `ticksPerFrame \|\| 0` and `numFrames \|\| 1`, frame and count at 0 |
| LastDrop.Sprite.Update | js/last-drop.js:155-171 | the new `(index, tickCount)` is one `Tick` of the old one, within bounds |
| ColorStyle.MatchField | js/vendor.js:360 | a match of `\s*(\d+)\s*` is a well-formed field whose text is a prefix of the input, followed by no further space; no match means no digit after the spaces |
| ColorStyle.IsSpace | js/vendor.js:360 | the `\s` class: no white-space character is a digit, a comma or a closing parenthesis |
| ColorStyle.Decimal | js/vendor.js:337 | `parseInt` of a digit string is never below the accumulated value, and is 0 exactly when every digit is 0 |
| ColorStyle.SpaceSpan | js/vendor.js:360 | `\s*` consumes a prefix of white space that is not followed by more white space |
| ColorStyle.DigitSpan | js/vendor.js:360 | `\d+` consumes a prefix of digits that is not followed by another digit |
| ColorStyle.SpaceSpanOf | js/vendor.js:360 | a white-space run followed by anything else is consumed exactly (maximal munch has one outcome) |
| ColorStyle.DigitSpanOf | js/vendor.js:360 | a digit run followed by a non-digit is consumed exactly |
| ColorStyle.FieldRoundTrip | js/vendor.js:360 | every well-formed field followed by a non-space, non-digit is matched back to itself |
| ColorStyle.MatchFieldThen | js/vendor.js:360 | a field and its separator are split off exactly as written |
| ColorStyle.FieldThenRoundTrip | js/vendor.js:360 | every field followed by its separator is matched back to itself |
| ColorStyle.MatchRgb | js/vendor.js:360 | a match of the `rgb(…)` expression yields well-formed parts (head `rgb` in any case, three fields) |
| ColorStyle.MatchRgbSound | js/vendor.js:360 | a matched input is exactly its parts written out |
| ColorStyle.RgbRoundTrip | js/vendor.js:360 | every well-formed `rgb(…)` text is matched back to its own parts |
| ColorStyle.MatchHex | js/vendor.js:361 | matches exactly `#` followed by 3 or 6 hex digits, and returns those digits |
| ColorStyle.HexChar | js/vendor.js:356 | one lower-case hex digit of the given value |
| ColorStyle.Hex | js/vendor.js:356 | `toString(16)`: non-empty lower-case hex digits denoting the number; one digit iff below 16, two iff in 16..255 |
| ColorStyle.ToColorPart | js/vendor.js:354-359 | for a non-negative number, two lower-case hex digits of `min(number, 255)`; for a negative one, `0` then its `-`-prefixed hex form |
| ColorStyle.Channel | js/vendor.js:337 | `max(0, min(255, parseInt(digits)))`: the decimal value of the digits when it is at most 255, and 255 above |
| ColorStyle.Doubled | js/vendor.js:344-345 | each of the three digits written twice, in order |
| ColorStyle.FieldSpans | js/vendor.js:360 | each run of a well-formed field is consumed exactly by its `\s*`, `\d+` and `\s*` |
| ColorStyle.JoinParts | js/vendor.js:334-339 | `#` plus three 2-digit hex parts is a 7-character `#` hex colour |
| ColorStyle.RgbSpec | js/vendor.js:333-340 | the `rgb(…)` branch writes a 6-digit `#` colour |
| ColorStyle.HexSpec | js/vendor.js:342-350 | the hex branch writes 7 characters starting with `#`, keeping 6 digits as they are |
| ColorStyle.RgbSpecShape | js/vendor.js:333-340 | the `rgb(…)` branch yields a 6-digit `#` colour whose channels are the clamped decimals |
| ColorStyle.HexSpecShape | js/vendor.js:342-350 | the hex branch yields a 6-digit `#` colour |
| ColorStyle.ParseColorSpec | js/vendor.js:332-352 | the result is `false` iff neither expression matches, and otherwise a 6-digit `#` colour |
| ColorStyle.RgbChannels | js/vendor.js:333-340 | every well-formed `rgb(…)` text parses to the colour made of its clamped channels |
| ColorStyle.ShortHexDoubles | js/vendor.js:343-348 | `#abc` parses to `#aabbcc` |
| ColorStyle.LongHexKept | js/vendor.js:349 | a 6-digit `#` colour parses to itself, letter case kept |
| ColorStyle.ParseColorIdempotent | js/vendor.js:332-352 | parsing a parsed colour gives it back |
| ColorStyle.Groups | js/vendor.js:336-337 | three well-formed captured fields: index 0 is the red group, 1 the green, 2 the blue |
| ColorStyle.RgbColor | js/vendor.js:334-339 | the loop over the three channels builds exactly the `rgb(…)` branch's colour |
| ColorStyle.ShortHexColor | js/vendor.js:344-347 | the loop doubling each digit builds exactly the short-hex branch's colour |
| ColorStyle.ParseColor | js/vendor.js:332-352 | the result is the specification's: the `rgb(…)` colour, the hex colour, or `None` for `false` |
| AnimatorUtil.Capitalize | js/vendor.js:179 | same length; the first character upper-cased and the rest kept |
| AnimatorUtil.Upper | js/vendor.js:174-179 | `toUpperCase` of one character: a lower-case ASCII letter becomes its capital, any other character is kept |
| AnimatorUtil.Split | js/vendor.js:170 | `split('-')`: at least one piece, none containing a dash |
| AnimatorUtil.SplitJoin | js/vendor.js:170 | joining the pieces with dashes gives the string back |
| AnimatorUtil.CamelRefPieces | js/vendor.js:169-182 | the character-wise reading equals the first piece followed by the later pieces capitalised |
| AnimatorUtil.CamelizeSpec | js/vendor.js:169-182 | a name that `split('-')` leaves in one piece comes back unchanged |
| AnimatorUtil.CamelRef | js/vendor.js:169-182 | the character-wise reading is never longer than the name, and is non-empty when the name starts with a character other than a dash |
| AnimatorUtil.CamelizeIsCamelRef | js/vendor.js:169-182 | `camelize` drops every dash, upper-cases the character after each and keeps the rest |
| AnimatorUtil.CamelRefShape | js/vendor.js:169-182 | the reading has no dash and is shorter by exactly the number of dashes |
| AnimatorUtil.CamelRefNoDash | js/vendor.js:170-171 | a name without dashes is kept as it is |
| AnimatorUtil.CamelizeShape | js/vendor.js:169-182 | the camelized name has no dash, is shorter by the dashes, and a dash-free name comes back unchanged |
| AnimatorUtil.Camelize | js/vendor.js:169-182 | the loop's result equals the character-wise reference |
| AnimatorUtil.MergeKeys | js/vendor.js:145-150 | the result has exactly the keys of `defaults`; a key takes the preference when set and the default otherwise |
| AnimatorUtil.Merge | js/vendor.js:145-150 | the merge has exactly the keys of `defaults`, and a set preference wins for its key |
| AnimatorUtil.MergeNoPrefs | js/vendor.js:146 | missing or empty preferences give the defaults back |
| AnimatorUtil.MergeIdempotent | js/vendor.js:145-150 | applying the same preferences twice changes nothing more |
| AnimatorUtil.ApplyDefaults | js/vendor.js:145-150 | the loop over the keys of `defaults` builds exactly the merge |

## Left out

- DOM, canvas, audio, timers and resource loading in `js/last-drop.js` are not modelled, nor `publish`/`subscribe` and the rest of the game runtime. Neither is the `Animator` engine: chains, easing, `apply` and `makeArrayOfElements`, which work on elements and floating point.
- Event arguments are not modelled. The hooks receive `(name, from, to, ...args)`; the model keeps only which hook was called and its answer.
- Hook faults are not modelled. A hook that throws makes `doCallback` report INVALID_CALLBACK to the error handler; the error kind exists but no path produces it. This is why `FsmDispatch.Fire` promises `r.result != Failed(InvalidCallback)`.
- Re-entrant hooks are not modelled: a hook that fires another event, or calls `transition()` or `cancel()` itself, while the event is running.
- A custom `cfg.error` handler's return value is not modelled. `Failed(kind)` stands for the call to the handler, and the default handler throws.
- A retained `transition` closure called after it was replaced or cleared is not modelled; the model always commits or cancels the machine's current transition.
- FsmMachine.Machine.Can: requires the event to be in the table; in the source `map[event].hasOwnProperty` throws a TypeError for an unknown event name.
- FsmMachine.Machine.Cannot: requires the event to be in the table, for the same reason as `can`.
- FsmMachine.Machine.CompleteTransition: requires a pending transition; calling `fsm.transition()` when it is `null` throws a TypeError in the source.
- FsmMachine.Machine.CancelTransition: requires a pending transition; `fsm.transition.cancel` on `null` throws a TypeError in the source.
- Property names that collide with the machine's own members (an event named `is`, or a hook named like an event) are not modelled: hooks and event functions are kept in separate maps.
- AnimatorUtil.Upper: only ASCII letters are upper-cased; `toUpperCase` on other scripts and on characters that expand (such as `ß`) is not modelled.
- AnimatorUtil.Merge: a preference explicitly set to `undefined` is modelled as a key absent from `prefs`. Inherited enumerable properties that `for…in` would visit are not modelled.
- ColorStyle.ToColorPart: integer arguments only; `toString(16)` of fractional numbers is not modelled (`parseColor` only passes integers).
- LastDrop.Countdown: integers only; the game's timers hold whole frame counts, so fractional steps, `NaN` and Number rounding are not modelled.
- LastDrop.Sprite.Update: integers only; `ticksPerFrame` and `numFrames` given as non-integer numbers are not modelled.
- The transition table is a plain JavaScript object (`map = {}`), so `map[from]` at `js/vendor.js:900` also sees inherited properties such as `toString`, while `can` tests with `hasOwnProperty`. The model's rows hold only the stored entries, so a state named after an `Object.prototype` member is not modelled.
- A hook bound under a name that two lookups of the same event share (`onleavestate` when leaving a state named `state`, `onbeforeevent` for an event named `event`) is called twice; the model gives both calls the same answer, so a hook that answers its two calls differently is not modelled.
- Module registration (`define` or `window.StateMachine`) is not modelled.
