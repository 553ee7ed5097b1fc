/**
 * The transition table of the state machine library: `StateMachine.create` and its
 * inner `add` compile an ordered list of event descriptors into a map from event name
 * to a map from source state to destination state.
 */
module FsmTable {

  import opened Wrappers

  /** The source-state wildcard. */
  const WILDCARD: string := "*"
  /** The state a machine is in before its startup event has fired. */
  const NONE_STATE: string := "none"
  /** The startup event's name when the initial declaration names none. */
  const DEFAULT_STARTUP: string := "startup"

  /** The `from` of an event descriptor: absent, one state name, or an array of names. */
  datatype From = Unset | One(state: string) | Many(states: seq<string>)

  /** An event descriptor `{name, from, to}`; an absent `to` is `None`. */
  datatype Descriptor = Descriptor(name: string, from: From, to: Option<string>)

  /** The initial declaration: absent, or `{state, event, defer}`. */
  datatype Initial = NoInitial | Initial(state: Option<string>, event: Option<string>, defer: bool)

  /** Source state to destination state, for one event. */
  type Row = map<string, string>
  /** Event name to its row. */
  type Table = map<string, Row>

  /** JavaScript truthiness of an optional string: `undefined` and "" are false. */
  predicate Truthy(s: Option<string>)
  {
    s.Some? && s.value != ""
  }

  /** A plain string `initial: 'x'` stands for `{state: 'x'}`. */
  function FromString(s: string): (init: Initial)
    ensures init.Initial? && init.state == Some(s) && init.event.None? && !init.defer
  {
    Initial(Some(s), None, false)
  }

  /** The source states a descriptor lists: an array as it is, a truthy string as a
      one-element list, anything else as the wildcard alone. */
  function Sources(e: Descriptor): (ss: seq<string>)
    ensures !e.from.Many? ==> |ss| == 1 && ss[0] != ""
    ensures e.from.Many? ==> ss == e.from.states
    ensures e.from.One? && e.from.state != "" ==> ss == [e.from.state]
    ensures e.from.Unset? || e.from == One("") ==> ss == [WILDCARD]
  {
    match e.from
    case Many(ss) => ss
    case One(s) => if s != "" then [s] else [WILDCARD]
    case Unset => [WILDCARD]
  }

  /** The destination a descriptor stores for source `src`: its `to`, or `src` itself
      when `to` is falsy (a no-op transition). */
  function Target(e: Descriptor, src: string): (to: string)
    ensures Truthy(e.to) ==> to == e.to.value
    ensures !Truthy(e.to) ==> to == src
    ensures to == "" <==> !Truthy(e.to) && src == ""
  {
    if Truthy(e.to) then e.to.value else src
  }

  /** The entry of `t` for `(name, src)`, if there is one. */
  function Lookup(t: Table, name: string, src: string): Option<string>
  {
    if name in t && src in t[name] then Some(t[name][src]) else None
  }

  /** Writes `Target(e, s)` into `row` for every `s` of `srcs`, in order. */
  function Store(row: Row, e: Descriptor, srcs: seq<string>): (r: Row)
    ensures forall k :: k in r <==> k in row || k in srcs
    ensures forall k :: k in r ==> r[k] == if k in srcs then Target(e, k) else row[k]
    decreases |srcs|
  {
    if srcs == [] then row
    else
      var last := srcs[|srcs| - 1];
      Store(row, e, srcs[..|srcs| - 1])[last := Target(e, last)]
  }

  /** `add(e)`: creates the row of `e.name` if it is missing, then stores `e`'s entries. */
  function Add(t: Table, e: Descriptor): (r: Table)
    ensures r.Keys == t.Keys + {e.name}
    ensures forall n :: n in t && n != e.name ==> r[n] == t[n]
    ensures forall src :: Lookup(r, e.name, src) ==
              if src in Sources(e) then Some(Target(e, src)) else Lookup(t, e.name, src)
  {
    t[e.name := Store(if e.name in t then t[e.name] else map[], e, Sources(e))]
  }

  /** `add` in closed form: the row of `e.name` (empty when new) overlaid with the
      entries `e` gives its sources. */
  lemma AddClosedForm(t: Table, e: Descriptor)
    ensures Add(t, e) ==
              t[e.name := (if e.name in t then t[e.name] else map[]) +
                          map s | s in Sources(e) :: Target(e, s)]
  {
    var row := if e.name in t then t[e.name] else map[];
    var stored := Store(row, e, Sources(e));
    var overlay := row + map s | s in Sources(e) :: Target(e, s);
    assert stored.Keys == overlay.Keys;
    assert stored == overlay;
  }

  /** The defaults `add` fills in: a descriptor without a truthy `from` is a wildcard
      transition, and one without a truthy `to` maps each source to itself. Every other
      source of the row keeps its entry. */
  lemma AddDefaults(t: Table, e: Descriptor, src: string)
    requires !e.from.Many?
    ensures Lookup(Add(t, e), e.name, src) ==
              if src == (if e.from.One? && e.from.state != "" then e.from.state else WILDCARD)
              then Some(if Truthy(e.to) then e.to.value else src)
              else Lookup(t, e.name, src)
  {
  }

  /** Adds the descriptors of `es` in order. */
  function AddAll(t: Table, es: seq<Descriptor>): (r: Table)
    ensures t.Keys <= r.Keys
    ensures forall i :: 0 <= i < |es| ==> es[i].name in r
    decreases |es|
  {
    if es == [] then t
    else
      var r := AddAll(Add(t, es[0]), es[1..]);
      assert forall i :: 1 <= i < |es| ==> es[i] == es[1..][i - 1];
      r
  }

  /** The name of the startup event: `initial.event`, or 'startup' when that is falsy. */
  function StartupEvent(init: Initial): (name: string)
    requires init.Initial?
    ensures name != ""
    ensures Truthy(init.event) ==> name == init.event.value
  {
    if Truthy(init.event) then init.event.value else DEFAULT_STARTUP
  }

  /** The descriptor synthesised for the startup event, from 'none' to the initial state. */
  function StartupDescriptor(init: Initial): (e: Descriptor)
    requires init.Initial?
    ensures e.name == StartupEvent(init) && Sources(e) == [NONE_STATE] && e.to == init.state
  {
    Descriptor(StartupEvent(init), One(NONE_STATE), init.state)
  }

  /** The table before the configured events are added. */
  function Seed(init: Initial): (t: Table)
    ensures t.Keys == if init.Initial? then {StartupEvent(init)} else {}
    ensures init.Initial? ==>
              forall src :: (Lookup(t, StartupEvent(init), src) ==
                             if src == NONE_STATE then Some(if Truthy(init.state) then init.state.value else NONE_STATE)
                             else None)
  {
    if init.Initial? then Add(map[], StartupDescriptor(init)) else map[]
  }

  /** The table `create` builds. */
  function Build(init: Initial, events: seq<Descriptor>): (t: Table)
    ensures init.Initial? ==> StartupEvent(init) in t
    ensures forall i :: 0 <= i < |events| ==> events[i].name in t
  {
    AddAll(Seed(init), events)
  }

  /** Reference definition: the entry the LAST descriptor named `name` that lists `src`
      gives it, if any descriptor does. */
  function LastWriter(es: seq<Descriptor>, name: string, src: string): Option<string>
    decreases |es|
  {
    if es == [] then None
    else
      var later := LastWriter(es[1..], name, src);
      if later.Some? then later
      else if es[0].name == name && src in Sources(es[0]) then Some(Target(es[0], src))
      else None
  }

  /** Some descriptor of `es` is named `name`. */
  ghost predicate Declares(es: seq<Descriptor>, name: string)
  {
    exists i :: 0 <= i < |es| && es[i].name == name
  }

  /** Every entry stored under a non-empty source is a non-empty state name. */
  ghost predicate Truthful(t: Table)
  {
    forall n, k :: n in t && k in t[n] && k != "" ==> t[n][k] != ""
  }

  /** Later descriptors overwrite earlier ones: an entry of `AddAll(t, es)` is the last
      writer's, and `t`'s own entry survives only where no descriptor writes. */
  lemma {:induction false} AddAllLookup(t: Table, es: seq<Descriptor>, name: string, src: string)
    ensures Lookup(AddAll(t, es), name, src) ==
              if LastWriter(es, name, src).Some? then LastWriter(es, name, src) else Lookup(t, name, src)
    decreases |es|
  {
    if es != [] {
      var e := es[0];
      AddAllLookup(Add(t, e), es[1..], name, src);
      if e.name != name {
        assert Lookup(Add(t, e), name, src) == Lookup(t, name, src);
      }
    }
  }

  /** A row exists exactly for the events some descriptor names (or `t` already had),
      even when that descriptor lists no source state. */
  lemma {:induction false} AddAllNames(t: Table, es: seq<Descriptor>, name: string)
    ensures name in AddAll(t, es) <==> name in t || Declares(es, name)
    decreases |es|
  {
    if es != [] {
      var rest := es[1..];
      AddAllNames(Add(t, es[0]), rest, name);
      if Declares(es, name) && !(name in t) && es[0].name != name {
        var i :| 0 <= i < |es| && es[i].name == name;
        assert rest[i - 1].name == name;
      }
      if Declares(rest, name) {
        var i :| 0 <= i < |rest| && rest[i].name == name;
        assert es[i + 1].name == name;
      }
    }
  }

  /** Adding descriptors keeps every entry under a non-empty source non-empty. */
  lemma {:induction false} AddAllTruthful(t: Table, es: seq<Descriptor>)
    requires Truthful(t)
    ensures Truthful(AddAll(t, es))
    decreases |es|
  {
    if es != [] {
      var before, e := t, es[0];
      var after := Add(before, e);
      forall n, k | n in after && k in after[n] && k != ""
        ensures after[n][k] != ""
      {
        assert Lookup(after, n, k) == Some(after[n][k]);
        if n == e.name && k in Sources(e) {
          assert after[n][k] == Target(e, k);
        } else if n == e.name {
          assert Lookup(before, n, k) == Some(after[n][k]);
        }
      }
      AddAllTruthful(after, es[1..]);
    }
  }

  /** Every table `create` builds is truthful, so resolution never meets an empty entry
      for a non-empty state. */
  lemma BuildTruthful(init: Initial, events: seq<Descriptor>)
    ensures Truthful(Build(init, events))
  {
    if init.Initial? {
      var t := Seed(init);
      forall n, k | n in t && k in t[n] && k != ""
        ensures t[n][k] != ""
      {
        assert Lookup(t, n, k) == Some(t[n][k]);
      }
    }
    AddAllTruthful(Seed(init), events);
  }

  /** The startup event goes from 'none' to the initial state (to 'none' itself when the
      state is falsy), unless a configured descriptor of the same name writes 'none'. */
  lemma StartupEntry(init: Initial, events: seq<Descriptor>)
    requires init.Initial?
    requires LastWriter(events, StartupEvent(init), NONE_STATE).None?
    ensures StartupEvent(init) in Build(init, events)
    ensures Lookup(Build(init, events), StartupEvent(init), NONE_STATE) ==
              Some(if Truthy(init.state) then init.state.value else NONE_STATE)
  {
    var name := StartupEvent(init);
    AddAllLookup(Seed(init), events, name, NONE_STATE);
    AddAllNames(Seed(init), events, name);
    assert Lookup(Seed(init), name, NONE_STATE) == Some(Target(StartupDescriptor(init), NONE_STATE));
  }

  /** The startup event always has a row, so `create` can fire it. */
  lemma StartupDeclared(init: Initial, events: seq<Descriptor>)
    requires init.Initial?
    ensures StartupEvent(init) in Build(init, events)
  {
    AddAllNames(Seed(init), events, StartupEvent(init));
  }

  /** Without an initial declaration nothing is seeded and 'none' is left untouched. */
  lemma NoStartup(events: seq<Descriptor>, name: string)
    requires LastWriter(events, name, NONE_STATE).None?
    ensures Lookup(Build(NoInitial, events), name, NONE_STATE).None?
  {
    AddAllLookup(map[], events, name, NONE_STATE);
  }

  /** No two descriptors of `es` share a name. */
  ghost predicate DistinctNames(es: seq<Descriptor>)
  {
    forall i, j :: 0 <= i < j < |es| ==> es[i].name != es[j].name
  }

  /** A name no descriptor carries is written by none. */
  lemma {:induction false} UndeclaredWriter(es: seq<Descriptor>, name: string, src: string)
    requires !Declares(es, name)
    ensures LastWriter(es, name, src).None?
    decreases |es|
  {
    if es != [] {
      UndeclaredWriter(es[1..], name, src);
    }
  }

  /** With distinct names, the only writer of an event is its own descriptor. */
  lemma {:induction false} DistinctWriter(es: seq<Descriptor>, k: nat, src: string)
    requires DistinctNames(es) && k < |es|
    ensures LastWriter(es, es[k].name, src) ==
              if src in Sources(es[k]) then Some(Target(es[k], src)) else None
    decreases |es|
  {
    var rest := es[1..];
    assert DistinctNames(rest) by {
      forall i, j | 0 <= i < j < |rest|
        ensures rest[i].name != rest[j].name
      {
        assert rest[i] == es[i + 1] && rest[j] == es[j + 1];
      }
    }
    if k == 0 {
      UndeclaredWriter(rest, es[0].name, src);
    } else {
      assert rest[k - 1] == es[k];
      DistinctWriter(rest, k - 1, src);
      assert es[0].name != es[k].name;
    }
  }

  /** With distinct names, an event's row in the built table holds exactly its
      descriptor's entries, over whatever the seed had. */
  lemma DistinctLookup(init: Initial, es: seq<Descriptor>, k: nat, src: string)
    requires DistinctNames(es) && k < |es|
    ensures es[k].name in Build(init, es)
    ensures Lookup(Build(init, es), es[k].name, src) ==
              if src in Sources(es[k]) then Some(Target(es[k], src)) else Lookup(Seed(init), es[k].name, src)
  {
    AddAllNames(Seed(init), es, es[k].name);
    AddAllLookup(Seed(init), es, es[k].name, src);
    DistinctWriter(es, k, src);
  }

  /** Storing one more source extends the stores made so far by one entry. */
  lemma StoreStep(row: Row, e: Descriptor, srcs: seq<string>, n: nat)
    requires n < |srcs|
    ensures Store(row, e, srcs[..n + 1]) == Store(row, e, srcs[..n])[srcs[n] := Target(e, srcs[n])]
  {
    assert srcs[..n + 1][..n] == srcs[..n];
  }

  /** The table-building loop of `add`: one descriptor. */
  method AddDescriptor(t: Table, e: Descriptor) returns (r: Table)
    ensures r == Add(t, e)
  {
    var from := Sources(e);
    var row := if e.name in t then t[e.name] else map[];
    ghost var row0 := row;
    var n := 0;
    while n < |from|
      invariant 0 <= n <= |from|
      invariant row == Store(row0, e, from[..n])
    {
      StoreStep(row0, e, from, n);
      row := row[from[n] := Target(e, from[n])];
      n := n + 1;
    }
    assert from[..n] == from;
    r := t[e.name := row];
  }

  /** The table-building part of `create`: the startup descriptor, then every configured
      descriptor in order. */
  method BuildTable(init: Initial, events: seq<Descriptor>) returns (t: Table)
    ensures t == Build(init, events)
  {
    t := map[];
    if init.Initial? {
      t := AddDescriptor(t, StartupDescriptor(init));
    }
    var n := 0;
    while n < |events|
      invariant 0 <= n <= |events|
      invariant AddAll(t, events[n..]) == Build(init, events)
    {
      assert events[n..][1..] == events[n + 1..];
      t := AddDescriptor(t, events[n]);
      n := n + 1;
    }
  }
}
