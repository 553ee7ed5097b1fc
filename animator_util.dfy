/**
 * Two helpers of `Animator`: `camelize`, which turns a dash-delimited CSS property
 * name into its camel-case form (`background-color` to `backgroundColor`), and
 * `applyDefaults`, which merges a preferences object over a defaults object key by key.
 *
 * `camelize` is proved against a reference definition that reads the string one
 * character at a time: dashes vanish and the character after a dash is upper-cased.
 */
module AnimatorUtil {

  import opened Wrappers

  /** `toUpperCase` of one character, for the ASCII letters; every other character is
      left as it is. */
  function Upper(c: char): (u: char)
    ensures 'a' <= c <= 'z' ==> 'A' <= u <= 'Z' && u as int == c as int - 32
    ensures !('a' <= c <= 'z') ==> u == c
  {
    if 'a' <= c <= 'z' then (c as int - 32) as char else c
  }

  /** `s.charAt(0).toUpperCase() + s.substring(1)`: the first character upper-cased;
      the empty string stays empty. */
  function Capitalize(s: string): (r: string)
    ensures |r| == |s|
    ensures s != [] ==> r[0] == Upper(s[0]) && r[1..] == s[1..]
  {
    if s == [] then [] else [Upper(s[0])] + s[1..]
  }

  /** `s.split('-')`: the pieces between the dashes, always at least one. */
  function Split(s: string): (r: seq<string>)
    ensures |r| >= 1
    ensures forall i :: 0 <= i < |r| ==> '-' !in r[i]
    decreases |s|
  {
    if s == [] then [""]
    else
      var rest := Split(s[1..]);
      if s[0] == '-' then [""] + rest
      else [[s[0]] + rest[0]] + rest[1..]
  }

  /** `pieces.join('-')`. */
  function Join(pieces: seq<string>): string
    requires |pieces| >= 1
    decreases |pieces|
  {
    if |pieces| == 1 then pieces[0] else pieces[0] + "-" + Join(pieces[1..])
  }

  /** Splitting at the dashes and joining with dashes gives the string back. */
  lemma {:induction false} SplitJoin(s: string)
    ensures Join(Split(s)) == s
    decreases |s|
  {
    if s != [] {
      var rest := Split(s[1..]);
      SplitJoin(s[1..]);
      if s[0] == '-' {
        assert Join([""] + rest) == "" + "-" + Join(rest) by {
          assert ([""] + rest)[1..] == rest;
        }
        assert s == "-" + s[1..];
      } else {
        var first := [s[0]] + rest[0];
        var pieces := [first] + rest[1..];
        if |rest| == 1 {
          assert pieces == [first];
        } else {
          assert pieces[1..] == rest[1..];
          assert Join(rest) == rest[0] + "-" + Join(rest[1..]);
        }
        assert s == [s[0]] + s[1..];
      }
    }
  }

  /** The pieces after the first, each capitalised, one after the other. */
  function Capitals(pieces: seq<string>): string
    decreases |pieces|
  {
    if pieces == [] then "" else Capitalize(pieces[0]) + Capitals(pieces[1..])
  }

  /** `camelize(s)` in closed form: the first piece as it is (capitalised when the
      string starts with a dash, which makes it empty), then the others capitalised. */
  function CamelizeSpec(s: string): (r: string)
    ensures |Split(s)| == 1 ==> r == s
  {
    SplitJoin(s);
    var pieces := Split(s);
    if |pieces| == 1 then pieces[0]
    else (if s != [] && s[0] == '-' then Capitalize(pieces[0]) else pieces[0]) + Capitals(pieces[1..])
  }

  /** Reference definition, one character at a time: a dash is dropped, and the
      character after a dash (`afterDash`) is upper-cased. */
  function CamelRef(s: string, afterDash: bool): (r: string)
    ensures |r| <= |s|
    ensures s != [] && s[0] != '-' ==> |r| >= 1
    decreases |s|
  {
    if s == [] then ""
    else if s[0] == '-' then CamelRef(s[1..], true)
    else [if afterDash then Upper(s[0]) else s[0]] + CamelRef(s[1..], false)
  }

  /** The character-wise reading agrees with the pieces `split` gives. */
  lemma {:induction false} CamelRefPieces(s: string, afterDash: bool)
    ensures var pieces := Split(s);
            CamelRef(s, afterDash) ==
              (if afterDash then Capitalize(pieces[0]) else pieces[0]) + Capitals(pieces[1..])
    decreases |s|
  {
    if s != [] {
      var rest := Split(s[1..]);
      assert Capitals(rest) == Capitalize(rest[0]) + Capitals(rest[1..]);
      if s[0] == '-' {
        CamelRefPieces(s[1..], true);
        assert Split(s) == [""] + rest;
        assert Split(s)[1..] == rest;
      } else {
        CamelRefPieces(s[1..], false);
        var c := if afterDash then Upper(s[0]) else s[0];
        var first := [s[0]] + rest[0];
        assert Split(s) == [first] + rest[1..];
        assert Split(s)[1..] == rest[1..];
        assert CamelRef(s, afterDash) == [c] + (rest[0] + Capitals(rest[1..]));
        assert (if afterDash then Capitalize(first) else first) == [c] + rest[0];
      }
    }
  }

  /** `camelize` drops every dash and upper-cases the character after each dash, and
      changes nothing else. */
  lemma CamelizeIsCamelRef(s: string)
    ensures CamelizeSpec(s) == CamelRef(s, false)
  {
    CamelRefPieces(s, false);
    var pieces := Split(s);
    if |pieces| == 1 {
      assert pieces[1..] == [];
    } else if s != [] && s[0] == '-' {
      assert pieces[0] == "";
    }
  }

  /** The number of dashes in `s`. */
  function Dashes(s: string): nat
    decreases |s|
  {
    if s == [] then 0 else (if s[0] == '-' then 1 else 0) + Dashes(s[1..])
  }

  /** The reference reading leaves no dash, and is shorter by exactly the dashes. */
  lemma {:induction false} CamelRefShape(s: string, afterDash: bool)
    ensures '-' !in CamelRef(s, afterDash)
    ensures |CamelRef(s, afterDash)| == |s| - Dashes(s)
    decreases |s|
  {
    if s != [] {
      CamelRefShape(s[1..], s[0] == '-');
    }
  }

  /** A name without dashes comes back unchanged. */
  lemma {:induction false} CamelRefNoDash(s: string)
    requires '-' !in s
    ensures CamelRef(s, false) == s
    decreases |s|
  {
    if s != [] {
      assert s[0] != '-';
      assert '-' !in s[1..] by {
        forall i | 0 <= i < |s[1..]| ensures s[1..][i] != '-' {
          assert s[1..][i] == s[i + 1];
        }
      }
      CamelRefNoDash(s[1..]);
      assert s == [s[0]] + s[1..];
    }
  }

  /** `camelize` yields a name without dashes, shorter than the input by its dashes,
      and leaves a name without dashes as it is. */
  lemma CamelizeShape(s: string)
    ensures '-' !in CamelizeSpec(s)
    ensures |CamelizeSpec(s)| == |s| - Dashes(s)
    ensures '-' !in s ==> CamelizeSpec(s) == s
  {
    CamelizeIsCamelRef(s);
    CamelRefShape(s, false);
    if '-' !in s {
      CamelRefNoDash(s);
    }
  }

  /** `Animator.camelize(string)` as the source runs it: split at the dashes, then
      append each later piece capitalised. */
  method Camelize(s: string) returns (r: string)
    ensures r == CamelRef(s, false)
  {
    var pieces := Split(s);
    CamelizeIsCamelRef(s);
    if |pieces| == 1 {
      return pieces[0];
    }
    var camelized := if s != [] && s[0] == '-' then Capitalize(pieces[0]) else pieces[0];
    ghost var first := camelized;
    var i := 1;
    while i < |pieces|
      invariant 1 <= i <= |pieces|
      invariant camelized + Capitals(pieces[i..]) == first + Capitals(pieces[1..])
    {
      assert pieces[i..][1..] == pieces[i + 1..];
      camelized := camelized + Capitalize(pieces[i]);
      i := i + 1;
    }
    assert pieces[i..] == [];
    r := camelized;
  }

  /** `Animator.applyDefaults(defaults, prefs)` in closed form: every key of
      `defaults`, with the preference's value where one is set and the default's
      otherwise. A missing `prefs` object counts as `{}`. A preference that is set to
      `undefined` is a key absent from `prefs`. */
  function Merge<V>(defaults: map<string, V>, prefs: Option<map<string, V>>): (r: map<string, V>)
    ensures r.Keys == defaults.Keys
    ensures prefs.Some? ==> forall k :: k in defaults && k in prefs.value ==> r[k] == prefs.value[k]
  {
    var p := if prefs.Some? then prefs.value else map[];
    map k | k in defaults :: if k in p then p[k] else defaults[k]
  }

  /** The merge has exactly the keys of `defaults`; a key takes its preference when one
      is set and its default otherwise; keys that only `prefs` has are dropped. */
  lemma MergeKeys<V>(defaults: map<string, V>, prefs: Option<map<string, V>>, k: string)
    ensures k in Merge(defaults, prefs) <==> k in defaults
    ensures k in defaults && prefs.Some? && k in prefs.value ==> Merge(defaults, prefs)[k] == prefs.value[k]
    ensures k in defaults && (prefs.None? || k !in prefs.value) ==> Merge(defaults, prefs)[k] == defaults[k]
  {
  }

  /** Without preferences the defaults come back as they are. */
  lemma MergeNoPrefs<V>(defaults: map<string, V>)
    ensures Merge(defaults, None) == defaults
    ensures Merge(defaults, Some(map[])) == defaults
  {
  }

  /** Merging the same preferences twice changes nothing more. */
  lemma MergeIdempotent<V>(defaults: map<string, V>, prefs: Option<map<string, V>>)
    ensures Merge(Merge(defaults, prefs), prefs) == Merge(defaults, prefs)
  {
  }

  /** `Animator.applyDefaults` as the source runs it: one key of `defaults` at a time
      into a fresh result. */
  method ApplyDefaults<V>(defaults: map<string, V>, prefs: Option<map<string, V>>)
    returns (result: map<string, V>)
    ensures result == Merge(defaults, prefs)
  {
    var p := if prefs.Some? then prefs.value else map[];
    result := map[];
    var todo := defaults.Keys;
    while todo != {}
      invariant todo <= defaults.Keys
      invariant result.Keys == defaults.Keys - todo
      invariant forall k :: k in result ==> result[k] == if k in p then p[k] else defaults[k]
      decreases |todo|
    {
      var prop :| prop in todo;
      result := result[prop := if prop in p then p[prop] else defaults[prop]];
      todo := todo - {prop};
    }
  }
}
