/**
 * Colour specifications of `ColorStyleSubject`: `parseColor` turns `rgb(r, g, b)` or a
 * 3- or 6-digit `#` form into a 6-digit `#` form, and `toColorPart` writes one channel
 * as two hex digits.
 *
 * Each regular expression is modelled by a matcher that returns the pieces it matched;
 * its contract says the input is those pieces put together, and a round-trip lemma says
 * every well-formed assembly is matched back to its own pieces, so the matcher accepts
 * exactly the expression's language.
 */
module ColorStyle {

  import opened Wrappers

  /** JavaScript's `\s`: the white-space and line-terminator characters. */
  predicate IsSpace(c: char)
    ensures IsSpace(c) ==> !('0' <= c <= '9') && c != ',' && c != ')'
  {
    c == '\t' || c == '\n' || c == '\U{000B}' || c == '\U{000C}' || c == '\r' || c == ' ' ||
    c == '\U{00A0}' || c == '\U{1680}' || ('\U{2000}' <= c <= '\U{200A}') ||
    c == '\U{2028}' || c == '\U{2029}' || c == '\U{202F}' || c == '\U{205F}' ||
    c == '\U{3000}' || c == '\U{FEFF}'
  }

  /** `\d`. */
  predicate IsDigit(c: char)
  {
    '0' <= c <= '9'
  }

  /** `[0-9a-fA-F]`. */
  predicate IsHex(c: char)
  {
    IsDigit(c) || ('a' <= c <= 'f') || ('A' <= c <= 'F')
  }

  /** Every character of `s` is white space. */
  predicate AllSpace(s: string)
    decreases |s|
  {
    s == [] || (IsSpace(s[0]) && AllSpace(s[1..]))
  }

  /** Every character of `s` is a decimal digit. */
  predicate AllDigit(s: string)
    decreases |s|
  {
    s == [] || (IsDigit(s[0]) && AllDigit(s[1..]))
  }

  predicate AllHex(s: string)
  {
    forall i :: 0 <= i < |s| ==> IsHex(s[i])
  }

  /** The value of a decimal digit. */
  function DigitValue(c: char): nat
    requires IsDigit(c)
  {
    (c as int - '0' as int) as nat
  }

  /** The value of a hex digit, either case. */
  function HexValue(c: char): nat
    requires IsHex(c)
  {
    if IsDigit(c) then DigitValue(c)
    else if 'a' <= c <= 'f' then (c as int - 'a' as int + 10) as nat
    else (c as int - 'A' as int + 10) as nat
  }

  /** `parseInt` of a digit string, read left to right onto `acc`: its decimal value
      (leading zeros included). */
  function Decimal(acc: nat, d: string): (n: nat)
    requires AllDigit(d)
    ensures n >= acc
    ensures n == 0 <==> acc == 0 && forall i :: 0 <= i < |d| ==> d[i] == '0'
    decreases |d|
  {
    if d == [] then acc else Decimal(10 * acc + DigitValue(d[0]), d[1..])
  }

  /** The value of a hex digit string. */
  function HexNumber(d: string): nat
    requires AllHex(d)
    decreases |d|
  {
    if d == [] then 0 else 16 * HexNumber(d[..|d| - 1]) + HexValue(d[|d| - 1])
  }

  /** The length of the longest white-space prefix of `s`, as `\s*` consumes it. */
  function SpaceSpan(s: string): (n: nat)
    ensures n <= |s| && AllSpace(s[..n])
    ensures n == |s| || !IsSpace(s[n])
    decreases |s|
  {
    if s != [] && IsSpace(s[0]) then
      var n := 1 + SpaceSpan(s[1..]);
      assert s[..n][1..] == s[1..][..n - 1];
      n
    else 0
  }

  /** The length of the longest digit prefix of `s`, as `\d+` consumes it. */
  function DigitSpan(s: string): (n: nat)
    ensures n <= |s| && AllDigit(s[..n])
    ensures n == |s| || !IsDigit(s[n])
    decreases |s|
  {
    if s != [] && IsDigit(s[0]) then
      var n := 1 + DigitSpan(s[1..]);
      assert s[..n][1..] == s[1..][..n - 1];
      n
    else 0
  }

  /** Maximal munch is the only munch: a white-space run followed by anything else is
      consumed exactly. */
  lemma {:induction false} SpaceSpanOf(w: string, rest: string)
    requires AllSpace(w) && (rest == [] || !IsSpace(rest[0]))
    ensures SpaceSpan(w + rest) == |w|
    decreases |w|
  {
    if w != [] {
      assert (w + rest)[1..] == w[1..] + rest;
      SpaceSpanOf(w[1..], rest);
    }
  }

  /** The same for a digit run. */
  lemma {:induction false} DigitSpanOf(d: string, rest: string)
    requires AllDigit(d) && (rest == [] || !IsDigit(rest[0]))
    ensures DigitSpan(d + rest) == |d|
    decreases |d|
  {
    if d != [] {
      assert (d + rest)[1..] == d[1..] + rest;
      DigitSpanOf(d[1..], rest);
    }
  }

  /** One `\s*(\d+)\s*` group: the white space before, the digits, the white space after. */
  datatype Field = Field(lead: string, digits: string, trail: string)

  predicate FieldOk(f: Field)
  {
    AllSpace(f.lead) && AllDigit(f.digits) && f.digits != [] && AllSpace(f.trail)
  }

  function FieldText(f: Field): string
  {
    f.lead + f.digits + f.trail
  }

  /** Matches `\s*(\d+)\s*` at the start of `s`, returning the group and the rest. */
  function MatchField(s: string): (r: Option<(Field, string)>)
    ensures r.Some? ==> FieldOk(r.value.0) && s == FieldText(r.value.0) + r.value.1
    ensures r.Some? ==> r.value.1 == [] || !IsSpace(r.value.1[0])
    ensures r.None? ==> var a := SpaceSpan(s); a == |s| || !IsDigit(s[a])
  {
    var a := SpaceSpan(s);
    var b := DigitSpan(s[a..]);
    if b == 0 then None
    else
      var c := SpaceSpan(s[a..][b..]);
      Reassemble(s, a, b, c);
      Some((Field(s[..a], s[a..][..b], s[a..][b..][..c]), s[a..][b..][c..]))
  }

  /** Cutting a string three times and gluing the pieces back gives the string. */
  lemma Reassemble(s: string, a: nat, b: nat, c: nat)
    requires a <= |s| && b <= |s| - a && c <= |s| - a - b
    ensures s == s[..a] + s[a..][..b] + s[a..][b..][..c] + s[a..][b..][c..]
  {
    assert s[a..][b..] == s[a..][b..][..c] + s[a..][b..][c..];
    assert s[a..] == s[a..][..b] + s[a..][b..];
  }

  /** Every well-formed group followed by a character that is neither white space nor a
      digit is matched back to itself. */
  lemma FieldRoundTrip(f: Field, rest: string)
    requires FieldOk(f) && rest != [] && !IsSpace(rest[0]) && !IsDigit(rest[0])
    ensures MatchField(FieldText(f) + rest) == Some((f, rest))
  {
    FieldCuts(f, rest);
    FieldSpans(f, rest);
  }

  /** Where the three runs of a group start and end inside the group's text. */
  lemma FieldCuts(f: Field, rest: string)
    ensures var s, a, b, c := FieldText(f) + rest, |f.lead|, |f.digits|, |f.trail|;
            s[..a] == f.lead && s[a..] == f.digits + (f.trail + rest) &&
            s[a..][..b] == f.digits && s[a..][b..] == f.trail + rest &&
            s[a..][b..][..c] == f.trail && s[a..][b..][c..] == rest
  {
    var s := FieldText(f) + rest;
    assert s == f.lead + (f.digits + (f.trail + rest));
    CutConcat(f.lead, f.digits + (f.trail + rest));
    CutConcat(f.digits, f.trail + rest);
    CutConcat(f.trail, rest);
  }

  /** Each run of a group, followed by what follows it, is consumed exactly. */
  lemma FieldSpans(f: Field, rest: string)
    requires FieldOk(f) && rest != [] && !IsSpace(rest[0]) && !IsDigit(rest[0])
    ensures SpaceSpan(FieldText(f) + rest) == |f.lead|
    ensures DigitSpan(f.digits + (f.trail + rest)) == |f.digits|
    ensures SpaceSpan(f.trail + rest) == |f.trail|
  {
    var afterDigits := f.trail + rest;
    assert FieldText(f) + rest == f.lead + (f.digits + afterDigits);
    SpaceSpanOf(f.lead, f.digits + afterDigits);
    assert afterDigits[0] == if f.trail == [] then rest[0] else f.trail[0];
    DigitSpanOf(f.digits, afterDigits);
    SpaceSpanOf(f.trail, rest);
  }

  /** The two halves of a concatenation are cut back out of it. */
  lemma CutConcat(x: string, y: string)
    ensures (x + y)[..|x|] == x && (x + y)[|x|..] == y
  {
  }

  /** What `rgbRe` matches: the letters `rgb` in any case, the three groups, and the
      punctuation between them. */
  datatype RgbParts = RgbParts(head: string, red: Field, green: Field, blue: Field)

  /** The letters `rgb`, each in either case (the `i` flag). */
  predicate IsRgbHead(h: string)
  {
    |h| == 3 && (h[0] == 'r' || h[0] == 'R') && (h[1] == 'g' || h[1] == 'G') && (h[2] == 'b' || h[2] == 'B')
  }

  predicate RgbOk(p: RgbParts)
  {
    IsRgbHead(p.head) && FieldOk(p.red) && FieldOk(p.green) && FieldOk(p.blue)
  }

  function RgbText(p: RgbParts): string
  {
    p.head + "(" + FieldText(p.red) + "," + FieldText(p.green) + "," + FieldText(p.blue) + ")"
  }
  /** Matches `\s*(\d+)\s*` followed by the character `sep`, returning the group and
      what follows `sep`. */
  function MatchFieldThen(s: string, sep: char): (r: Option<(Field, string)>)
    ensures r.Some? ==> FieldOk(r.value.0) && s == FieldText(r.value.0) + [sep] + r.value.1
  {
    match MatchField(s)
    case None => None
    case Some((f, rest)) =>
      if rest != [] && rest[0] == sep then
        SepGlue(s, FieldText(f), rest);
        Some((f, rest[1..]))
      else None
  }

  /** A string cut before a separator glues back with the separator in between. */
  lemma SepGlue(s: string, x: string, rest: string)
    requires s == x + rest && rest != []
    ensures s == x + [rest[0]] + rest[1..]
  {
    assert rest == [rest[0]] + rest[1..];
  }

  /** A well-formed group followed by a separator that is neither white space nor a
      digit is matched back to itself and what follows. */
  lemma FieldThenRoundTrip(f: Field, sep: char, rest: string)
    requires FieldOk(f) && !IsSpace(sep) && !IsDigit(sep)
    ensures MatchFieldThen(FieldText(f) + [sep] + rest, sep) == Some((f, rest))
  {
    FieldRoundTrip(f, [sep] + rest);
    assert FieldText(f) + [sep] + rest == FieldText(f) + ([sep] + rest);
    assert ([sep] + rest)[1..] == rest;
  }

  /** `rgbRe.exec`: `^rgb\(\s*(\d+)\s*,\s*(\d+)\s*,\s*(\d+)\s*\)$`, case-insensitive.
      What it matches is the text of the parts it returns (`MatchRgbSound`), and it
      matches every such text (`RgbRoundTrip`). */
  function MatchRgb(s: string): (r: Option<RgbParts>)
    ensures r.Some? ==> RgbOk(r.value)
  {
    if |s| >= 4 && IsRgbHead(s[..3]) && s[3] == '(' then
      match MatchFieldThen(s[4..], ',')
      case None => None
      case Some((red, r1)) =>
        match MatchFieldThen(r1, ',')
        case None => None
        case Some((green, r2)) =>
          match MatchFieldThen(r2, ')')
          case None => None
          case Some((blue, r3)) =>
            if r3 != [] then None else Some(RgbParts(s[..3], red, green, blue))
    else None
  }

  /** What `MatchRgb` matches is the text of the parts it returns. */
  lemma MatchRgbSound(s: string)
    requires MatchRgb(s).Some?
    ensures s == RgbText(MatchRgb(s).value)
  {
    var m1 := MatchFieldThen(s[4..], ',').value;
    var m2 := MatchFieldThen(m1.1, ',').value;
    var m3 := MatchFieldThen(m2.1, ')').value;
    RgbGlue(s, FieldText(m1.0), FieldText(m2.0), m1.1, m2.1, FieldText(m3.0));
  }

  /** The pieces `MatchRgb` cuts out of `s` glue back to `s`. */
  lemma RgbGlue(s: string, x: string, y: string, r1: string, r2: string, z: string)
    requires |s| >= 4 && s[3] == '('
    requires s[4..] == x + [','] + r1 && r1 == y + [','] + r2 && r2 == z + [')']
    ensures s == s[..3] + "(" + x + "," + y + "," + z + ")"
  {
    assert s == s[..3] + "(" + s[4..];
  }

  /** Where `MatchRgb` cuts the text of some parts. */
  lemma RgbCut(p: RgbParts)
    requires |p.head| == 3
    ensures var r1 := FieldText(p.green) + [','] + (FieldText(p.blue) + [')']);
            var s := RgbText(p);
            |s| >= 4 && s[..3] == p.head && s[3] == '(' && s[4..] == FieldText(p.red) + [','] + r1
  {
    var r1 := FieldText(p.green) + [','] + (FieldText(p.blue) + [')']);
    assert RgbText(p) == p.head + "(" + (FieldText(p.red) + [','] + r1);
  }

  /** `MatchRgb` once its three groups are known. */
  lemma MatchRgbOf(s: string, p: RgbParts, r1: string, r2: string)
    requires |s| >= 4 && s[..3] == p.head && IsRgbHead(p.head) && s[3] == '('
    requires MatchFieldThen(s[4..], ',') == Some((p.red, r1))
    requires MatchFieldThen(r1, ',') == Some((p.green, r2))
    requires MatchFieldThen(r2, ')') == Some((p.blue, []))
    ensures MatchRgb(s) == Some(p)
  {
  }

  /** A group followed by a comma is cut off before it. */
  lemma CommaField(f: Field, rest: string)
    requires FieldOk(f)
    ensures MatchFieldThen(FieldText(f) + [','] + rest, ',') == Some((f, rest))
  {
    FieldThenRoundTrip(f, ',', rest);
  }

  /** The last group, followed by the closing parenthesis and nothing else. */
  lemma CloseField(f: Field)
    requires FieldOk(f)
    ensures MatchFieldThen(FieldText(f) + [')'], ')') == Some((f, []))
  {
    FieldThenRoundTrip(f, ')', []);
    assert FieldText(f) + [')'] + [] == FieldText(f) + [')'];
  }

  /** The three groups of a well-formed text are cut out one after the other. */
  lemma RgbFields(p: RgbParts)
    requires RgbOk(p)
    ensures var r2 := FieldText(p.blue) + [')'];
            var r1 := FieldText(p.green) + [','] + r2;
            MatchFieldThen(RgbText(p)[4..], ',') == Some((p.red, r1)) &&
            MatchFieldThen(r1, ',') == Some((p.green, r2)) &&
            MatchFieldThen(r2, ')') == Some((p.blue, []))
  {
    var r2 := FieldText(p.blue) + [')'];
    var r1 := FieldText(p.green) + [','] + r2;
    RgbCut(p);
    CommaField(p.red, r1);
    CommaField(p.green, r2);
    CloseField(p.blue);
  }

  /** Every string of `rgbRe`'s language is matched, with its own groups. */
  lemma RgbRoundTrip(p: RgbParts)
    requires RgbOk(p)
    ensures MatchRgb(RgbText(p)) == Some(p)
  {
    var r2 := FieldText(p.blue) + [')'];
    var r1 := FieldText(p.green) + [','] + r2;
    RgbCut(p);
    RgbFields(p);
    MatchRgbOf(RgbText(p), p, r1, r2);
  }

  /** `hexRe.exec`: `^#([0-9a-fA-F]{3}|[0-9a-fA-F]{6})$`, yielding the digits. */
  function MatchHex(s: string): (r: Option<string>)
    ensures r.Some? <==> (|s| == 4 || |s| == 7) && s[0] == '#' && AllHex(s[1..])
    ensures r.Some? ==> s == "#" + r.value && (|r.value| == 3 || |r.value| == 6)
  {
    if (|s| == 4 || |s| == 7) && s[0] == '#' && AllHex(s[1..]) then Some(s[1..]) else None
  }

  /** The lower-case hex digit of a value below 16, as `toString(16)` writes it. */
  function HexChar(n: nat): (c: char)
    requires n < 16
    ensures IsHex(c) && HexValue(c) == n && !IsUpperHex(c)
  {
    if n < 10 then ('0' as int + n) as char else ('a' as int + n - 10) as char
  }

  /** An upper-case hex letter. */
  predicate IsUpperHex(c: char)
  {
    'A' <= c <= 'F'
  }

  /** `n.toString(16)` for a non-negative integer: lower case, no leading zeros. */
  function Hex(n: nat): (r: string)
    ensures r != [] && AllHex(r) && HexNumber(r) == n
    ensures forall i :: 0 <= i < |r| ==> !IsUpperHex(r[i])
    ensures n < 16 <==> |r| == 1
    ensures 16 <= n < 256 <==> |r| == 2
    decreases n
  {
    if n < 16 then [HexChar(n)]
    else
      var r := Hex(n / 16) + [HexChar(n % 16)];
      assert r[..|r| - 1] == Hex(n / 16);
      r
  }

  /** The value of a two-digit channel. */
  function PairValue(r: string): nat
    requires |r| == 2 && IsHex(r[0]) && IsHex(r[1])
  {
    16 * HexValue(r[0]) + HexValue(r[1])
  }

  /** A two-digit hex string's value is its pair value. */
  lemma PairOf(r: string)
    requires |r| == 2 && AllHex(r)
    ensures PairValue(r) == HexNumber(r)
  {
    assert HexNumber(r[..1]) == HexValue(r[0]) by {
      assert r[..1][..0] == [];
    }
  }

  /** `toColorPart(number)`: clamped to 255, written in hex, padded to two digits when
      below 16. A negative number is written with its sign, after the padding zero. */
  function ToColorPart(number: int): (r: string)
    ensures number >= 0 ==>
              |r| == 2 && AllHex(r) && PairValue(r) == (if number > 255 then 255 else number) &&
              !IsUpperHex(r[0]) && !IsUpperHex(r[1])
    ensures number < 0 ==> r == "0-" + Hex(-number)
  {
    var n := if number > 255 then 255 else number;
    var digits := if n >= 0 then Hex(n) else "-" + Hex(-n);
    if n < 16 then
      "0" + digits
    else
      PairOf(digits);
      digits
  }

  /** `Math.max(0, Math.min(255, parseInt(d)))` for a digit group. */
  function Channel(f: Field): (v: nat)
    requires FieldOk(f)
    ensures v <= 255
    ensures Decimal(0, f.digits) <= 255 ==> v == Decimal(0, f.digits)
    ensures Decimal(0, f.digits) > 255 ==> v == 255
  {
    var n := Decimal(0, f.digits);
    if n > 255 then 255 else n
  }

  /** Each digit of a 3-digit form written twice. */
  function Doubled(d: string): (r: string)
    requires |d| == 3
    ensures |r| == 6 && forall i :: 0 <= i < 6 ==> r[i] == d[i / 2]
  {
    [d[0], d[0], d[1], d[1], d[2], d[2]]
  }

  /** The colour `parseColor` writes for matched `rgb(...)` parts. */
  function RgbSpec(p: RgbParts): (r: string)
    requires RgbOk(p)
    ensures IsHexSpec(r)
  {
    var a, b, c := ToColorPart(Channel(p.red)), ToColorPart(Channel(p.green)), ToColorPart(Channel(p.blue));
    JoinParts(a, b, c);
    "#" + a + b + c
  }

  /** The colour `parseColor` writes for matched `#` digits. */
  function HexSpec(d: string): (r: string)
    requires |d| == 3 || |d| == 6
    ensures |r| == 7 && r[0] == '#'
    ensures |d| == 6 ==> r[1..] == d
  {
    if |d| == 3 then "#" + Doubled(d) else "#" + d
  }

  /** `parseColor(string)`: the 6-digit `#` form, or `None` for `false`. */
  function ParseColorSpec(s: string): (r: Option<string>)
    ensures r.None? <==> MatchRgb(s).None? && MatchHex(s).None?
    ensures r.Some? ==> IsHexSpec(r.value)
  {
    match MatchRgb(s)
    case Some(p) =>
      RgbSpecShape(p);
      Some(RgbSpec(p))
    case None =>
      match MatchHex(s)
      case Some(d) =>
        assert d == s[1..];
        HexSpecShape(d);
        Some(HexSpec(d))
      case None => None
  }

  /** A 6-digit `#` form. */
  predicate IsHexSpec(r: string)
  {
    |r| == 7 && r[0] == '#' && AllHex(r[1..])
  }

  /** Two lower-case hex digits. */
  predicate IsPart(a: string)
  {
    |a| == 2 && IsHex(a[0]) && IsHex(a[1]) && !IsUpperHex(a[0]) && !IsUpperHex(a[1])
  }

  /** `#` and three two-digit parts make a 6-digit `#` form in lower case, each part in
      its own place. */
  lemma JoinParts(a: string, b: string, c: string)
    requires IsPart(a) && IsPart(b) && IsPart(c)
    ensures var r := "#" + a + b + c;
            IsHexSpec(r) && r[1..3] == a && r[3..5] == b && r[5..7] == c &&
            forall i :: 1 <= i < 7 ==> !IsUpperHex(r[i])
  {
    var r := "#" + a + b + c;
    assert r == ['#', a[0], a[1], b[0], b[1], c[0], c[1]];
  }

  /** The colour written for `rgb(...)` is a 6-digit `#` form whose three pairs hold the
      three clamped channel values, in lower case. */
  lemma RgbSpecShape(p: RgbParts)
    requires RgbOk(p)
    ensures var r := RgbSpec(p);
            IsHexSpec(r) &&
            PairValue(r[1..3]) == Channel(p.red) &&
            PairValue(r[3..5]) == Channel(p.green) &&
            PairValue(r[5..7]) == Channel(p.blue) &&
            forall i :: 1 <= i < 7 ==> !IsUpperHex(r[i])
  {
    var a, b, c := ToColorPart(Channel(p.red)), ToColorPart(Channel(p.green)), ToColorPart(Channel(p.blue));
    JoinParts(a, b, c);
  }

  /** The colour written for `#` digits is a 6-digit `#` form. */
  lemma HexSpecShape(d: string)
    requires (|d| == 3 || |d| == 6) && AllHex(d)
    ensures IsHexSpec(HexSpec(d))
  {
    if |d| == 3 {
      assert ("#" + Doubled(d))[1..] == Doubled(d);
    } else {
      assert ("#" + d)[1..] == d;
    }
  }

  /** For `rgb(...)` input the result is the colour of the input's own groups, so by
      `RgbSpecShape` each channel holds the group's value clamped to 0..255. */
  lemma RgbChannels(p: RgbParts)
    requires RgbOk(p)
    ensures ParseColorSpec(RgbText(p)) == Some(RgbSpec(p))
  {
    RgbRoundTrip(p);
  }

  /** A 3-digit form doubles every digit. */
  lemma ShortHexDoubles(d: string)
    requires |d| == 3 && AllHex(d)
    ensures ParseColorSpec("#" + d) == Some("#" + Doubled(d))
  {
    assert ("#" + d)[1..] == d;
  }

  /** A 6-digit form is kept as written, in its own case. */
  lemma LongHexKept(d: string)
    requires |d| == 6 && AllHex(d)
    ensures ParseColorSpec("#" + d) == Some("#" + d)
  {
    assert ("#" + d)[1..] == d;
  }

  /** `parseColor` is idempotent: what it returns, it returns unchanged. */
  lemma ParseColorIdempotent(s: string)
    requires ParseColorSpec(s).Some?
    ensures ParseColorSpec(ParseColorSpec(s).value) == ParseColorSpec(s)
  {
    var r := ParseColorSpec(s).value;
    LongHexKept(r[1..]);
    assert "#" + r[1..] == r;
  }

  /** The groups of matched `rgb(...)` parts, in order. */
  function Groups(p: RgbParts): (g: seq<Field>)
    requires RgbOk(p)
    ensures |g| == 3 && forall i :: 0 <= i < 3 ==> FieldOk(g[i])
    ensures g[0] == p.red && g[1] == p.green && g[2] == p.blue
  {
    [p.red, p.green, p.blue]
  }

  /** '#' followed by the texts of the first `i` channels of `p`, one after the other. */
  function ColorUpTo(p: RgbParts, i: nat): string
    requires RgbOk(p) && i <= 3
  {
    if i == 0 then "#" else ColorUpTo(p, i - 1) + ToColorPart(Channel(Groups(p)[i - 1]))
  }

  /** The first loop of `parseColor`: one clamped channel after the other onto '#'. */
  method RgbColor(p: RgbParts) returns (color: string)
    requires RgbOk(p)
    ensures color == RgbSpec(p)
  {
    var groups := Groups(p);
    color := "#";
    var i := 0;
    while i < 3
      invariant 0 <= i <= 3
      invariant color == ColorUpTo(p, i)
    {
      var part := Channel(groups[i]);
      color := color + ToColorPart(part);
      i := i + 1;
    }
    assert ColorUpTo(p, 1) == "#" + ToColorPart(Channel(p.red));
    assert ColorUpTo(p, 2) == ColorUpTo(p, 1) + ToColorPart(Channel(p.green));
  }

  /** The second loop of `parseColor`: each of three digits twice onto '#'. */
  method ShortHexColor(d: string) returns (color: string)
    requires |d| == 3
    ensures color == HexSpec(d)
  {
    color := "#";
    var i := 0;
    while i < 3
      invariant 0 <= i <= 3
      invariant color == "#" + Doubled(d)[..2 * i]
    {
      assert Doubled(d)[..2 * (i + 1)] == Doubled(d)[..2 * i] + [d[i], d[i]];
      color := color + [d[i]] + [d[i]];
      i := i + 1;
    }
    assert Doubled(d)[..6] == Doubled(d);
  }

  /** `parseColor` as the source runs it. */
  method ParseColor(s: string) returns (r: Option<string>)
    ensures r == ParseColorSpec(s)
  {
    var m := MatchRgb(s);
    if m.Some? {
      var color := RgbColor(m.value);
      return Some(color);
    }
    var h := MatchHex(s);
    if h.Some? {
      var d := h.value;
      if |d| == 3 {
        var color := ShortHexColor(d);
        return Some(color);
      }
      return Some("#" + d);
    }
    return None;
  }
}
