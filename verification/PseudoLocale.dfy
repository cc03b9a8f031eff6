/** The pseudo-locale transformer: every letter of a message's text accented and
    the message padded, its placeables untouched. */
module PseudoLocale {
  import opened Basics

  // ---- the accent table --------------------------------------------------

  function UpperAccent(i: nat): char {
    match i
    case 0 => '\U{C5}' case 1 => '\U{181}' case 2 => '\U{C7}' case 3 => '\U{D0}'
    case 4 => '\U{C9}' case 5 => '\U{191}' case 6 => '\U{11C}' case 7 => '\U{124}'
    case 8 => '\U{CE}' case 9 => '\U{134}' case 10 => '\U{136}' case 11 => '\U{13F}'
    case 12 => '\U{1E3E}' case 13 => '\U{D1}' case 14 => '\U{D6}' case 15 => '\U{DE}'
    case 16 => '\U{24A}' case 17 => '\U{154}' case 18 => '\U{160}' case 19 => '\U{162}'
    case 20 => '\U{DB}' case 21 => '\U{1E7C}' case 22 => '\U{174}' case 23 => '\U{1E8A}'
    case 24 => '\U{DD}' case _ => '\U{17D}'
  }

  function LowerAccent(i: nat): char {
    match i
    case 0 => '\U{E5}' case 1 => '\U{180}' case 2 => '\U{E7}' case 3 => '\U{F0}'
    case 4 => '\U{E9}' case 5 => '\U{192}' case 6 => '\U{11D}' case 7 => '\U{125}'
    case 8 => '\U{EE}' case 9 => '\U{135}' case 10 => '\U{137}' case 11 => '\U{140}'
    case 12 => '\U{1E3F}' case 13 => '\U{F1}' case 14 => '\U{F6}' case 15 => '\U{FE}'
    case 16 => '\U{24B}' case 17 => '\U{155}' case 18 => '\U{161}' case 19 => '\U{163}'
    case 20 => '\U{FB}' case 21 => '\U{1E7D}' case 22 => '\U{175}' case 23 => '\U{1E8B}'
    case 24 => '\U{FD}' case _ => '\U{17E}'
  }

  predicate IsLetter(c: char) { 'A' <= c <= 'Z' || 'a' <= c <= 'z' }

  predicate IsAscii(c: char) { c < '\U{80}' }

  const DOT: char := '\U{B7}'

  function Accent(c: char): char {
    if 'A' <= c <= 'Z' then UpperAccent(c as nat - 'A' as nat)
    else if 'a' <= c <= 'z' then LowerAccent(c as nat - 'a' as nat)
    else c
  }

  lemma UpperDistinct(i: nat, j: nat)
    requires i < j < 26
    ensures UpperAccent(i) != UpperAccent(j)
  {}

  lemma LowerDistinct(i: nat, j: nat)
    requires i < j < 26
    ensures LowerAccent(i) != LowerAccent(j)
  {}

  lemma CasesDistinct(i: nat, j: nat)
    requires i < 26 && j < 26
    ensures UpperAccent(i) != LowerAccent(j)
  {}

  lemma AccentsAreForeign(i: nat)
    ensures !IsAscii(UpperAccent(i)) && UpperAccent(i) != DOT
    ensures !IsAscii(LowerAccent(i)) && LowerAccent(i) != DOT
  {}

  /** On ASCII the table is injective, and leaves no letter. */
  lemma AccentInjective(c: char, d: char)
    requires IsAscii(c) && IsAscii(d) && Accent(c) == Accent(d)
    ensures c == d
  {
    AccentIsForeign(c);
    AccentIsForeign(d);
    if IsLetter(c) && IsLetter(d) && c != d {
      var i := if c <= 'Z' then c as nat - 'A' as nat else c as nat - 'a' as nat;
      var j := if d <= 'Z' then d as nat - 'A' as nat else d as nat - 'a' as nat;
      if c <= 'Z' && d <= 'Z' {
        if i < j { UpperDistinct(i, j); } else { UpperDistinct(j, i); }
      } else if c > 'Z' && d > 'Z' {
        if i < j { LowerDistinct(i, j); } else { LowerDistinct(j, i); }
      } else if c <= 'Z' {
        CasesDistinct(i, j);
      } else {
        CasesDistinct(j, i);
      }
    }
  }

  lemma AccentIsForeign(c: char)
    ensures !IsLetter(Accent(c))
    ensures IsLetter(c) ==> !IsAscii(Accent(c)) && Accent(c) != DOT
    ensures IsAscii(c) ==> Accent(c) != DOT
  {
    if 'A' <= c <= 'Z' { AccentsAreForeign(c as nat - 'A' as nat); }
    if 'a' <= c <= 'z' { AccentsAreForeign(c as nat - 'a' as nat); }
  }

  // ---- placeables --------------------------------------------------------

  /** How deep in braces the text is before character i; a closing brace outside
      any placeable is text. */
  function Depth(v: string, i: nat): nat
    requires i <= |v|
  {
    if i == 0 then 0
    else
      var d := Depth(v, i - 1);
      if v[i - 1] == '{' then d + 1
      else if v[i - 1] == '}' && d > 0 then d - 1
      else d
  }

  /** Character i belongs to a placeable, its outer braces included. */
  predicate Inside(v: string, i: nat)
    requires i < |v|
  {
    Depth(v, i) > 0 || v[i] == '{'
  }

  /** The text with everything outside placeables mapped through the table f. */
  function Core(f: char -> char, v: string, n: nat): (r: string)
    requires n <= |v|
    ensures |r| == n
    ensures forall i {:trigger r[i]} :: 0 <= i < n ==> r[i] == if Inside(v, i) then v[i] else f(v[i])
  {
    if n == 0 then ""
    else Core(f, v, n - 1) + [if Inside(v, n - 1) then v[n - 1] else f(v[n - 1])]
  }

  /** Where the literal that ends at n starts: just past the last placeable. */
  function LiteralStart(v: string, n: nat): (s: nat)
    requires n <= |v|
    ensures s <= n && forall i {:trigger Inside(v, i)} :: s <= i < n ==> !Inside(v, i)
    ensures s > 0 ==> Inside(v, s - 1)
  {
    if n == 0 || Inside(v, n - 1) then n else LiteralStart(v, n - 1)
  }

  // ---- padding -----------------------------------------------------------

  const PAD: string := [' ', DOT, '\U{1E8A}', '\U{C5}', DOT]

  function Repeat(n: nat): (r: string)
    ensures |r| == 5 * n
    ensures forall c :: c in r ==> !IsLetter(c)
  {
    if n == 0 then "" else PAD + Repeat(n - 1)
  }

  function Reps(n: nat): nat { ((if 2 * n / 5 > 1 then 2 * n / 5 else 1) + |PAD| - 1) / |PAD| }

  predicate IsSpace(c: char) {
    || '\U{9}' <= c <= '\U{D}' || '\U{1C}' <= c <= ' ' || c == '\U{85}' || c == '\U{A0}' || c == '\U{1680}'
    || '\U{2000}' <= c <= '\U{200A}' || c == '\U{2028}' || c == '\U{2029}' || c == '\U{202F}'
    || c == '\U{205F}' || c == '\U{3000}'
  }

  predicate IsBlank(s: string) { forall i :: 0 <= i < |s| ==> IsSpace(s[i]) }

  function Padding(literal: string): string {
    if IsBlank(literal) then "" else Repeat(Reps(|literal|))
  }

  /** None for a placeable that never closes. */
  function Transformed(v: string): Option<string> {
    if Depth(v, |v|) > 0 then None
    else Some(Core(Accent, v, |v|) + Padding(v[LiteralStart(v, |v|)..]))
  }

  // ---- the loop ----------------------------------------------------------

  function MapAll(f: char -> char, s: string): (r: string)
    ensures |r| == |s| && forall i :: 0 <= i < |s| ==> r[i] == f(s[i])
  {
    if s == "" then "" else MapAll(f, s[..|s| - 1]) + [f(s[|s| - 1])]
  }

  /** What the loop has written and still holds back before character i. */
  ghost predicate Scanned(f: char -> char, v: string, i: nat, out: string, literal: string, depth: nat)
    requires i <= |v|
  {
    && depth == Depth(v, i)
    && literal == (if depth > 0 then "" else v[LiteralStart(v, i)..i])
    && out + MapAll(f, literal) == Core(f, v, i)
  }

  lemma NothingScanned(f: char -> char, v: string)
    ensures Scanned(f, v, 0, "", "", 0)
  {}

  lemma OpensPlaceable(f: char -> char, v: string, i: nat, out: string, literal: string)
    requires i < |v| && Scanned(f, v, i, out, literal, 0) && v[i] == '{'
    ensures Scanned(f, v, i + 1, out + MapAll(f, literal) + [v[i]], "", 1)
  {
    var r := out + MapAll(f, literal) + [v[i]];
    assert r + MapAll(f, "") == r;
  }

  lemma StaysInside(f: char -> char, v: string, i: nat, out: string, literal: string, depth: nat)
    requires i < |v| && depth > 0 && Scanned(f, v, i, out, literal, depth)
    ensures literal == ""
    ensures Scanned(f, v, i + 1, out + [v[i]], "",
                    if v[i] == '{' then depth + 1 else if v[i] == '}' then depth - 1 else depth)
  {
    assert out + MapAll(f, "") == out;
    assert out + [v[i]] + MapAll(f, "") == out + [v[i]];
    assert LiteralStart(v, i + 1) == i + 1;
  }

  lemma StaysOutside(f: char -> char, v: string, i: nat, out: string, literal: string)
    requires i < |v| && Scanned(f, v, i, out, literal, 0) && v[i] != '{'
    ensures Scanned(f, v, i + 1, out, literal + [v[i]], 0)
  {
    assert LiteralStart(v, i + 1) == LiteralStart(v, i);
    assert v[LiteralStart(v, i)..i + 1] == literal + [v[i]];
    OneMore(f, out, literal, v[i]);
  }

  lemma OneMore(f: char -> char, out: string, literal: string, c: char)
    ensures out + MapAll(f, literal + [c]) == out + MapAll(f, literal) + [f(c)]
  {
    assert (literal + [c])[..|literal|] == literal;
  }

  /** At the end of the text the loop holds exactly what is left to write. */
  lemma ScannedWhole(f: char -> char, v: string, out: string, literal: string, depth: nat)
    requires Scanned(f, v, |v|, out, literal, depth)
    ensures depth == Depth(v, |v|)
    ensures depth == 0 ==> out + MapAll(f, literal) == Core(f, v, |v|) && literal == v[LiteralStart(v, |v|)..]
  {
    hide Depth, Core, LiteralStart, MapAll;
    assert v[LiteralStart(v, |v|)..|v|] == v[LiteralStart(v, |v|)..];
  }

  method TransformValue(v: string) returns (r: Option<string>)
    ensures r == Transformed(v)
  {
    r := TransformWith(Accent, v);
  }

  /** The character loop, for any accent table. */
  method TransformWith(f: char -> char, v: string) returns (r: Option<string>)
    ensures r == if Depth(v, |v|) > 0 then None
                 else Some(Core(f, v, |v|) + Padding(v[LiteralStart(v, |v|)..]))
  {
    hide Scanned, Depth, Core, LiteralStart, MapAll, Padding;
    var out, literal := "", "";
    var depth: nat := 0;
    NothingScanned(f, v);
    for i := 0 to |v|
      invariant Scanned(f, v, i, out, literal, depth)
    {
      var ch := v[i];
      if depth == 0 && ch == '{' {
        OpensPlaceable(f, v, i, out, literal);
        out := out + MapAll(f, literal) + [ch];
        literal, depth := "", 1;
      } else if depth > 0 {
        StaysInside(f, v, i, out, literal, depth);
        out := out + [ch];
        depth := if ch == '{' then depth + 1 else if ch == '}' then depth - 1 else depth;
      } else {
        StaysOutside(f, v, i, out, literal);
        literal := literal + [ch];
      }
    }
    ScannedWhole(f, v, out, literal, depth);
    if depth > 0 { return None; }
    return Some(out + MapAll(f, literal) + Padding(literal));
  }

  // ---- properties --------------------------------------------------------

  /** A value is refused exactly when a placeable never closes; otherwise every
      placeable is copied character for character, what lies outside is accented
      in place, and no ASCII letter is left outside placeables. */
  lemma PlaceablesAreCopied(v: string)
    ensures Transformed(v).None? <==> Depth(v, |v|) > 0
    ensures Transformed(v).Some? ==>
              var r := Transformed(v).value;
              && |r| >= |v|
              && (forall i :: 0 <= i < |v| && Inside(v, i) ==> r[i] == v[i])
              && (forall i :: 0 <= i < |v| && !Inside(v, i) ==> r[i] == Accent(v[i]) && !IsLetter(r[i]))
              && (forall i :: |v| <= i < |r| ==> !IsLetter(r[i]))
  {
    if Transformed(v).Some? {
      forall i | 0 <= i < |v| ensures !IsLetter(Accent(v[i])) { AccentIsForeign(v[i]); }
      var p := Padding(v[LiteralStart(v, |v|)..]);
      forall i | |v| <= i < |v| + |p| ensures !IsLetter((Core(Accent, v, |v|) + p)[i]) {
        assert p[i - |v|] in p;
      }
    }
  }

  /** A trailing literal that is not blank grows the value by at least two fifths
      of its own length, and by at least one marker; nothing else is padded. */
  lemma PaddingGrowsByTwoFifths(v: string)
    requires Transformed(v).Some?
    ensures var literal := v[LiteralStart(v, |v|)..]; var grown := |Transformed(v).value| - |v|;
            if IsBlank(literal) then grown == 0
            else grown == 5 * Reps(|literal|) && 5 <= grown && 2 * |literal| / 5 <= grown < 2 * |literal| / 5 + 6
  {}

  function Dots(s: string): nat {
    if s == "" then 0 else (if s[|s| - 1] == DOT then 1 else 0) + Dots(s[..|s| - 1])
  }

  lemma {:induction false} DotsAdd(a: string, b: string)
    ensures Dots(a + b) == Dots(a) + Dots(b)
    decreases |b|
  {
    if b == "" {
      assert a + b == a;
    } else {
      assert (a + b)[..|a + b| - 1] == a + b[..|b| - 1];
      DotsAdd(a, b[..|b| - 1]);
    }
  }

  lemma {:induction false} DotsInPadding(n: nat)
    ensures Dots(Repeat(n)) == 2 * n
  {
    hide PAD;
    if n > 0 {
      DotsAdd(PAD, Repeat(n - 1));
      DotsInPadding(n - 1);
      DotsInMarker();
    }
  }

  lemma DotsInMarker()
    ensures Dots(PAD) == 2
  {
    var blank, rest := [' ', DOT], ['\U{1E8A}', '\U{C5}', DOT];
    assert PAD == blank + rest;
    DotsAdd(blank, rest);
    assert blank[..1] == [' '] && rest[..2] == ['\U{1E8A}', '\U{C5}'];
    NoDots([' ']);
    NoDots(['\U{1E8A}', '\U{C5}']);
  }

  lemma {:induction false} NoDots(s: string)
    requires forall i :: 0 <= i < |s| ==> s[i] != DOT
    ensures Dots(s) == 0
  {
    if s != "" { NoDots(s[..|s| - 1]); }
  }

  ghost predicate AllAscii(s: string) { forall i :: 0 <= i < |s| ==> IsAscii(s[i]) }

  lemma CoreHasNoDots(v: string)
    requires AllAscii(v)
    ensures Dots(Core(Accent, v, |v|)) == 0
  {
    forall i | 0 <= i < |v| ensures Core(Accent, v, |v|)[i] != DOT { AccentIsForeign(v[i]); }
    NoDots(Core(Accent, v, |v|));
  }

  /** How many markers a value got can be read off its dots. */
  lemma MarkersReadBack(v: string)
    requires AllAscii(v) && Transformed(v).Some?
    ensures 5 * Dots(Transformed(v).value) == 2 * (|Transformed(v).value| - |v|)
  {
    var literal := v[LiteralStart(v, |v|)..];
    CoreHasNoDots(v);
    DotsAdd(Core(Accent, v, |v|), Padding(literal));
    if !IsBlank(literal) { DotsInPadding(Reps(|literal|)); }
  }

  /** Apart on ASCII, and nothing but a brace becomes an opening brace. */
  ghost predicate Faithful(f: char -> char) {
    && (forall c, d :: IsAscii(c) && IsAscii(d) && f(c) == f(d) ==> c == d)
    && f('{') == '{'
  }

  lemma AccentIsFaithful()
    ensures Faithful(Accent)
  {
    forall c, d | IsAscii(c) && IsAscii(d) && Accent(c) == Accent(d) ensures c == d { AccentInjective(c, d); }
  }

  lemma {:induction false} CoreDecides(f: char -> char, v: string, w: string, n: nat)
    requires Faithful(f) && AllAscii(v) && AllAscii(w) && n <= |v| && n <= |w| && Core(f, v, n) == Core(f, w, n)
    ensures Depth(v, n) == Depth(w, n) && forall i :: 0 <= i < n ==> v[i] == w[i]
  {
    if n > 0 {
      assert Core(f, v, n)[..n - 1] == Core(f, v, n - 1) && Core(f, w, n)[..n - 1] == Core(f, w, n - 1);
      CoreDecides(f, v, w, n - 1);
      assert Core(f, v, n)[n - 1] == Core(f, w, n)[n - 1];
    }
  }

  /** Two ASCII values with the same transform are the same value. */
  lemma TransformInjective(v: string, w: string)
    requires AllAscii(v) && AllAscii(w) && Transformed(v).Some? && Transformed(v) == Transformed(w)
    ensures v == w
  {
    MarkersReadBack(v);
    MarkersReadBack(w);
    var r := Transformed(v).value;
    assert |v| == |w|;
    assert r[..|v|] == Core(Accent, v, |v|) && r[..|w|] == Core(Accent, w, |w|);
    AccentIsFaithful();
    CoreDecides(Accent, v, w, |v|);
  }
}
