/** What the language registry's generator takes and leaves, spelt out: versions,
    file sets, tokens and catalog rows. */
module RegistryMeaning {
  import opened Basics
  import opened Versions
  import opened LanguageRegistry
  import opened CatalogRouter

  // ---- versions ----------------------------------------------------------

  /** An alpha: an `a`, then digits or none, at the end or before a last newline. */
  lemma AlphaIff(v: string)
    ensures IsAlpha(v) <==> exists base, digits, last :: IsAlphaText(v, base, digits, last)
  {
    hide EndsInAlpha;
    EndsInAlphaIff(v);
    if v != "" { EndsInAlphaIff(v[..|v| - 1]); }
    if EndsInAlpha(v) {
      var base, digits :| IsAlphaText(v, base, digits, "");
    } else if IsAlpha(v) {
      var w := v[..|v| - 1];
      var base, digits :| IsAlphaText(w, base, digits, "");
      assert v == w + "\n" && w == base + "a" + digits;
      assert IsAlphaText(v, base, digits, "\n");
    }
    if base, digits, last :| IsAlphaText(v, base, digits, last) && last != "" {
      var w := base + "a" + digits;
      assert v[..|v| - 1] == w;
      assert w == base + "a" + digits + "";
      assert IsAlphaText(w, base, digits, "");
    }
    if base, digits, last :| IsAlphaText(v, base, digits, last) && last == "" {
      assert IsAlphaText(v, base, digits, "");
    }
  }

  lemma EndsInAlphaIff(v: string)
    ensures EndsInAlpha(v) <==> exists base, digits :: IsAlphaText(v, base, digits, "")
  {
    if EndsInAlpha(v) {
      var i :| 0 <= i < |v| && v[i] == 'a' && AllDigits(v[i + 1..]);
      assert v == v[..i] + "a" + v[i + 1..] + "";
      assert IsAlphaText(v, v[..i], v[i + 1..], "");
    }
    if base, digits :| IsAlphaText(v, base, digits, "") { assert v[|base|] == 'a' && v[|base| + 1..] == digits; }
  }

  ghost predicate IsAlphaText(v: string, base: string, digits: string, last: string) {
    && v == base + "a" + digits + last && (last == "" || last == "\n")
    && forall i :: 0 <= i < |digits| ==> 48 <= digits[i] as int <= 57
  }

  ghost predicate Has(rs: seq<Record>, v: string, fileType: string) {
    exists r :: r in rs && r.version == v && r.fileType == fileType
  }

  /** The version's files are these and no others. */
  ghost predicate HasJust(rs: seq<Record>, v: string, fileTypes: seq<string>) {
    && (forall x :: x in fileTypes ==> Has(rs, v, x))
    && forall r :: r in rs && r.version == v ==> r.fileType in fileTypes
  }

  ghost predicate IsComplete(rs: seq<Record>, v: string) {
    HasJust(rs, v, ["model", "lex", "vocab"]) || HasJust(rs, v, ["model", "lex", "srcvocab", "trgvocab"])
  }

  lemma FilesIff(rs: seq<Record>, v: string, fileTypes: seq<string>)
    ensures TypesOf(rs, v) == (set x | x in fileTypes) <==> HasJust(rs, v, fileTypes)
  {
    var types := TypesOf(rs, v);
    forall x ensures x in types <==> Has(rs, v, x) {}
    if types == (set x | x in fileTypes) {
      forall r | r in rs && r.version == v ensures r.fileType in fileTypes { assert r.fileType in types; }
    }
  }

  /** What can ship: not an alpha, and complete in one of the two layouts. */
  lemma ShippableIff(rs: seq<Record>, v: string)
    ensures Shippable(rs, v) <==> !IsAlpha(v) && IsComplete(rs, v)
  {
    hide TypesOf, IsAlpha, HasJust;
    var joint, split := ["model", "lex", "vocab"], ["model", "lex", "srcvocab", "trgvocab"];
    assert (set x | x in joint) == JOINT;
    assert (set x | x in split) == SPLIT;
    FilesIff(rs, v, joint);
    FilesIff(rs, v, split);
    if IsComplete(rs, v) { CompleteIsThere(rs, v); }
  }

  lemma CompleteIsThere(rs: seq<Record>, v: string)
    requires IsComplete(rs, v)
    ensures HasVersion(rs, v)
  {
    assert "model" in ["model", "lex", "vocab"] && "model" in ["model", "lex", "srcvocab", "trgvocab"];
    assert Has(rs, v, "model");
  }

  /** Longer or greater at the first difference. */
  ghost predicate Exceeds(b: seq<int>, a: seq<int>) {
    exists k :: IsFirstDifference(a, b, k)
  }

  ghost predicate IsFirstDifference(a: seq<int>, b: seq<int>, k: nat) {
    && k <= |a| && k < |b| && (forall i :: 0 <= i < k ==> a[i] == b[i])
    && (k < |a| ==> a[k] < b[k])
  }

  lemma {:induction false} UnderIff(a: seq<int>, b: seq<int>)
    ensures Under(a, b) <==> Exceeds(b, a)
  {
    if b != [] && a != [] {
      UnderIff(a[1..], b[1..]);
      if a[0] == b[0] {
        if k: nat :| IsFirstDifference(a[1..], b[1..], k) { DifferenceShifts(a, b, k); }
        if k: nat :| IsFirstDifference(a, b, k) { DifferenceShifts(a, b, k - 1); }
      } else {
        if a[0] < b[0] { assert IsFirstDifference(a, b, 0); }
        if k: nat :| IsFirstDifference(a, b, k) { assert k == 0; }
      }
    } else if b != [] {
      assert IsFirstDifference(a, b, 0);
    }
  }

  lemma DifferenceShifts(a: seq<int>, b: seq<int>, k: nat)
    requires a != [] && b != [] && a[0] == b[0]
    ensures IsFirstDifference(a[1..], b[1..], k) <==> IsFirstDifference(a, b, k + 1)
  {
    assert forall i :: 0 < i < |a| ==> a[i] == a[1..][i - 1];
    assert forall i :: 0 < i < |b| ==> b[i] == b[1..][i - 1];
  }

  /** A record of v stands before every record of w. */
  ghost predicate SeenBefore(rs: seq<Record>, v: string, w: string) {
    exists i :: 0 <= i < |rs| && rs[i].version == v && forall j :: 0 <= j <= i ==> rs[j].version != w
  }

  lemma {:induction false} PlacesIff(rs: seq<Record>, v: string, w: string)
    requires v != w && HasVersion(rs, v) && HasVersion(rs, w)
    ensures Place(Keys(rs), v) < Place(Keys(rs), w) <==> SeenBefore(rs, v, w)
  {
    hide Keys, Place, SeenBefore;
    var n := |rs| - 1;
    var init, x := rs[..n], rs[n].version;
    assert rs == init + [rs[n]];
    KeysOneMore(init, rs[n]);
    SeenOneMore(init, rs[n], v, w);
    var ks := Keys(init);
    if HasVersion(init, v) && HasVersion(init, w) {
      PlacesIff(init, v, w);
      PlaceStays(ks, x, v);
      PlaceStays(ks, x, w);
    } else if HasVersion(init, v) {
      NewIsLast(ks, w, v);
    } else {
      NewIsLast(ks, v, w);
    }
  }

  lemma KeysOneMore(rs: seq<Record>, r: Record)
    ensures Keys(rs + [r]) == if r.version in Keys(rs) then Keys(rs) else Keys(rs) + [r.version]
  {
    assert (rs + [r])[..|rs|] == rs;
  }

  /** One more record makes no difference to which of two seen ones was first, and a
      first record of one of them comes after the other's. */
  lemma SeenOneMore(rs: seq<Record>, r: Record, v: string, w: string)
    requires v != w && HasVersion(rs + [r], v) && HasVersion(rs + [r], w)
    ensures HasVersion(rs, v) && HasVersion(rs, w) ==> (SeenBefore(rs + [r], v, w) <==> SeenBefore(rs, v, w))
    ensures HasVersion(rs, v) && !HasVersion(rs, w) ==> r.version == w && SeenBefore(rs + [r], v, w)
    ensures !HasVersion(rs, v) ==> r.version == v && HasVersion(rs, w) && !SeenBefore(rs + [r], v, w)
  {
    var all, n := rs + [r], |rs|;
    forall i | 0 <= i < n ensures all[i] == rs[i] {}
    if HasVersion(rs, w) {
      var k :| 0 <= k < n && rs[k].version == w;
      if i :| 0 <= i < |all| && all[i].version == v && forall j :: 0 <= j <= i ==> all[j].version != w {
        assert all[k].version == w;
        assert i < n;
      }
    }
    if i :| 0 <= i < n && rs[i].version == v && forall j :: 0 <= j <= i ==> rs[j].version != w {
      assert all[i].version == v;
    }
    if HasVersion(rs, v) && !HasVersion(rs, w) {
      var i :| 0 <= i < n && rs[i].version == v;
      assert all[i].version == v && forall j :: 0 <= j <= i ==> all[j] in rs;
    }
  }

  lemma {:induction false} PlaceStays(ks: seq<string>, x: string, v: string)
    requires v in ks
    ensures Place(ks + [x], v) == Place(ks, v)
  {
    if ks[0] != v {
      assert (ks + [x])[1..] == ks[1..] + [x];
      PlaceStays(ks[1..], x, v);
    }
  }

  lemma NewIsLast(ks: seq<string>, x: string, v: string)
    requires x !in ks && v in ks
    ensures Place(ks + [x], v) < Place(ks + [x], x)
  {
    PlaceStays(ks, x, v);
    assert forall k :: 0 <= k < |ks| ==> (ks + [x])[k] == ks[k];
  }

  /** The version that ships is complete and stable, and every other such version has
      a smaller key, or the same key and comes later in the records. */
  lemma ChosenIff(rs: seq<Record>, v: string)
    ensures Chosen(VersionKey, rs, v) <==>
            && !IsAlpha(v) && IsComplete(rs, v)
            && forall w :: w != v && !IsAlpha(w) && IsComplete(rs, w) ==>
                 Exceeds(VersionKey(v), VersionKey(w)) || (VersionKey(v) == VersionKey(w) && SeenBefore(rs, v, w))
  {
    hide IsAlpha, IsComplete, Shippable, Under, Exceeds, VersionKey, Place, SeenBefore;
    forall w ensures w in Candidates(rs) <==> !IsAlpha(w) && IsComplete(rs, w) {
      ShippableIff(rs, w);
      if IsComplete(rs, w) { CompleteIsThere(rs, w); }
    }
    forall w | w != v && w in Candidates(rs) && v in Candidates(rs)
      ensures Ahead(VersionKey, Keys(rs), v, w) <==>
              Exceeds(VersionKey(v), VersionKey(w)) || (VersionKey(v) == VersionKey(w) && SeenBefore(rs, v, w))
    {
      CandidateIsThere(rs, v);
      CandidateIsThere(rs, w);
      UnderIff(VersionKey(w), VersionKey(v));
      PlacesIff(rs, v, w);
    }
  }

  lemma CandidateIsThere(rs: seq<Record>, v: string)
    requires v in Candidates(rs)
    ensures HasVersion(rs, v)
  {}

  // ---- the key of a version ----------------------------------------------

  ghost predicate AllBlank(s: string) { forall i :: 0 <= i < |s| ==> IsBlank(s[i]) }

  /** Blanks around it and a sign before it, and digits are still read. */
  lemma SignedIsRead(before: string, sign: string, digits: string, after: string)
    requires AllBlank(before) && AllBlank(after) && IsNumeral(digits) && sign in {"", "+", "-"}
    ensures PyInt(before + sign + digits + after) == Some((if sign == "-" then -1 else 1) * Value(digits))
  {
    hide DigitGroups, Value, Strip;
    var t := sign + digits;
    assert before + sign + digits + after == before + t + after;
    StripIs(before, t, after);
    NumeralGroups(digits);
    if sign == "" { assert t == digits; } else { assert t[1..] == digits; }
  }

  lemma {:induction false} StripIs(before: string, t: string, after: string)
    requires AllBlank(before) && AllBlank(after) && t != "" && !IsBlank(t[0]) && !IsBlank(t[|t| - 1])
    ensures Strip(before + t + after) == t
    decreases |before| + |after|
  {
    var s := before + t + after;
    if before != "" {
      assert s[1..] == before[1..] + t + after;
      StripIs(before[1..], t, after);
    } else if after != "" {
      assert s[..|s| - 1] == before + t + after[..|after| - 1];
      StripIs(before, t, after[..|after| - 1]);
    } else {
      assert s == t;
    }
  }

  /** One underscore between digits is passed over. */
  lemma {:induction false} GroupsJoin(a: string, b: string)
    requires IsNumeral(a) && IsNumeral(b)
    ensures DigitGroups(a + "_" + b) == Some(Value(a + b))
    decreases |b|
  {
    var s := a + "_" + b;
    var init := b[..|b| - 1];
    assert s[..|s| - 1] == a + "_" + init;
    assert (a + b)[..|a + b| - 1] == a + init;
    if init == "" {
      assert a + "_" + init == a + "_";
      assert (a + "_")[..|a|] == a;
      assert a + init == a;
      NumeralGroups(a);
    } else {
      GroupsJoin(a, init);
    }
  }

  /** A component with any other character makes the whole key the single zero. */
  lemma OddComponentIsZero(v: string, i: nat, j: nat)
    requires i < |Split(v, '.')| && j < |Split(v, '.')[i]|
    requires var c := Split(v, '.')[i][j]; !IsDigit(c) && !IsBlank(c) && c != '_' && c != '+' && c != '-'
    ensures VersionKey(v) == [0]
  {
    hide PyInt;
    OddIsUnread(Split(v, '.')[i], j);
    UnreadSpoils(Split(v, '.'), i);
  }

  lemma {:induction false} UnreadSpoils(parts: seq<string>, i: nat)
    requires i < |parts| && PyInt(parts[i]) == None
    ensures Numbers(parts) == None
  {
    hide PyInt;
    if i > 0 { UnreadSpoils(parts[1..], i - 1); }
  }

  lemma OddIsUnread(s: string, j: nat)
    requires j < |s| && !IsDigit(s[j]) && !IsBlank(s[j]) && s[j] != '_' && s[j] != '+' && s[j] != '-'
    ensures PyInt(s) == None
  {
    var k := StripKeeps(s, j);
    var t := Strip(s);
    var signed := t[0] == '+' || t[0] == '-';
    if signed { assert t[1..][k - 1] == s[j]; }
    OddBreaksGroups(if signed then t[1..] else t, if signed then k - 1 else k);
  }

  lemma {:induction false} StripKeeps(s: string, j: nat) returns (k: nat)
    requires j < |s| && !IsBlank(s[j])
    ensures k < |Strip(s)| && Strip(s)[k] == s[j]
    decreases |s|
  {
    if IsBlank(s[0]) { k := StripKeeps(s[1..], j - 1); }
    else if IsBlank(s[|s| - 1]) { k := StripKeeps(s[..|s| - 1], j); }
    else { k := j; }
  }

  lemma {:induction false} OddBreaksGroups(s: string, k: nat)
    requires k < |s| && !IsDigit(s[k]) && s[k] != '_'
    ensures DigitGroups(s) == None
    decreases |s|
  {
    if IsDigit(s[|s| - 1]) {
      var init := s[..|s| - 1];
      var rest := if init[|init| - 1] == '_' then init[..|init| - 1] else init;
      assert k < |rest| && rest[k] == s[k];
      OddBreaksGroups(rest, k);
    }
  }

  /** The characters `int` passes over at either end. */
  lemma BlankIff(c: char)
    ensures IsBlank(c) <==> c as int in {9, 10, 11, 12, 13, 28, 29, 30, 31, 32}
  {}

  // ---- tokens and rows ---------------------------------------------------

  ghost predicate IsSubtag(h: string) {
    2 <= |h| <= 12 && forall i :: 0 <= i < |h| ==> 48 <= h[i] as int <= 57 || 97 <= h[i] as int <= 122
  }

  /** Two or three subtags of 2 to 12 small letters and digits, twenty in all. */
  lemma TokenIff(tok: string)
    ensures TokenShapeOk(tok) <==>
            |tok| <= 20 &&
            ((exists a, b :: IsSubtag(a) && IsSubtag(b) && tok == a + "-" + b) ||
             (exists a, b, c :: IsSubtag(a) && IsSubtag(b) && IsSubtag(c) && tok == a + "-" + b + "-" + c))
  {
    hide TokenShapeOk, IsSubtag, SubtagOk;
    forall h ensures SubtagOk(h) <==> IsSubtag(h) { SubtagIff(h); }
    TokenShapeIff(tok);
    if parts :| SubtagsOk(parts) && tok == Join(parts, '-') {
      if |parts| == 2 {
        TwoJoined(parts[0], parts[1]);
        assert parts == [parts[0], parts[1]];
        assert SubtagOk(parts[0]) && SubtagOk(parts[1]);
      } else {
        ThreeJoined(parts[0], parts[1], parts[2]);
        assert parts == [parts[0], parts[1], parts[2]];
        assert SubtagOk(parts[0]) && SubtagOk(parts[1]) && SubtagOk(parts[2]);
      }
    }
    if a, b :| IsSubtag(a) && IsSubtag(b) && tok == a + "-" + b {
      TwoJoined(a, b);
      assert SubtagsOk([a, b]);
    }
    if a, b, c :| IsSubtag(a) && IsSubtag(b) && IsSubtag(c) && tok == a + "-" + b + "-" + c {
      ThreeJoined(a, b, c);
      assert SubtagsOk([a, b, c]);
    }
  }

  lemma SubtagIff(h: string)
    ensures SubtagOk(h) <==> IsSubtag(h)
  {}

  lemma TwoJoined(a: string, b: string)
    ensures Join([a, b], '-') == a + "-" + b
  {
    assert [a, b][1..] == [b];
  }

  lemma ThreeJoined(a: string, b: string, c: string)
    ensures Join([a, b, c], '-') == a + "-" + b + "-" + c
  {
    assert [a, b, c][1..] == [b, c];
    TwoJoined(b, c);
    assert a + ['-'] + (b + "-" + c) == a + "-" + b + "-" + c;
  }

  /** The pair's token: both codes with a hyphen between, capitals made small. */
  lemma TokenOf(f: string, t: string, i: nat)
    requires i < |f| + 1 + |t|
    ensures |PairToken(f, t)| == |f| + 1 + |t|
    ensures var c := if i < |f| then f[i] else if i == |f| then '-' else t[i - |f| - 1];
            PairToken(f, t)[i] as int == if 65 <= c as int <= 90 then c as int + 32 else c as int
  {
    var s := f + "-" + t;
    assert s[i] == if i < |f| then f[i] else if i == |f| then '-' else t[i - |f| - 1];
  }

  /** A character that may be emitted: a letter, a digit, a Latin letter with a
      diacritic, a blank, or one of . , ( ) ' + and the hyphen. */
  ghost predicate IsInert(c: char) {
    var x := c as int;
    || 65 <= x <= 90 || 97 <= x <= 122 || 48 <= x <= 57 || 0xC0 <= x <= 0x24F
    || x == 32 || x == 46 || x == 44 || x == 40 || x == 41 || x == 39 || x == 43 || x == 45
  }

  ghost predicate IsEmittable(s: Option<string>) { s.Some? && exists body, last :: IsBody(s.value, body, last) }

  /** The text is one to 64 characters that may be emitted, and a newline at most. */
  ghost predicate IsBody(t: string, body: string, last: string) {
    t == body + last && (last == "" || last == "\n") && 1 <= |body| <= 64 && AllInert(body)
  }

  ghost predicate AllInert(s: string) { forall i :: 0 <= i < |s| ==> IsInert(s[i]) }

  lemma SafeTextIff(s: string)
    ensures SafeText(s) <==> 1 <= |s| <= 64 && AllInert(s)
  {
    forall i | 0 <= i < |s| ensures IsSafeChar(s[i]) <==> IsInert(s[i]) { InertIff(s[i]); }
  }

  lemma InertIff(c: char)
    ensures IsSafeChar(c) <==> IsInert(c)
  {}

  lemma EmittableIff(s: Option<string>)
    ensures RustSafe(s) <==> IsEmittable(s)
  {
    hide SafeText, IsBody;
    if s.Some? {
      var t := s.value;
      if SafeText(t) { WholeIsBody(t); }
      if t != "" && t[|t| - 1] == '\n' && SafeText(t[..|t| - 1]) { AllButLastIsBody(t); }
      if body, last :| IsBody(t, body, last) { BodyIsSafe(t, body, last); }
    }
  }

  lemma WholeIsBody(t: string)
    requires SafeText(t)
    ensures IsBody(t, t, "")
  {
    SafeTextIff(t);
    assert t == t + "";
  }

  lemma AllButLastIsBody(t: string)
    requires t != "" && t[|t| - 1] == '\n' && SafeText(t[..|t| - 1])
    ensures IsBody(t, t[..|t| - 1], "\n")
  {
    SafeTextIff(t[..|t| - 1]);
    assert t == t[..|t| - 1] + "\n";
  }

  lemma BodyIsSafe(t: string, body: string, last: string)
    requires IsBody(t, body, last)
    ensures SafeText(t) || (t != "" && t[|t| - 1] == '\n' && SafeText(t[..|t| - 1]))
  {
    hide SafeText, AllInert;
    SafeTextIff(body);
    if last == "" { assert t == body; } else { assert t[..|t| - 1] == body; }
  }

  /** A row that may be emitted: its source one of the two, tier 1, both names and the
      version emittable, and a positive size. */
  lemma AcceptableIff(r: Row)
    ensures Acceptable(r) <==>
            && (r.source == "mozilla" || r.source == "opus-mt") && r.tier == 1
            && IsEmittable(r.fromName) && IsEmittable(r.toName) && IsEmittable(r.version)
            && exists n :: r.approxBytes == Some(n) && n > 0
  {
    hide RustSafe, IsEmittable;
    EmittableIff(r.fromName);
    EmittableIff(r.toName);
    EmittableIff(r.version);
  }

  /** A row that is passed over: misshapen, chosen already, or not named for its pair. */
  ghost predicate PassedOver(chosen: set<(string, string)>, r: Row) {
    !TokenShapeOk(r.token) || (r.from, r.to) in chosen || r.token != r.from + "-" + r.to
  }

  /** The places of the rows kept, in order. */
  ghost predicate Picks(chosen: set<(string, string)>, rows: seq<Row>, places: seq<nat>, kept: seq<Row>) {
    && |places| == |kept|
    && (forall i, j :: 0 <= i < j < |places| ==> places[i] < places[j])
    && (forall i :: 0 <= i < |places| ==> places[i] < |rows| && kept[i] == rows[places[i]])
    && forall k :: 0 <= k < |rows| ==> (k in places <==> !PassedOver(chosen, rows[k]))
  }

  /** The rows kept are just those that are not passed over, in their order. */
  lemma {:induction false} KeptMeans(chosen: set<(string, string)>, rows: seq<Row>) returns (places: seq<nat>)
    ensures Picks(chosen, rows, places, Kept(chosen, rows))
  {
    hide TokenShapeOk, PassedOver, Kept;
    if rows == [] {
      places := [];
      NoneKept(chosen);
    } else {
      var init, n := rows[..|rows| - 1], |rows| - 1;
      var before := KeptMeans(chosen, init);
      assert rows == init + [rows[n]];
      KeptOneMore(chosen, init, rows[n]);
      PassedOverIff(chosen, rows[n]);
      places := if Dropped(chosen, rows[n]) then before else before + [n];
      PicksOneMore(chosen, init, rows[n], before, Kept(chosen, init));
    }
  }

  lemma NoneKept(chosen: set<(string, string)>)
    ensures Kept(chosen, []) == []
  {}

  lemma KeptOneMore(chosen: set<(string, string)>, rows: seq<Row>, r: Row)
    ensures Kept(chosen, rows + [r]) == if Dropped(chosen, r) then Kept(chosen, rows) else Kept(chosen, rows) + [r]
  {
    hide Dropped;
    assert (rows + [r])[..|rows|] == rows;
  }

  lemma PassedOverIff(chosen: set<(string, string)>, r: Row)
    ensures Dropped(chosen, r) <==> PassedOver(chosen, r)
  {
    hide TokenShapeOk;
  }

  lemma PicksOneMore(chosen: set<(string, string)>, rows: seq<Row>, r: Row, places: seq<nat>, kept: seq<Row>)
    requires Picks(chosen, rows, places, kept)
    ensures PassedOver(chosen, r) ==> Picks(chosen, rows + [r], places, kept)
    ensures !PassedOver(chosen, r) ==> Picks(chosen, rows + [r], places + [|rows|], kept + [r])
  {
    hide PassedOver;
    var all, n := rows + [r], |rows|;
    assert n !in places;
    forall k | 0 <= k < n ensures all[k] == rows[k] {}
  }
}
