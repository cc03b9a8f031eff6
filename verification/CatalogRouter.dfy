/** The language-registry generator: what names a pair, and the router that is to
    keep one token to one pair. */
module CatalogRouter {
  import opened Basics
  import opened Versions

  // ---- tokens ------------------------------------------------------------

  predicate IsLowerAlnum(c: char) { 'a' <= c <= 'z' || IsDigit(c) }

  predicate SubtagOk(h: string) { 2 <= |h| <= 12 && forall i :: 0 <= i < |h| ==> IsLowerAlnum(h[i]) }

  predicate TokenShapeOk(tok: string) {
    if tok == "" || |tok| > 20 then false
    else
      var parts := Split(tok, '-');
      SubtagsOk(parts)
  }

  predicate SubtagsOk(parts: seq<string>) {
    (|parts| == 2 || |parts| == 3) && forall i :: 0 <= i < |parts| ==> SubtagOk(parts[i])
  }

  lemma {:induction false} SplitOfJoin(parts: seq<string>, sep: char)
    requires parts != [] && forall i :: 0 <= i < |parts| ==> sep !in parts[i]
    ensures Split(Join(parts, sep), sep) == parts
  {
    if |parts| == 1 {
      SplitWhole(parts[0], sep);
    } else {
      SplitOfJoin(parts[1..], sep);
      SplitFirst(parts[0], sep, Join(parts[1..], sep));
    }
  }

  /** The shape is: two or three lowercase alphanumeric subtags of 2 to 12
      characters joined by hyphens, at most 20 characters in all. */
  lemma TokenShapeIff(tok: string)
    ensures TokenShapeOk(tok) <==>
            |tok| <= 20 && exists parts :: SubtagsOk(parts) && tok == Join(parts, '-')
  {
    JoinOfSplit(tok, '-');
    if parts :| SubtagsOk(parts) && tok == Join(parts, '-') {
      SplitOfJoin(parts, '-');
    }
  }

  function PairToken(f: string, t: string): string { Lower(f + "-" + t) }

  function Subtags(code: string): seq<string> { Split(Lower(code), '-') }

  const ENGLISH := "en"

  /** Codes that stay apart when lowercased, with "en" a subtag of English only. */
  ghost predicate Unambiguous(codes: set<string>) {
    && (forall c, e :: c in codes && e in codes && Lower(c) == Lower(e) ==> c == e)
    && (forall c :: c in codes && c != ENGLISH ==> ENGLISH !in Subtags(c))
  }

  ghost predicate Anchored(codes: set<string>, f: string, t: string) {
    f in codes && t in codes && (f == ENGLISH || t == ENGLISH)
  }

  lemma SubtagsOfToken(f: string, t: string)
    ensures Split(PairToken(f, t), '-') == Subtags(f) + Subtags(t)
  {
    assert PairToken(f, t) == Lower(f) + ['-'] + Lower(t);
    SplitOfConcat(Lower(f), '-', Lower(t));
  }

  lemma SubtagsDecide(codes: set<string>, c: string, e: string)
    requires Unambiguous(codes) && c in codes && e in codes && Subtags(c) == Subtags(e)
    ensures c == e
  {
    JoinOfSplit(Lower(c), '-');
    JoinOfSplit(Lower(e), '-');
  }

  lemma EnglishSubtags()
    ensures Subtags(ENGLISH) == [ENGLISH]
  {
    assert Lower(ENGLISH) == ENGLISH;
    SplitWhole(ENGLISH, '-');
  }

  /** No token names two pairs. */
  lemma PairTokenInjective(codes: set<string>, f: string, t: string, f': string, t': string)
    requires Unambiguous(codes) && Anchored(codes, f, t) && Anchored(codes, f', t')
    requires PairToken(f, t) == PairToken(f', t')
    ensures f == f' && t == t'
  {
    SubtagsOfToken(f, t);
    SubtagsOfToken(f', t');
    EnglishSubtags();
    var whole := Subtags(f) + Subtags(t);
    assert whole == Subtags(f') + Subtags(t');
    if f == ENGLISH {
      assert whole[0] == ENGLISH && whole[0] == Subtags(f')[0];
      assert f' == ENGLISH;
      assert whole[1..] == Subtags(t) && whole[1..] == Subtags(t');
      SubtagsDecide(codes, t, t');
    } else {
      var n := |whole| - 1;
      assert whole[n] == Subtags(t)[0] == ENGLISH;
      assert whole[n] == Subtags(t')[|Subtags(t')| - 1];
      assert t' == ENGLISH;
      assert whole[..n] == Subtags(f) && whole[..n] == Subtags(f');
      SubtagsDecide(codes, f, f');
    }
  }

  /** "en" is one of its subtags only if it is English, in whatever case. */
  predicate Plain(c: string) { ENGLISH in Subtags(c) ==> Lower(c) == ENGLISH }

  /** One side is English and neither hides an "en" subtag. */
  predicate EnglishPair(f: string, t: string) {
    (Lower(f) == ENGLISH || Lower(t) == ENGLISH) && Plain(f) && Plain(t)
  }

  predicate CaseVariants(p: (string, string), q: (string, string)) {
    Lower(p.0) == Lower(q.0) && Lower(p.1) == Lower(q.1)
  }

  lemma LowerTwice(c: string)
    ensures Lower(Lower(c)) == Lower(c)
  {
    assert forall i :: 0 <= i < |c| ==> LowerChar(LowerChar(c[i])) == LowerChar(c[i]);
  }

  /** For all codes whatever: two pairs share a token exactly when their subtags
      laid end to end are the same. */
  lemma SameTokenIff(f: string, t: string, f': string, t': string)
    ensures PairToken(f, t) == PairToken(f', t') <==> Subtags(f) + Subtags(t) == Subtags(f') + Subtags(t')
  {
    SubtagsOfToken(f, t);
    SubtagsOfToken(f', t');
    JoinOfSplit(PairToken(f, t), '-');
    JoinOfSplit(PairToken(f', t'), '-');
  }

  lemma TokenIgnoresCase(f: string, t: string)
    ensures PairToken(Lower(f), Lower(t)) == PairToken(f, t)
    ensures Subtags(Lower(f)) == Subtags(f)
  {
    LowerTwice(f);
    LowerTwice(t);
    assert PairToken(f, t) == Lower(f) + ['-'] + Lower(t);
    assert PairToken(Lower(f), Lower(t)) == Lower(Lower(f)) + ['-'] + Lower(Lower(t));
  }

  lemma LowercaseInjective(f: string, t: string, f': string, t': string)
    requires EnglishPair(f, t) && EnglishPair(f', t') && PairToken(f, t) == PairToken(f', t')
    requires Lower(f) == f && Lower(t) == t && Lower(f') == f' && Lower(t') == t'
    ensures f == f' && t == t'
  {
    hide PairToken, Subtags;
    PairTokenInjective({f, t, f', t'}, f, t, f', t');
  }

  lemma LoweredPair(f: string, t: string)
    requires EnglishPair(f, t)
    ensures EnglishPair(Lower(f), Lower(t)) && PairToken(Lower(f), Lower(t)) == PairToken(f, t)
  {
    TokenIgnoresCase(f, t);
    TokenIgnoresCase(t, f);
    LowerTwice(f);
    LowerTwice(t);
  }

  /** Two English pairs share a token exactly when they differ in case alone. */
  lemma EnglishPairsCollideIff(f: string, t: string, f': string, t': string)
    requires EnglishPair(f, t) && EnglishPair(f', t')
    ensures PairToken(f, t) == PairToken(f', t') <==> CaseVariants((f, t), (f', t'))
  {
    LoweredPair(f, t);
    LoweredPair(f', t');
    if PairToken(f, t) == PairToken(f', t') {
      LowerTwice(f);
      LowerTwice(t);
      LowerTwice(f');
      LowerTwice(t');
      LowercaseInjective(Lower(f), Lower(t), Lower(f'), Lower(t'));
    }
  }

  // ---- the catalog router ------------------------------------------------

  /** A key of NAMES: a code with a name to show. */
  predicate HasName(c: string) {
    c in {
      "af", "ar", "az", "be", "bg", "bn", "bs", "ca", "cs", "da", "de", "el", "en", "es", "et", "eu", "fa", "fi",
      "fr", "gl", "gu", "he", "hi", "hr", "hu", "id", "is", "it", "ja", "kn", "ko", "lt", "lv", "ml", "mr", "ms",
      "mt", "nb", "nl", "nn", "pl", "pt", "ro", "ru", "sk", "sl", "sq", "sr", "sv", "ta", "te", "th", "tr", "uk",
      "ur", "vi", "zh", "zh-Hans", "zh-Hant"
    }
  }

  /** A supplemental catalog row; a field of the wrong type is None. */
  datatype Row = Row(
    token: string, from: string, to: string, source: string, tier: int,
    fromName: Option<string>, toName: Option<string>, version: Option<string>, approxBytes: Option<int>)

  predicate IsSafeChar(c: char) {
    || 'A' <= c <= 'Z' || 'a' <= c <= 'z' || IsDigit(c) || '\U{C0}' <= c <= '\U{24F}'
    || c in {' ', '.', ',', '(', ')', '\'', '+', '-'}
  }

  predicate SafeText(s: string) { 1 <= |s| <= 64 && forall i :: 0 <= i < |s| ==> IsSafeChar(s[i]) }

  /** `rust_safe`; its `$` also lets one last newline through. */
  predicate RustSafe(s: Option<string>) {
    s.Some? &&
    (SafeText(s.value) || (s.value != "" && s.value[|s.value| - 1] == '\n' && SafeText(s.value[..|s.value| - 1])))
  }

  /** A text that the check lets through and the class alone would not. */
  lemma LastNewlineIsLetThrough()
    ensures RustSafe(Some("X\n")) && !SafeText("X\n")
  {
    var s := "X\n";
    assert s[..1] == "X" && !IsSafeChar(s[1]);
  }

  /** What is emitted cannot end or escape a string literal. */
  lemma RustSafeIsInert(s: Option<string>, i: nat)
    requires RustSafe(s) && i < |s.value|
    ensures s.value[i] != '"' && s.value[i] != '\\'
    ensures s.value[i] < ' ' ==> s.value[i] == '\n' && i == |s.value| - 1
  {
    if !SafeText(s.value) && i < |s.value| - 1 { assert IsSafeChar(s.value[..|s.value| - 1][i]); }
  }

  /** Dropped with a note, never an error. */
  predicate Dropped(chosen: set<(string, string)>, r: Row) {
    !TokenShapeOk(r.token) || (r.from, r.to) in chosen || r.token != r.from + "-" + r.to
  }

  predicate Acceptable(r: Row) {
    && r.source in {"mozilla", "opus-mt"} && r.tier == 1
    && RustSafe(r.fromName) && RustSafe(r.toName) && RustSafe(r.version)
    && r.approxBytes.Some? && r.approxBytes.value > 0
  }

  function Kept(chosen: set<(string, string)>, rows: seq<Row>): seq<Row> {
    if rows == [] then []
    else
      var init, last := rows[..|rows| - 1], rows[|rows| - 1];
      Kept(chosen, init) + if Dropped(chosen, last) then [] else [last]
  }

  ghost predicate DistinctTokens(rows: seq<Row>) {
    forall i, j :: 0 <= i < j < |rows| ==> rows[i].token != rows[j].token
  }

  ghost predicate Emittable(rows: seq<Row>) {
    DistinctTokens(rows) && forall i :: 0 <= i < |rows| ==> Acceptable(rows[i])
  }

  /** Routes the catalog behind the chosen pairs, or refuses the whole run. */
  method RouteCatalog(chosen: set<(string, string)>, rows: seq<Row>) returns (kept: seq<Row>, refused: bool)
    ensures !refused <==> Emittable(Kept(chosen, rows))
    ensures !refused ==> kept == Kept(chosen, rows)
  {
    kept, refused := [], false;
    for n := 0 to |rows|
      invariant kept == Kept(chosen, rows[..n]) && Emittable(kept)
    {
      var row := rows[n];
      assert rows[..n + 1][..n] == rows[..n];
      if !Dropped(chosen, row) {
        KeptAt(chosen, rows, n);
        if !Acceptable(row) || exists i :: 0 <= i < |kept| && kept[i].token == row.token {
          RefusalIsFinal(Kept(chosen, rows), kept, row);
          return kept, true;
        }
        kept := kept + [row];
      }
    }
    assert rows[..|rows|] == rows;
  }

  /** A row that cannot join those before it cannot stand in any longer list. */
  lemma RefusalIsFinal(all: seq<Row>, before: seq<Row>, row: Row)
    requires |before| < |all| && all[..|before|] == before && all[|before|] == row
    requires !Acceptable(row) || exists i :: 0 <= i < |before| && before[i].token == row.token
    ensures !Emittable(all)
  {
    if Acceptable(row) {
      var i :| 0 <= i < |before| && before[i].token == row.token;
      assert all[i] == all[..|before|][i];
    }
  }

  lemma {:induction false} KeptPrefix(chosen: set<(string, string)>, rows: seq<Row>, n: nat)
    requires n <= |rows|
    ensures Kept(chosen, rows[..n]) <= Kept(chosen, rows)
  {
    if n < |rows| {
      KeptPrefix(chosen, rows[..|rows| - 1], n);
      assert rows[..|rows| - 1][..n] == rows[..n];
    } else {
      assert rows[..n] == rows;
    }
  }

  /** A row that is not dropped is kept right after what was kept before it. */
  lemma KeptAt(chosen: set<(string, string)>, rows: seq<Row>, n: nat)
    requires n < |rows| && !Dropped(chosen, rows[n])
    ensures var before, all := Kept(chosen, rows[..n]), Kept(chosen, rows);
            |before| < |all| && all[..|before|] == before && all[|before|] == rows[n]
  {
    KeptPrefix(chosen, rows, n + 1);
    var next := Kept(chosen, rows[..n + 1]);
    assert rows[..n + 1][..n] == rows[..n];
    assert next == Kept(chosen, rows[..n]) + [rows[n]];
  }

  lemma {:induction false} KeptIsSound(chosen: set<(string, string)>, rows: seq<Row>)
    ensures forall r :: r in Kept(chosen, rows) ==> !Dropped(chosen, r)
  {
    if rows != [] { KeptIsSound(chosen, rows[..|rows| - 1]); }
  }

  /** A token of the right shape is its own lowercase form. */
  lemma ShapedIsLower(tok: string)
    requires TokenShapeOk(tok)
    ensures Lower(tok) == tok
  {
    JoinOfSplit(tok, '-');
    JoinIsLower(Split(tok, '-'));
  }

  lemma {:induction false} JoinIsLower(parts: seq<string>)
    requires parts != [] && forall i :: 0 <= i < |parts| ==> SubtagOk(parts[i])
    ensures Lower(Join(parts, '-')) == Join(parts, '-')
  {
    if |parts| > 1 { JoinIsLower(parts[1..]); }
  }

  /** What `main` lets into the chosen pairs: named codes and a shaped token. */
  predicate Offered(chosen: set<(string, string)>) {
    forall p :: p in chosen ==> HasName(p.0) && HasName(p.1) && TokenShapeOk(PairToken(p.0, p.1))
  }

  lemma KeptIsSelfNamed(chosen: set<(string, string)>, rows: seq<Row>, r: Row)
    requires r in Kept(chosen, rows)
    ensures (r.from, r.to) !in chosen && r.token == PairToken(r.from, r.to)
    ensures Lower(r.from) == r.from && Lower(r.to) == r.to
  {
    KeptIsSound(chosen, rows);
    ShapedIsLower(r.token);
    var t := r.token;
    assert t == r.from + "-" + r.to;
    forall i | 0 <= i < |r.from| ensures LowerChar(r.from[i]) == r.from[i] { assert t[i] == r.from[i]; }
    forall i | 0 <= i < |r.to| ensures LowerChar(r.to[i]) == r.to[i] { assert t[|r.from| + 1 + i] == r.to[i]; }
  }

  /** A kept row has a chosen pair's token exactly when that pair is written with
      capitals and the row spells it in lowercase. */
  lemma KeptCollidesIff(chosen: set<(string, string)>, rows: seq<Row>, p: (string, string), r: Row)
    requires r in Kept(chosen, rows) && p in chosen && EnglishPair(p.0, p.1) && EnglishPair(r.from, r.to)
    ensures r.token == PairToken(p.0, p.1) <==> CaseVariants(p, (r.from, r.to))
    ensures r.token == PairToken(p.0, p.1) <==> Shadows(p, r)
  {
    KeptIsSelfNamed(chosen, rows, r);
    EnglishPairsCollideIff(p.0, p.1, r.from, r.to);
  }

  /** One token, one pair: over the chosen pairs and the kept rows together. */
  ghost predicate OneTokenOnePair(chosen: set<(string, string)>, kept: seq<Row>) {
    && (forall p, q :: p in chosen && q in chosen && PairToken(p.0, p.1) == PairToken(q.0, q.1) ==> p == q)
    && (forall p, r :: p in chosen && r in kept ==> r.token != PairToken(p.0, p.1))
    && DistinctTokens(kept)
  }

  /** Row r spells chosen pair p in lowercase where p has capitals. */
  predicate Shadows(p: (string, string), r: Row) {
    p != (r.from, r.to) && (Lower(p.0), Lower(p.1)) == (r.from, r.to)
  }

  /** The router emits one token per pair exactly when no kept row is the
      lowercase spelling of a chosen pair that has capitals. */
  lemma RoutedTokensUniqueIff(chosen: set<(string, string)>, rows: seq<Row>)
    requires Offered(chosen) && DistinctTokens(Kept(chosen, rows))
    requires forall p :: p in chosen ==> EnglishPair(p.0, p.1)
    requires forall r :: r in Kept(chosen, rows) ==> EnglishPair(r.from, r.to)
    ensures OneTokenOnePair(chosen, Kept(chosen, rows)) <==>
            forall p, r :: p in chosen && r in Kept(chosen, rows) ==> !Shadows(p, r)
  {
    hide PairToken, Shadows, EnglishPair, Kept;
    ChosenStayApart(chosen);
    forall p, r | p in chosen && r in Kept(chosen, rows)
      ensures r.token == PairToken(p.0, p.1) <==> Shadows(p, r)
    {
      KeptCollidesIff(chosen, rows, p, r);
    }
  }

  lemma ChosenStayApart(chosen: set<(string, string)>)
    requires Offered(chosen) && forall p :: p in chosen ==> EnglishPair(p.0, p.1)
    ensures forall p, q :: p in chosen && q in chosen && PairToken(p.0, p.1) == PairToken(q.0, q.1) ==> p == q
  {
    hide PairToken, EnglishPair, HasName, TokenShapeOk;
    forall p, q | p in chosen && q in chosen && PairToken(p.0, p.1) == PairToken(q.0, q.1) ensures p == q {
      OfferedStayApart(p, q);
    }
  }

  lemma OfferedStayApart(p: (string, string), q: (string, string))
    requires EnglishPair(p.0, p.1) && EnglishPair(q.0, q.1) && PairToken(p.0, p.1) == PairToken(q.0, q.1)
    requires HasName(p.0) && HasName(p.1) && HasName(q.0) && HasName(q.1)
    ensures p == q
  {
    EnglishPairsCollideIff(p.0, p.1, q.0, q.1);
    NamesStayApart(p.0, q.0);
    NamesStayApart(p.1, q.1);
  }

  predicate IsTagged(c: string) { c == "zh-Hans" || c == "zh-Hant" }

  predicate IsShort(c: string) { |c| == 2 && IsLowerAlnum(c[0]) && IsLowerAlnum(c[1]) }

  /** Only the two script-tagged names have capitals. */
  lemma NameIsShortOrTagged(c: string)
    requires HasName(c)
    ensures IsTagged(c) || IsShort(c)
  {}

  lemma NamesStayApart(c: string, e: string)
    requires HasName(c) && HasName(e) && Lower(c) == Lower(e)
    ensures c == e
  {
    NameIsShortOrTagged(c);
    NameIsShortOrTagged(e);
    ShapesStayApart(c, e);
  }

  lemma ShapesStayApart(c: string, e: string)
    requires (IsTagged(c) || IsShort(c)) && (IsTagged(e) || IsShort(e)) && Lower(c) == Lower(e)
    ensures c == e
  {
    var l := Lower(c);
    assert |c| == |e|;
    if IsShort(c) {
      ShortIsLower(c);
      ShortIsLower(e);
    } else {
      assert l[6] == LowerChar(c[6]) && l[6] == LowerChar(e[6]);
    }
  }

  lemma ShortIsLower(c: string)
    requires IsShort(c)
    ensures Lower(c) == c
  {}

  /** So a row can shadow a chosen pair only through a script-tagged name. */
  lemma ShadowsNeedsScriptTag(p: (string, string), r: Row)
    requires HasName(p.0) && HasName(p.1) && Shadows(p, r)
    ensures IsTagged(p.0) || IsTagged(p.1)
  {
    NameIsShortOrTagged(p.0);
    NameIsShortOrTagged(p.1);
    if IsShort(p.0) && IsShort(p.1) {
      ShortIsLower(p.0);
      ShortIsLower(p.1);
    }
  }

  const SHADOW := Row("zh-hans-en", "zh-hans", "en", "opus-mt", 1, Some("X"), Some("E"), Some("1"), Some(1))

  /** And then it does: beside the published pair ("zh-Hans", "en") the router
      keeps a catalog row for "zh-hans", and both have the token "zh-hans-en". */
  lemma ScriptTaggedPairIsShadowed()
    ensures var p := ("zh-Hans", "en");
            && Offered({p}) && Kept({p}, [SHADOW]) == [SHADOW] && Acceptable(SHADOW)
            && SHADOW.token == PairToken(p.0, p.1) && Shadows(p, SHADOW)
  {
    TaggedTokenIsShaped();
    LowerOfScriptTag();
    ShadowIsAcceptable();
    KeptAlone({("zh-Hans", "en")}, SHADOW);
  }

  lemma ShadowIsAcceptable()
    ensures Acceptable(SHADOW) && SHADOW.token == SHADOW.from + "-" + SHADOW.to && SHADOW.from != "zh-Hans"
  {
    assert "zh-hans"[3] != "zh-Hans"[3];
  }

  lemma TaggedTokenIsShaped()
    ensures TokenShapeOk("zh-hans-en")
  {
    ThreeSubtags("zh", "hans", "en");
    assert "zh" + ['-'] + ("hans" + ['-'] + "en") == "zh-hans-en";
  }

  lemma KeptAlone(chosen: set<(string, string)>, row: Row)
    requires !Dropped(chosen, row)
    ensures Kept(chosen, [row]) == [row]
  {
    assert Kept(chosen, [row][..0]) == [];
  }

  lemma LowerOfScriptTag()
    ensures Lower("zh-Hans") == "zh-hans" && Lower("en") == "en"
    ensures PairToken("zh-Hans", "en") == "zh-hans-en"
  {
    var c := "zh-Hans";
    forall i | 0 <= i < 7 ensures Lower(c)[i] == "zh-hans"[i] { assert Lower(c)[i] == LowerChar(c[i]); }
    var s := "zh-Hans" + "-" + "en";
    forall i | 0 <= i < 10 ensures Lower(s)[i] == "zh-hans-en"[i] { assert Lower(s)[i] == LowerChar(s[i]); }
  }

  lemma ThreeSubtags(a: string, b: string, c: string)
    requires SubtagOk(a) && SubtagOk(b) && SubtagOk(c) && |a| + |b| + |c| <= 18
    ensures TokenShapeOk(a + ['-'] + (b + ['-'] + c))
  {
    SplitFirst(a, '-', b + ['-'] + c);
    SplitFirst(b, '-', c);
    SplitWhole(c, '-');
  }
}
