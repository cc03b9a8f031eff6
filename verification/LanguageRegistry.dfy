/** The language-registry generator: which upstream version a pair ships at. */
module LanguageRegistry {
  import opened Basics
  import opened Versions

  // ---- versions ----------------------------------------------------------

  /** Ends in `a` and digits, a last newline aside as `$` has it: an alpha,
      shipped to the nightly channel only. */
  predicate IsAlpha(v: string) {
    EndsInAlpha(v) || (v != "" && v[|v| - 1] == '\n' && EndsInAlpha(v[..|v| - 1]))
  }

  predicate EndsInAlpha(v: string) {
    exists i :: 0 <= i < |v| && v[i] == 'a' && AllDigits(v[i + 1..])
  }

  predicate IsBlank(c: char) { c == ' ' || '\t' <= c <= '\r' || '\U{1C}' <= c <= '\U{1F}' }

  /** `strip()`. */
  function Strip(s: string): string {
    if s != "" && IsBlank(s[0]) then Strip(s[1..])
    else if s != "" && IsBlank(s[|s| - 1]) then Strip(s[..|s| - 1])
    else s
  }

  /** Digits, with single underscores between them allowed, as one number. */
  function DigitGroups(s: string): Option<nat> {
    if s == "" || !IsDigit(s[|s| - 1]) then None
    else
      var init, unit := s[..|s| - 1], s[|s| - 1] as nat - '0' as nat;
      if init == "" then Some(unit)
      else
        var before := DigitGroups(if init[|init| - 1] == '_' then init[..|init| - 1] else init);
        if before.None? then None else Some(10 * before.value + unit)
  }

  /** `int(s)`, None where it raises: blanks around and one sign are allowed. */
  function PyInt(s: string): Option<int> {
    var t := Strip(s);
    var signed := t != "" && (t[0] == '+' || t[0] == '-');
    var size := DigitGroups(if signed then t[1..] else t);
    if size.None? then None else Some((if signed && t[0] == '-' then -1 else 1) * size.value)
  }

  /** Every dotted component as a number, or the single zero when one is not. */
  function VersionKey(v: string): seq<int> {
    var key := Numbers(Split(v, '.'));
    if key.None? then [0] else key.value
  }

  function Numbers(parts: seq<string>): Option<seq<int>> {
    if parts == [] then Some([])
    else
      var first, rest := PyInt(parts[0]), Numbers(parts[1..]);
      if first.None? || rest.None? then None else Some([first.value] + rest.value)
  }

  /** On plain numerals the reading is the decimal one. */
  lemma {:induction false} NumeralGroups(s: string)
    requires IsNumeral(s)
    ensures DigitGroups(s) == Some(Value(s))
  {
    if |s| > 1 { NumeralGroups(s[..|s| - 1]); }
  }

  lemma NumeralIsRead(s: string)
    requires IsNumeral(s)
    ensures PyInt(s) == Some(Value(s))
  {
    assert Strip(s) == s;
    NumeralGroups(s);
  }

  predicate AllNumerals(parts: seq<string>) { forall i :: 0 <= i < |parts| ==> IsNumeral(parts[i]) }

  function Values(parts: seq<string>): seq<int>
    requires AllNumerals(parts)
  {
    if parts == [] then [] else [Value(parts[0])] + Values(parts[1..])
  }

  lemma {:induction false} NumeralsRead(parts: seq<string>)
    requires AllNumerals(parts)
    ensures Numbers(parts) == Some(Values(parts))
  {
    if parts != [] {
      NumeralIsRead(parts[0]);
      NumeralsRead(parts[1..]);
    }
  }

  /** Versions made of numerals tie exactly when they have as many components and
      the same numbers: '2.01' ties with '2.1', '2.1.0' does not. */
  lemma NumericVersionsTieIff(v: string, w: string)
    requires AllNumerals(Split(v, '.')) && AllNumerals(Split(w, '.'))
    ensures VersionKey(v) == VersionKey(w) <==> Values(Split(v, '.')) == Values(Split(w, '.'))
  {
    KeyIsValues(v);
    KeyIsValues(w);
  }

  /** Python's order on tuples: component by component, a proper prefix first. */
  predicate Under(a: seq<int>, b: seq<int>) {
    if b == [] then false
    else if a == [] then true
    else a[0] < b[0] || (a[0] == b[0] && Under(a[1..], b[1..]))
  }

  lemma {:induction false} UnderIsStrictOrder(a: seq<int>, b: seq<int>, c: seq<int>)
    ensures !(Under(a, b) && Under(b, a))
    ensures Under(a, b) || a == b || Under(b, a)
    ensures Under(a, b) && Under(b, c) ==> Under(a, c)
  {
    if a != [] && b != [] {
      UnderIsStrictOrder(a[1..], b[1..], if c == [] then [] else c[1..]);
      if a[0] == b[0] && a[1..] == b[1..] {
        assert a == [a[0]] + a[1..] && b == [b[0]] + b[1..];
      }
    }
  }

  lemma {:induction false} ValuesAppend(parts: seq<string>, last: string)
    requires AllNumerals(parts) && IsNumeral(last)
    ensures AllNumerals(parts + [last]) && Values(parts + [last]) == Values(parts) + [Value(last)]
  {
    var all := parts + [last];
    assert AllNumerals(all);
    if parts != [] {
      ValuesAppend(parts[1..], last);
      assert all[1..] == parts[1..] + [last];
    } else {
      assert all[1..] == [];
    }
  }

  lemma {:induction false} LongerIsAbove(a: seq<int>, x: int)
    ensures Under(a, a + [x])
  {
    if a != [] {
      LongerIsAbove(a[1..], x);
      assert (a + [x])[1..] == a[1..] + [x];
    }
  }

  /** A version with ".0" added always ranks above the version itself. */
  lemma TrailingZeroRanksHigher(v: string)
    requires AllNumerals(Split(v, '.'))
    ensures Under(VersionKey(v), VersionKey(v + ".0"))
  {
    hide VersionKey, Under;
    var parts := Split(v, '.');
    SplitOfConcat(v, '.', "0");
    SplitWhole("0", '.');
    assert v + ['.'] + "0" == v + ".0";
    ValuesAppend(parts, "0");
    KeyIsValues(v);
    KeyIsValues(v + ".0");
    LongerIsAbove(Values(parts), Value("0"));
  }

  lemma KeyIsValues(v: string)
    requires AllNumerals(Split(v, '.'))
    ensures VersionKey(v) == Values(Split(v, '.'))
  {
    hide Numbers, Values, Split;
    NumeralsRead(Split(v, '.'));
  }

  datatype Record = Record(version: string, fileType: string)

  const JOINT: set<string> := {"model", "lex", "vocab"}
  const SPLIT: set<string> := {"model", "lex", "srcvocab", "trgvocab"}

  function TypesOf(rs: seq<Record>, v: string): set<string> {
    set r | r in rs && r.version == v :: r.fileType
  }

  predicate HasVersion(rs: seq<Record>, v: string) { exists r :: r in rs && r.version == v }

  /** A stable version whose files are exactly one of the two complete layouts. */
  predicate Shippable(rs: seq<Record>, v: string) {
    HasVersion(rs, v) && !IsAlpha(v) && (TypesOf(rs, v) == JOINT || TypesOf(rs, v) == SPLIT)
  }

  /** The distinct versions in order of first appearance: a dictionary's keys. */
  function Keys(rs: seq<Record>): (ks: seq<string>)
    ensures forall v :: v in ks <==> HasVersion(rs, v)
  {
    if rs == [] then []
    else
      var init, last := rs[..|rs| - 1], rs[|rs| - 1];
      assert rs == init + [last];
      if last.version in Keys(init) then Keys(init) else Keys(init) + [last.version]
  }

  function Place(s: seq<string>, v: string): (i: nat)
    ensures i <= |s| && (i < |s| <==> v in s) && (i < |s| ==> s[i] == v)
  {
    if s == [] then 0 else if s[0] == v then 0 else Place(s[1..], v) + 1
  }

  /** v is tried before w: a greater key, or the same key and seen earlier. */
  predicate Ahead(key: string -> seq<int>, order: seq<string>, v: string, w: string) {
    Under(key(w), key(v)) ||
    (key(v) == key(w) && Place(order, v) < Place(order, w))
  }

  lemma AheadIsStrictOrder(key: string -> seq<int>, order: seq<string>, u: string, v: string, w: string)
    requires u in order && v in order && w in order
    ensures u != v ==> (Ahead(key, order, u, v) <==> !Ahead(key, order, v, u))
    ensures Ahead(key, order, u, v) && Ahead(key, order, v, w) ==> Ahead(key, order, u, w)
  {
    UnderIsStrictOrder(key(u), key(v), key(w));
    UnderIsStrictOrder(key(v), key(w), key(u));
    UnderIsStrictOrder(key(w), key(v), key(u));
  }

  function Rel(key: string -> seq<int>, order: seq<string>): (string, string) -> bool { (v, w) => Ahead(key, order, v, w) }

  ghost predicate Ranked(rel: (string, string) -> bool, s: seq<string>) {
    forall i, j :: 0 <= i < j < |s| ==> rel(s[i], s[j])
  }

  /** `sorted(.., key=key, reverse=True)`, which keeps ties in order. */
  method SortDescending(key: string -> seq<int>, order: seq<string>, vs: seq<string>) returns (s: seq<string>)
    requires forall v :: v in vs ==> v in order
    requires forall i, j :: 0 <= i < j < |vs| ==> Place(order, vs[i]) < Place(order, vs[j])
    ensures Ranked(Rel(key, order), s) && forall v :: v in s <==> v in vs
  {
    s := [];
    for n := |vs| downto 0
      invariant Ranked(Rel(key, order), s) && forall v :: v in s <==> v in vs[n..]
    {
      var v := vs[n];
      assert forall w :: w in s ==> Place(order, v) < Place(order, w) by {
        forall w | w in s ensures Place(order, v) < Place(order, w) {
          var k :| 0 <= k < |vs[n + 1..]| && vs[n + 1..][k] == w;
        }
      }
      s := Insert(key, order, s, v);
      assert vs[n..] == [v] + vs[n + 1..];
    }
    assert vs[0..] == vs;
  }

  method Insert(key: string -> seq<int>, order: seq<string>, s: seq<string>, v: string) returns (r: seq<string>)
    requires Ranked(Rel(key, order), s) && v in order
    requires forall w :: w in s ==> w in order && Place(order, v) < Place(order, w)
    ensures Ranked(Rel(key, order), r) && forall w :: w in r <==> w in s || w == v
  {
    var at := 0;
    while at < |s| && Under(key(v), key(s[at]))
      invariant at <= |s| && forall i :: 0 <= i < at ==> Rel(key, order)(s[i], v)
    {
      at := at + 1;
    }
    r := s[..at] + [v] + s[at..];
    forall j | at <= j < |s| ensures Rel(key, order)(v, s[j]) { AheadOfRest(key, order, s, v, at, j); }
    RankedInsert(Rel(key, order), s, v, at, r);
  }

  lemma AheadOfRest(key: string -> seq<int>, order: seq<string>, s: seq<string>, v: string, at: nat, j: nat)
    requires Ranked(Rel(key, order), s) && v in order && at <= j < |s|
    requires forall w :: w in s ==> w in order && Place(order, v) < Place(order, w)
    requires !Under(key(v), key(s[at]))
    ensures Rel(key, order)(v, s[j])
  {
    var here := s[at];
    assert here in s && s[j] in s;
    UnderIsStrictOrder(key(v), key(here), key(here));
    if j > at {
      assert Rel(key, order)(here, s[j]);
      AheadIsStrictOrder(key, order, v, here, s[j]);
    }
  }

  lemma RankedInsert(rel: (string, string) -> bool, s: seq<string>, v: string, at: nat, r: seq<string>)
    requires Ranked(rel, s) && at <= |s| && r == s[..at] + [v] + s[at..]
    requires forall i :: 0 <= i < at ==> rel(s[i], v)
    requires forall j :: at <= j < |s| ==> rel(v, s[j])
    ensures Ranked(rel, r) && forall w :: w in r <==> w in s || w == v
  {
    forall i, j | 0 <= i < j < |r| ensures rel(r[i], r[j]) {
      assert r[i] == if i < at then s[i] else if i == at then v else s[i - 1];
      assert r[j] == if j < at then s[j] else if j == at then v else s[j - 1];
    }
    forall w ensures w in r <==> w in s || w == v {
      assert w in s <==> w in s[..at] || w in s[at..];
    }
  }

  ghost function Candidates(rs: seq<Record>): set<string> { set v | v in Keys(rs) && Shippable(rs, v) }

  /** v is tried before all other candidates. */
  ghost predicate First(key: string -> seq<int>, order: seq<string>, candidates: set<string>, v: string) {
    v in candidates && forall w :: w in candidates && w != v ==> Ahead(key, order, v, w)
  }

  /** v is the version the generator ships: the first shippable one tried. */
  ghost predicate Chosen(key: string -> seq<int>, rs: seq<Record>, v: string) {
    First(key, Keys(rs), Candidates(rs), v)
  }

  datatype Choice = Ships(version: string) | AlphaOnly | NoneComplete

  lemma {:induction false} KeysDistinct(rs: seq<Record>, i: nat, j: nat)
    requires i < j < |Keys(rs)|
    ensures Keys(rs)[i] != Keys(rs)[j]
  {
    var init := rs[..|rs| - 1];
    if j < |Keys(init)| { KeysDistinct(init, i, j); }
  }

  lemma {:induction false} PlaceOf(s: seq<string>, i: nat)
    requires i < |s| && forall k :: 0 <= k < i ==> s[k] != s[i]
    ensures Place(s, s[i]) == i
  {
    if i > 0 { PlaceOf(s[1..], i - 1); }
  }

  ghost predicate Grouped(rs: seq<Record>, order: seq<string>, types: map<string, set<string>>) {
    && order == Keys(rs)
    && (forall v :: v in types <==> v in order)
    && forall v :: v in types ==> types[v] == TypesOf(rs, v)
  }

  /** `by_version`: the file types seen at each version. */
  method GroupByVersion(rs: seq<Record>) returns (order: seq<string>, types: map<string, set<string>>)
    ensures Grouped(rs, order, types)
  {
    order, types := [], map[];
    for n := 0 to |rs|
      invariant Grouped(rs[..n], order, types)
    {
      var r := rs[n];
      assert rs[..n + 1] == rs[..n] + [r];
      GroupOneMore(rs[..n], order, types, r);
      if r.version !in types { order := order + [r.version]; }
      types := types[r.version := (if r.version in types then types[r.version] else {}) + {r.fileType}];
    }
    assert rs[..|rs|] == rs;
  }

  lemma GroupOneMore(rs: seq<Record>, order: seq<string>, types: map<string, set<string>>, r: Record)
    requires Grouped(rs, order, types)
    ensures var had := if r.version in types then types[r.version] else {};
            Grouped(rs + [r], if r.version in types then order else order + [r.version],
                    types[r.version := had + {r.fileType}])
  {
    hide Keys, TypesOf, HasVersion;
    OneMoreKey(rs, r);
    forall v ensures TypesOf(rs + [r], v) == TypesOf(rs, v) + if v == r.version then {r.fileType} else {} {
      OneMoreType(rs, r, v);
    }
    if r.version !in types { OneMoreType(rs, r, r.version); }
  }

  lemma OneMoreKey(rs: seq<Record>, r: Record)
    ensures Keys(rs + [r]) == if r.version in Keys(rs) then Keys(rs) else Keys(rs) + [r.version]
  {
    assert (rs + [r])[..|rs|] == rs;
  }

  method ChooseVersion(rs: seq<Record>) returns (c: Choice)
    ensures c.Ships? ==> Chosen(VersionKey, rs, c.version)
    ensures !c.Ships? ==> forall v :: !Shippable(rs, v)
    ensures c.AlphaOnly? <==> forall v :: HasVersion(rs, v) ==> IsAlpha(v)
  {
    c := ChooseBy(VersionKey, rs);
  }

  method ChooseBy(key: string -> seq<int>, rs: seq<Record>) returns (c: Choice)
    ensures c.Ships? ==> Chosen(key, rs, c.version)
    ensures !c.Ships? ==> forall v :: !Shippable(rs, v)
    ensures c.AlphaOnly? <==> forall v :: HasVersion(rs, v) ==> IsAlpha(v)
  {
    var order, types := GroupByVersion(rs);
    var stable := StableOnes(rs, order);
    var sorted := SortDescending(key, order, stable);
    var first := FirstComplete(key, rs, order, types, sorted);
    if first.Some? { return Ships(first.value); }
    if stable == [] { return AlphaOnly; }
    assert stable[0] in stable;
    return NoneComplete;
  }

  /** The first version tried whose file set is one of the two layouts. */
  method FirstComplete(key: string -> seq<int>, rs: seq<Record>, order: seq<string>, types: map<string, set<string>>, sorted: seq<string>)
    returns (v: Option<string>)
    requires order == Keys(rs) && Ranked(Rel(key, order), sorted)
    requires forall w :: w in sorted <==> w in order && !IsAlpha(w)
    requires forall w :: w in types <==> w in order
    requires forall w :: w in types ==> types[w] == TypesOf(rs, w)
    ensures v.Some? ==> v.value in sorted && Chosen(key, rs, v.value)
    ensures v.None? ==> forall w :: !Shippable(rs, w)
  {
    hide IsAlpha, Keys, TypesOf, HasVersion;
    for i := 0 to |sorted|
      invariant forall j :: 0 <= j < i ==> !Shippable(rs, sorted[j])
    {
      var w := sorted[i];
      assert w in sorted;
      if types[w] == JOINT || types[w] == SPLIT {
        FirstIsChosen(key, rs, order, sorted, i);
        return Some(w);
      }
    }
    forall w ensures !Shippable(rs, w) {
      assert HasVersion(rs, w) && !IsAlpha(w) ==> w in sorted;
    }
    return None;
  }

  lemma FirstIsChosen(key: string -> seq<int>, rs: seq<Record>, order: seq<string>, sorted: seq<string>, i: nat)
    requires order == Keys(rs) && Ranked(Rel(key, order), sorted) && i < |sorted|
    requires forall v :: v in sorted <==> v in order && !IsAlpha(v)
    requires Shippable(rs, sorted[i]) && forall j :: 0 <= j < i ==> !Shippable(rs, sorted[j])
    ensures Chosen(key, rs, sorted[i])
  {
    forall w | w in order && Shippable(rs, w) && w != sorted[i] ensures Ahead(key, order, sorted[i], w) {
      assert w in sorted;
      var j :| 0 <= j < |sorted| && sorted[j] == w;
      assert Rel(key, order)(sorted[i], sorted[j]);
    }
  }

  lemma OneMoreType(rs: seq<Record>, r: Record, v: string)
    ensures TypesOf(rs + [r], v) == TypesOf(rs, v) + if v == r.version then {r.fileType} else {}
    ensures !HasVersion(rs, v) ==> TypesOf(rs, v) == {}
  {
    assert forall x :: x in rs + [r] <==> x in rs || x == r;
  }

  /** `[v for v in by_version if not is_alpha_version(v)]`. */
  method StableOnes(rs: seq<Record>, order: seq<string>) returns (stable: seq<string>)
    requires order == Keys(rs)
    ensures forall v :: v in stable <==> v in order && !IsAlpha(v)
    ensures forall i, j :: 0 <= i < j < |stable| ==> Place(order, stable[i]) < Place(order, stable[j])
  {
    hide IsAlpha, Keys;
    stable := [];
    for n := 0 to |order|
      invariant forall v :: v in stable <==> v in order[..n] && !IsAlpha(v)
      invariant forall v :: v in stable ==> Place(order, v) < n
      invariant forall i, j :: 0 <= i < j < |stable| ==> Place(order, stable[i]) < Place(order, stable[j])
    {
      forall k | 0 <= k < n ensures order[k] != order[n] { KeysDistinct(rs, k, n); }
      PlaceOf(order, n);
      assert order[..n + 1] == order[..n] + [order[n]];
      if !IsAlpha(order[n]) { stable := stable + [order[n]]; }
    }
    assert order[..|order|] == order;
  }

  /** No candidate has a greater key. */
  ghost predicate IsTop(key: string -> seq<int>, candidates: set<string>, v: string) {
    v in candidates && forall w :: w in candidates ==> !Under(key(v), key(w))
  }

  ghost predicate TopIsUnique(key: string -> seq<int>, candidates: set<string>) {
    forall v, w :: IsTop(key, candidates, v) && IsTop(key, candidates, w) ==> v == w
  }

  lemma SameFiles(rs: seq<Record>, qs: seq<Record>)
    requires multiset(rs) == multiset(qs)
    ensures Candidates(rs) == Candidates(qs)
  {
    forall r: Record ensures r in rs <==> r in qs {
      assert r in rs <==> r in multiset(rs);
      assert r in qs <==> r in multiset(qs);
    }
    forall v ensures TypesOf(rs, v) == TypesOf(qs, v) && HasVersion(rs, v) == HasVersion(qs, v) {}
  }

  lemma FirstIsTop(key: string -> seq<int>, order: seq<string>, candidates: set<string>, v: string)
    requires First(key, order, candidates, v)
    ensures IsTop(key, candidates, v)
  {
    forall w | w in candidates ensures !Under(key(v), key(w)) {
      UnderIsStrictOrder(key(v), key(w), key(v));
    }
  }

  /** Seen first, a top candidate wins every tie. */
  lemma TopSeenFirstWins(key: string -> seq<int>, order: seq<string>, candidates: set<string>, v: string)
    requires IsTop(key, candidates, v) && order != [] && order[0] == v
    ensures First(key, order, candidates, v)
  {
    forall w | w in candidates && w != v ensures Ahead(key, order, v, w) {
      UnderIsStrictOrder(key(v), key(w), key(v));
    }
  }

  /** Records brought to the front: those of version v, then the rest. */
  function Front(rs: seq<Record>, v: string): (qs: seq<Record>)
    ensures multiset(qs) == multiset(rs)
  {
    assert multiset(Only(rs, v, true) + Only(rs, v, false)) == multiset(rs) by { OnlySplits(rs, v); }
    Only(rs, v, true) + Only(rs, v, false)
  }

  function Only(rs: seq<Record>, v: string, keep: bool): (qs: seq<Record>)
    ensures forall r :: r in qs <==> r in rs && (r.version == v) == keep
  {
    if rs == [] then []
    else (if (rs[0].version == v) == keep then [rs[0]] else []) + Only(rs[1..], v, keep)
  }

  lemma {:induction false} OnlySplits(rs: seq<Record>, v: string)
    ensures multiset(Only(rs, v, true) + Only(rs, v, false)) == multiset(rs)
  {
    hide Only;
    if rs == [] {
      OnlyNone(v);
    } else {
      var x, rest := rs[0], rs[1..];
      OnlySplits(rest, v);
      OnlyStep(rs, v, true);
      OnlyStep(rs, v, false);
      OneInFront(x, rest, Only(rest, v, true), Only(rest, v, false));
      assert rs == [x] + rest;
    }
  }

  lemma OnlyNone(v: string)
    ensures Only([], v, true) == [] && Only([], v, false) == []
  {}

  lemma OnlyStep(rs: seq<Record>, v: string, keep: bool)
    requires rs != []
    ensures Only(rs, v, keep) ==
            if (rs[0].version == v) == keep then [rs[0]] + Only(rs[1..], v, keep) else Only(rs[1..], v, keep)
  {}

  /** One more in front of either of two lists is one more of both together. */
  lemma OneInFront<T>(x: T, s: seq<T>, a: seq<T>, b: seq<T>)
    requires multiset(a + b) == multiset(s)
    ensures multiset([x] + a + b) == multiset([x] + s) && multiset(a + ([x] + b)) == multiset([x] + s)
  {
    assert [x] + a + b == [x] + (a + b);
    assert multiset([x] + s) == multiset{x} + multiset(s);
    assert multiset(a + ([x] + b)) == multiset(a) + multiset{x} + multiset(b);
  }

  lemma {:induction false} FirstKey(rs: seq<Record>)
    requires rs != []
    ensures Keys(rs) != [] && Keys(rs)[0] == rs[0].version
  {
    if |rs| > 1 { FirstKey(rs[..|rs| - 1]); }
  }

  lemma TopWinsInFront(key: string -> seq<int>, rs: seq<Record>, v: string)
    requires IsTop(key, Candidates(rs), v)
    ensures Chosen(key, Front(rs, v), v)
  {
    var qs := Front(rs, v);
    SameFiles(rs, qs);
    var r :| r in rs && r.version == v;
    assert r in Only(rs, v, true);
    assert qs[0] == Only(rs, v, true)[0];
    FirstKey(qs);
    TopSeenFirstWins(key, Keys(qs), Candidates(qs), v);
  }

  /** Whatever the key: every ordering of the records gives the same choice
      exactly when one shippable version alone has the greatest key. */
  lemma OrderIrrelevantIff(key: string -> seq<int>, rs: seq<Record>)
    ensures (forall p, q, v, w ::
               multiset(p) == multiset(rs) && multiset(q) == multiset(rs) && Chosen(key, p, v) && Chosen(key, q, w)
               ==> v == w)
            <==> TopIsUnique(key, Candidates(rs))
  {
    if TopIsUnique(key, Candidates(rs)) {
      forall p, q, v, w |
        multiset(p) == multiset(rs) && multiset(q) == multiset(rs) && Chosen(key, p, v) && Chosen(key, q, w)
        ensures v == w
      {
        TopInAnyOrder(key, rs, p, v);
        TopInAnyOrder(key, rs, q, w);
      }
    } else {
      var v, w :| IsTop(key, Candidates(rs), v) && IsTop(key, Candidates(rs), w) && v != w;
      TopWinsInFront(key, rs, v);
      TopWinsInFront(key, rs, w);
    }
  }

  lemma TopInAnyOrder(key: string -> seq<int>, rs: seq<Record>, p: seq<Record>, v: string)
    requires multiset(p) == multiset(rs) && Chosen(key, p, v)
    ensures IsTop(key, Candidates(rs), v)
  {
    FirstIsTop(key, Keys(p), Candidates(p), v);
    SameFiles(rs, p);
  }
}
