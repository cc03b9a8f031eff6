/** The security-notes page and the update catalog: which version, if any, the
    two pages together put forward. Regular expressions, tag stripping and
    calendar parsing are inputs: each paragraph, heading and row carries what
    they found in it. */
module AdvisoryPage {
  import opened Basics
  import opened Versions

  datatype Result<+T> = Ok(value: T) | Refused

  /** A notice dated more than this many days ahead of the clock is refused. */
  const FUTURE_DATE_TOLERANCE_DAYS: int := 1
  const CONTENT_MARKER := "<div class=\"content\">"
  const BEFORE_FIRST := "(before the first heading)"
  const ADVISORY_HOST := "https://msrc.microsoft.com/"

  predicate StartsWith(s: string, prefix: string) {
    |prefix| <= |s| && s[..|prefix|] == prefix
  }

  predicate EndsWith(s: string, suffix: string) {
    |suffix| <= |s| && s[|s| - |suffix|..] == suffix
  }

  predicate Contains(s: string, needle: string) {
    exists i :: 0 <= i <= |s| && StartsWith(s[i..], needle)
  }

  /** `s.rstrip("/")`. */
  function TrimSlashes(s: string): string {
    if s != "" && s[|s| - 1] == '/' then TrimSlashes(s[..|s| - 1]) else s
  }

  // ---- one paragraph -----------------------------------------------------

  datatype Link = Link(name: string, href: Option<string>)

  datatype Paragraph = Paragraph(
    text: string,                    // tags stripped, CVE dashes normalised
    exploit: bool,                   // the word "exploit"
    inTheWild: bool,
    commentary: bool,                // the recurring commentary sentence
    namesVersion: bool,
    saysStable: bool,
    saysFix: bool,
    mobile: bool,
    nonStable: bool,
    stable: seq<string>,             // builds in Stable clauses
    extended: seq<string>,           // builds in Extended Stable clauses
    associations: seq<set<string>>,  // CVEs of each exploited-and-fixed sentence
    cves: set<string>,               // every CVE in the text
    links: seq<Link>                 // anchors whose text is a CVE
  )

  predicate IsRelevant(p: Paragraph) {
    (p.exploit || p.inTheWild) &&
    !(p.commentary && !p.namesVersion && !p.saysStable && !p.saysFix)
  }

  predicate PointsAtItself(l: Link) {
    l.href.Some? && StartsWith(l.href.value, ADVISORY_HOST) &&
    EndsWith(TrimSlashes(l.href.value), "/" + l.name)
  }

  predicate AllParse(texts: seq<string>) {
    forall i :: 0 <= i < |texts| ==> Parse4(texts[i]).Some?
  }

  function Builds(texts: seq<string>): set<Version> {
    set t | t in texts && Parse4(t).Some? :: Parse4(t).value
  }

  datatype Classification =
    | NotRelevant
    | Unreadable
    | Notice(cves: set<string>, stable: set<Version>, extended: set<Version>)

  function Classify(p: Paragraph): Classification {
    if !IsRelevant(p) then NotRelevant
    else if p.mobile && p.stable == [] then NotRelevant
    else if p.nonStable then Unreadable
    else if p.mobile then Unreadable
    else if p.stable == [] && p.extended == [] then Unreadable
    else if |p.associations| != 1 then Unreadable
    else if p.cves != p.associations[0] then Unreadable
    else if exists l :: l in p.links && !PointsAtItself(l) then Unreadable
    else if exists c :: c in p.cves && !exists l :: l in p.links && l.name == c then Unreadable
    else if !AllParse(p.stable) || !AllParse(p.extended) then Unreadable
    else Notice(p.cves, Builds(p.stable), Builds(p.extended))
  }

  /** Every CVE a notice speaks for is linked to a target that names it. */
  lemma NoticeIsAttributed(p: Paragraph, c: string)
    requires Classify(p).Notice? && c in Classify(p).cves
    ensures exists l :: l in p.links && l.name == c && PointsAtItself(l)
    ensures c in p.associations[0] && (p.exploit || p.inTheWild)
  {
    var l :| l in p.links && l.name == c;
  }

  // ---- sections ----------------------------------------------------------

  datatype Section = Section(
    title: string, date: Option<int>, html: string,
    paragraphs: seq<Paragraph>, residualRelevant: bool)

  /** One match of the heading expression; `plainDate` is the day its title
      spells, if it is a plain date. */
  datatype Heading = Heading(
    start: nat, end: nat, level: string, title: string, plainDate: Option<int>)

  ghost predicate InOrder(ms: seq<Heading>, n: nat) {
    && (forall i :: 0 <= i < |ms| ==> ms[i].start <= ms[i].end <= n)
    && (forall i, j :: 0 <= i < j < |ms| ==> ms[i].end <= ms[j].start)
  }

  /** What the expressions find in a piece of the page. */
  datatype Scanner = Scanner(
    headings: string -> seq<Heading>,
    paragraphs: string -> seq<Paragraph>,
    residual: string -> bool)

  function HeadingDate(h: Heading): Option<int> {
    if h.level == "h2" then h.plainDate else None
  }

  /** The material between heading i - 1 and heading i. */
  function Between(body: string, ms: seq<Heading>, i: nat): string
    requires InOrder(ms, |body|) && i <= |ms|
  {
    body[if i == 0 then 0 else ms[i - 1].end..if i == |ms| then |body| else ms[i].start]
  }

  /** The sections of a body: one before the first heading and one after each,
      dated only under an h2 whose title is a plain date. */
  ghost predicate SectionsOf(body: string, sc: Scanner, secs: seq<Section>) {
    var ms := sc.headings(body);
    && InOrder(ms, |body|)
    && |secs| == |ms| + 1
    && (forall i {:trigger secs[i]} :: 0 <= i < |secs| ==>
          var html := Between(body, ms, i);
          secs[i] == Section(
            if i == 0 then BEFORE_FIRST else ms[i - 1].title,
            if i == 0 then None else HeadingDate(ms[i - 1]),
            html, sc.paragraphs(html), sc.residual(html)))
  }

  /** The first k sections and headings laid end to end. */
  ghost function Glue(body: string, ms: seq<Heading>, secs: seq<Section>, k: nat): string
    requires k <= |ms| && k <= |secs| && InOrder(ms, |body|)
  {
    if k == 0 then ""
    else Glue(body, ms, secs, k - 1) + secs[k - 1].html + body[ms[k - 1].start..ms[k - 1].end]
  }

  /** Where the material after heading k - 1 starts. */
  function Past(ms: seq<Heading>, k: nat): nat
    requires k <= |ms|
  {
    if k == 0 then 0 else ms[k - 1].end
  }

  ghost predicate HtmlOf(body: string, ms: seq<Heading>, secs: seq<Section>)
    requires InOrder(ms, |body|)
  {
    |secs| == |ms| + 1 && forall i {:trigger secs[i]} :: 0 <= i < |secs| ==> secs[i].html == Between(body, ms, i)
  }

  lemma {:induction false} GlueIsPrefix(body: string, ms: seq<Heading>, secs: seq<Section>, k: nat)
    requires InOrder(ms, |body|) && HtmlOf(body, ms, secs) && k <= |ms|
    ensures Past(ms, k) <= |body| && Glue(body, ms, secs, k) == body[..Past(ms, k)]
  {
    if k > 0 {
      GlueIsPrefix(body, ms, secs, k - 1);
      OneHeadingMore(body, ms, k, secs[k - 1].html);
    }
  }

  /** Up to heading k - 2, the material before the next, and that heading. */
  lemma OneHeadingMore(body: string, ms: seq<Heading>, k: nat, html: string)
    requires InOrder(ms, |body|) && 0 < k <= |ms| && Past(ms, k - 1) <= |body| && html == Between(body, ms, k - 1)
    ensures Past(ms, k) <= |body|
    ensures body[..Past(ms, k - 1)] + html + body[ms[k - 1].start..ms[k - 1].end] == body[..Past(ms, k)]
  {
    var a, b, c := Past(ms, k - 1), ms[k - 1].start, ms[k - 1].end;
    assert body[..a] + body[a..b] + body[b..c] == body[..c];
  }

  /** Nothing on the page vanishes: sections and headings are the whole body. */
  lemma SectionsConserveBody(body: string, sc: Scanner, secs: seq<Section>)
    requires SectionsOf(body, sc, secs)
    ensures var n := |sc.headings(body)|;
            Glue(body, sc.headings(body), secs, n) + secs[n].html == body
  {
    var ms, n := sc.headings(body), |sc.headings(body)|;
    assert HtmlOf(body, ms, secs);
    GlueIsPrefix(body, ms, secs, n);
    assert secs[n].html == Between(body, ms, n);
    hide SectionsOf, Glue, InOrder, HtmlOf;
    assert body[..Past(ms, n)] + body[Past(ms, n)..] == body;
  }

  predicate NewestFirst(secs: seq<Section>) {
    forall i, j :: 0 <= i < j < |secs| && secs[i].date.Some? && secs[j].date.Some? ==>
      secs[j].date.value <= secs[i].date.value
  }

  predicate SomeDated(secs: seq<Section>) {
    exists i :: 0 <= i < |secs| && secs[i].date.Some?
  }

  /** `[s for s in sections if s["date"] is not None]`, dates only. */
  function DatesOf(secs: seq<Section>): seq<int> {
    if secs == [] then []
    else
      var rest := DatesOf(secs[..|secs| - 1]);
      var last := secs[|secs| - 1].date;
      if last.Some? then rest + [last.value] else rest
  }

  predicate Descending(ds: seq<int>) {
    forall i :: 0 <= i < |ds| - 1 ==> ds[i + 1] <= ds[i]
  }

  lemma {:induction false} DescendingIsGlobal(ds: seq<int>, i: nat, j: nat)
    requires Descending(ds) && i <= j < |ds|
    ensures ds[j] <= ds[i]
    decreases j
  {
    if i < j { DescendingIsGlobal(ds, i, j - 1); }
  }

  lemma {:induction false} DateIsListed(secs: seq<Section>, i: nat)
    requires i < |secs| && secs[i].date.Some?
    ensures secs[i].date.value in DatesOf(secs)
  {
    var n := |secs| - 1;
    if i < n {
      DateIsListed(secs[..n], i);
    }
  }

  lemma {:induction false} ListedDateIsThere(secs: seq<Section>, d: int) returns (i: nat)
    requires d in DatesOf(secs)
    ensures i < |secs| && secs[i].date == Some(d)
  {
    var n := |secs| - 1;
    if d in DatesOf(secs[..n]) { i := ListedDateIsThere(secs[..n], d); } else { i := n; }
  }

  lemma {:induction false} DescendingGivesNewestFirst(secs: seq<Section>)
    requires Descending(DatesOf(secs))
    ensures NewestFirst(secs)
  {
    if secs != [] {
      var n := |secs| - 1;
      var init := secs[..n];
      var rest := DatesOf(init);
      var all := DatesOf(secs);
      assert rest == all[..|rest|];
      DescendingGivesNewestFirst(init);
      forall i | 0 <= i < n && secs[i].date.Some? && secs[n].date.Some?
        ensures secs[n].date.value <= secs[i].date.value
      {
        DateIsListed(init, i);
        var k :| 0 <= k < |rest| && rest[k] == secs[i].date.value;
        DescendingIsGlobal(all, k, |rest|);
      }
    }
  }

  lemma {:induction false} NewestFirstGivesDescending(secs: seq<Section>)
    requires NewestFirst(secs)
    ensures Descending(DatesOf(secs))
  {
    if secs != [] {
      var init := secs[..|secs| - 1];
      var rest := DatesOf(init);
      NewestFirstGivesDescending(init);
      if rest != [] {
        var i := ListedDateIsThere(init, rest[|rest| - 1]);
      }
    }
  }

  /** Comparing neighbours in the filtered list orders every dated pair. */
  lemma AdjacentGivesGlobal(secs: seq<Section>)
    ensures Descending(DatesOf(secs)) <==> NewestFirst(secs)
    ensures DatesOf(secs) != [] <==> SomeDated(secs)
  {
    if Descending(DatesOf(secs)) { DescendingGivesNewestFirst(secs); }
    if NewestFirst(secs) { NewestFirstGivesDescending(secs); }
    if DatesOf(secs) != [] { var i := ListedDateIsThere(secs, DatesOf(secs)[0]); }
    if i :| 0 <= i < |secs| && secs[i].date.Some? { DateIsListed(secs, i); }
  }

  /** `page.find(needle)`: the first place it occurs. */
  method Find(page: string, needle: string) returns (at: Option<nat>)
    ensures at.Some? ==> at.value <= |page| && StartsWith(page[at.value..], needle)
    ensures forall j :: 0 <= j <= |page| && StartsWith(page[j..], needle) ==>
              at.Some? && at.value <= j
  {
    for i := 0 to |page| + 1
      invariant forall j :: 0 <= j < i ==> !StartsWith(page[j..], needle)
    {
      if StartsWith(page[i..], needle) { return Some(i); }
    }
    return None;
  }

  method SplitBody(body: string, sc: Scanner) returns (secs: seq<Section>)
    requires InOrder(sc.headings(body), |body|)
    ensures SectionsOf(body, sc, secs)
  {
    var ms := sc.headings(body);
    secs := [];
    var pos := 0;
    var title, date := BEFORE_FIRST, None;
    for i := 0 to |ms|
      invariant |secs| == i && pos == if i == 0 then 0 else ms[i - 1].end
      invariant title == if i == 0 then BEFORE_FIRST else ms[i - 1].title
      invariant date == if i == 0 then None else HeadingDate(ms[i - 1])
      invariant forall j {:trigger secs[j]} :: 0 <= j < i ==>
                  var html := Between(body, ms, j);
                  secs[j] == Section(
                    if j == 0 then BEFORE_FIRST else ms[j - 1].title,
                    if j == 0 then None else HeadingDate(ms[j - 1]),
                    html, sc.paragraphs(html), sc.residual(html))
    {
      var html := body[pos..ms[i].start];
      assert html == Between(body, ms, i);
      secs := secs + [Section(title, date, html, sc.paragraphs(html), sc.residual(html))];
      title, date, pos := ms[i].title, HeadingDate(ms[i]), ms[i].end;
    }
    var html := body[pos..];
    assert html == Between(body, ms, |ms|);
    secs := secs + [Section(title, date, html, sc.paragraphs(html), sc.residual(html))];
  }

  ghost predicate FirstAt(page: string, needle: string, at: nat) {
    at <= |page| && StartsWith(page[at..], needle) &&
    forall j :: 0 <= j < at ==> !StartsWith(page[j..], needle)
  }

  /** The sections of the content container of a page. */
  ghost predicate Splits(page: string, sc: Scanner, secs: seq<Section>) {
    exists at: nat :: FirstAt(page, CONTENT_MARKER, at) && SectionsOf(page[at..], sc, secs)
  }

  lemma SectionsUnique(body: string, sc: Scanner, s: seq<Section>, t: seq<Section>)
    requires SectionsOf(body, sc, s) && SectionsOf(body, sc, t)
    ensures s == t
  {
    forall i | 0 <= i < |s| ensures s[i] == t[i] {}
  }

  lemma SplitsUnique(page: string, sc: Scanner, s: seq<Section>, t: seq<Section>)
    requires Splits(page, sc, s) && Splits(page, sc, t)
    ensures s == t
  {
    var a: nat :| FirstAt(page, CONTENT_MARKER, a) && SectionsOf(page[a..], sc, s);
    var b: nat :| FirstAt(page, CONTENT_MARKER, b) && SectionsOf(page[b..], sc, t);
    assert StartsWith(page[a..], CONTENT_MARKER) && StartsWith(page[b..], CONTENT_MARKER);
    SectionsUnique(page[a..], sc, s, t);
  }

  /** Every heading in the content container starts a section; the page is
      refused exactly when the container is missing, nothing is dated, or the
      dated sections are not newest-first. */
  method SplitSections(page: string, sc: Scanner) returns (r: Result<seq<Section>>)
    requires forall b {:trigger sc.headings(b)} :: InOrder(sc.headings(b), |b|)
    ensures r.Ok? ==> Splits(page, sc, r.value) && NewestFirst(r.value) && SomeDated(r.value)
    ensures r.Refused? ==> forall secs :: Splits(page, sc, secs) ==> !(NewestFirst(secs) && SomeDated(secs))
  {
    hide SectionsOf, DatesOf, NewestFirst, SomeDated, CONTENT_MARKER;
    var start := Find(page, CONTENT_MARKER);
    if start.None? { return Refused; }
    var body := page[start.value..];
    var sections := SplitBody(body, sc);
    assert FirstAt(page, CONTENT_MARKER, start.value);
    assert Splits(page, sc, sections);
    forall t | Splits(page, sc, t) ensures t == sections { SplitsUnique(page, sc, t, sections); }
    AdjacentGivesGlobal(sections);
    var dated := DatesOf(sections);
    if dated == [] { return Refused; }
    for i := 0 to |dated| - 1
      invariant forall j :: 0 <= j < i ==> dated[j + 1] <= dated[j]
    {
      if dated[i + 1] > dated[i] { return Refused; }
    }
    return Ok(sections);
  }

  // ---- selection ---------------------------------------------------------

  datatype Candidate = Candidate(version: Version, cves: set<string>, title: string, date: int)

  /** Every relevant paragraph parses and nothing relevant sits outside one. */
  predicate FullyRead(s: Section) {
    !s.residualRelevant && forall p :: p in s.paragraphs ==> !Classify(p).Unreadable?
  }

  predicate HasNotice(s: Section) {
    exists p :: p in s.paragraphs && Classify(p).Notice?
  }

  ghost function StableBuilds(s: Section): set<Version> {
    set p, v | p in s.paragraphs && Classify(p).Notice? && v in Classify(p).stable :: v
  }

  ghost function ExtendedBuilds(s: Section): set<Version> {
    set p, v | p in s.paragraphs && Classify(p).Notice? && v in Classify(p).extended :: v
  }

  ghost function Cves(s: Section): set<string> {
    set p, c | p in s.paragraphs && Classify(p).Notice? && c in Classify(p).cves :: c
  }

  /** Section k decides: the first with a notice, dated, and everything down to
      it read in full. */
  ghost predicate Decides(secs: seq<Section>, k: nat) {
    && k < |secs|
    && (forall j :: 0 <= j < k ==> FullyRead(secs[j]) && !HasNotice(secs[j]))
    && FullyRead(secs[k]) && HasNotice(secs[k]) && secs[k].date.Some?
  }

  /** This paragraph ties one of the CVEs to a desktop build other than v. */
  predicate Clash(p: Paragraph, cves: set<string>, v: Version) {
    && (exists c :: c in cves && Contains(p.text, c))
    && p.exploit
    && Builds(p.stable + p.extended) - {v} != {}
  }

  predicate Clean(s: Section, cves: set<string>, v: Version) {
    forall p :: p in s.paragraphs ==> !Clash(p, cves, v)
  }

  ghost predicate Selected(secs: seq<Section>, today: int, k: nat, c: Candidate) {
    && Decides(secs, k)
    && c.date == secs[k].date.value && c.title == secs[k].title && c.cves == Cves(secs[k])
    && c.date <= today + FUTURE_DATE_TOLERANCE_DAYS
    && StableBuilds(secs[k]) == {c.version}
    && ExtendedBuilds(secs[k]) <= {c.version}
    && forall j :: 0 <= j < |secs| && j != k ==> Clean(secs[j], c.cves, c.version)
  }

  /** The relation picks at most one section and one candidate. */
  lemma SelectedUnique(secs: seq<Section>, today: int, k: nat, c: Candidate, k': nat, c': Candidate)
    requires Selected(secs, today, k, c) && Selected(secs, today, k', c')
    ensures k == k' && c == c'
  {
    assert HasNotice(secs[k]) && HasNotice(secs[k']);
    assert c.version in {c'.version};
  }

  /** Nothing newer is hidden: no section with a strictly later date, and none
      above the selected one, holds a notice or unread relevant material. */
  lemma NothingNewerIsHidden(secs: seq<Section>, today: int, k: nat, c: Candidate, j: nat)
    requires NewestFirst(secs) && Selected(secs, today, k, c) && j < |secs|
    requires j < k || (secs[j].date.Some? && secs[j].date.value > c.date)
    ensures j < k && FullyRead(secs[j]) && !HasNotice(secs[j])
  {}

  /** Older material changes the answer exactly when it ties a selected CVE to
      another build. */
  lemma HistoryOnlyVetoesByClash(secs: seq<Section>, older: seq<Section>, today: int, k: nat, c: Candidate)
    requires Selected(secs, today, k, c)
    ensures Selected(secs + older, today, k, c) <==>
            forall j :: 0 <= j < |older| ==> Clean(older[j], c.cves, c.version)
    ensures forall k', c' :: Selected(secs + older, today, k', c') ==> k' == k && c' == c
  {
    var all := secs + older;
    assert Decides(all, k) by {
      assert forall j :: 0 <= j <= k ==> all[j] == secs[j];
    }
    if Selected(all, today, k, c) {
      forall j | 0 <= j < |older| ensures Clean(older[j], c.cves, c.version) {
        assert all[|secs| + j] == older[j];
      }
    }
    forall k': nat, c' | Selected(all, today, k', c') ensures k' == k && c' == c {
      assert HasNotice(all[k]) && HasNotice(all[k']);
      assert c.version in StableBuilds(all[k]);
    }
  }

  /** Sections that mention none of the selected CVEs change nothing. */
  lemma UnrelatedHistoryIsInert(secs: seq<Section>, older: seq<Section>, today: int, k: nat, c: Candidate)
    requires Selected(secs, today, k, c)
    requires forall s, p, x :: s in older && p in s.paragraphs && x in c.cves ==> !Contains(p.text, x)
    ensures Selected(secs + older, today, k, c)
  {
    forall j | 0 <= j < |older| ensures Clean(older[j], c.cves, c.version) {
      forall p | p in older[j].paragraphs ensures !Clash(p, c.cves, c.version) {
        assert older[j] in older;
      }
    }
    HistoryOnlyVetoesByClash(secs, older, today, k, c);
  }

  /** The selected version was read from a text and so survives persistence. */
  lemma SelectedIsReadable(secs: seq<Section>, today: int, k: nat, c: Candidate)
    requires Selected(secs, today, k, c)
    ensures Readable(c.version)
  {
    assert c.version in StableBuilds(secs[k]);
    var p :| p in secs[k].paragraphs && Classify(p).Notice? && c.version in Classify(p).stable;
    var t :| t in p.stable && Parse4(t) == Some(c.version);
    ParsedSurvivesPersistence(t);
  }

  method ReadNotices(s: Section) returns (r: Result<seq<Classification>>)
    ensures r.Ok? <==> forall p :: p in s.paragraphs ==> !Classify(p).Unreadable?
    ensures r.Ok? ==> forall n :: n in r.value <==>
              n.Notice? && exists p :: p in s.paragraphs && Classify(p) == n
  {
    var notices: seq<Classification> := [];
    for i := 0 to |s.paragraphs|
      invariant forall j :: 0 <= j < i ==> !Classify(s.paragraphs[j]).Unreadable?
      invariant forall n :: n in notices <==>
                  n.Notice? && exists p :: p in s.paragraphs[..i] && Classify(p) == n
    {
      var n := Classify(s.paragraphs[i]);
      assert s.paragraphs[..i + 1] == s.paragraphs[..i] + [s.paragraphs[i]];
      if n.Unreadable? { return Refused; }
      if n.Notice? { notices := notices + [n]; }
    }
    assert s.paragraphs[..|s.paragraphs|] == s.paragraphs;
    return Ok(notices);
  }

  /** The ambiguity scan over every section but the selected one. */
  method ScanOthers(secs: seq<Section>, k: nat, cves: set<string>, v: Version) returns (clean: bool)
    ensures clean <==> forall j :: 0 <= j < |secs| && j != k ==> Clean(secs[j], cves, v)
  {
    for i := 0 to |secs|
      invariant forall j :: 0 <= j < i && j != k ==> Clean(secs[j], cves, v)
    {
      if i != k {
        var ps := secs[i].paragraphs;
        for m := 0 to |ps|
          invariant forall j :: 0 <= j < m ==> !Clash(ps[j], cves, v)
        {
          if Clash(ps[m], cves, v) {
            assert !Clean(secs[i], cves, v);
            return false;
          }
        }
      }
    }
    return true;
  }

  lemma SingletonOf<T>(s: set<T>, x: T)
    requires |s| == 1 && x in s
    ensures s == {x}
  {
    assert |s - {x}| == 0;
  }

  method SelectCandidate(secs: seq<Section>, today: int) returns (r: Result<Candidate>)
    ensures r.Ok? ==> exists k :: Selected(secs, today, k, r.value)
    ensures r.Refused? ==> !exists k, c :: Selected(secs, today, k, c)
  {
    var notices: seq<Classification> := [];
    var k := 0;
    while k < |secs|
      invariant k <= |secs|
      invariant forall j :: 0 <= j < k ==> FullyRead(secs[j]) && !HasNotice(secs[j])
      invariant notices == []
    {
      var read := ReadNotices(secs[k]);
      if read.Refused? || secs[k].residualRelevant {
        NoneSelected(secs, today, k);
        return Refused;
      }
      NoticesOf(secs[k], read.value);
      if read.value != [] {
        if secs[k].date.None? {
          NoneSelected(secs, today, k);
          return Refused;
        }
        notices := read.value;
        break;
      }
      k := k + 1;
    }
    if k == |secs| { return Refused; }
    assert Decides(secs, k);
    var s := secs[k];
    var stable := set n, v | n in notices && v in n.stable :: v;
    var extended := set n, v | n in notices && v in n.extended :: v;
    var cves := set n, c | n in notices && c in n.cves :: c;
    assert stable == StableBuilds(s);
    assert extended == ExtendedBuilds(s);
    assert cves == Cves(s);
    if s.date.value > today + FUTURE_DATE_TOLERANCE_DAYS || |stable| != 1 {
      OnlyDecider(secs, today, k);
      return Refused;
    }
    var version :| version in stable;
    SingletonOf(stable, version);
    var c := Candidate(version, cves, s.title, s.date.value);
    var clean := ScanOthers(secs, k, cves, version);
    if !(extended <= {version}) || !clean {
      OnlyDecider(secs, today, k);
      return Refused;
    }
    assert Selected(secs, today, k, c);
    return Ok(c);
  }

  lemma NoticesOf(s: Section, ns: seq<Classification>)
    requires forall n :: n in ns <==> n.Notice? && exists p :: p in s.paragraphs && Classify(p) == n
    ensures ns != [] <==> HasNotice(s)
  {
    if ns != [] { assert ns[0] in ns; }
    if HasNotice(s) {
      var p :| p in s.paragraphs && Classify(p).Notice?;
      assert Classify(p) in ns;
    }
  }

  lemma NoneSelected(secs: seq<Section>, today: int, k: nat)
    requires k < |secs|
    requires forall j :: 0 <= j < k ==> !HasNotice(secs[j])
    requires !FullyRead(secs[k]) || (HasNotice(secs[k]) && secs[k].date.None?)
    ensures !exists i, c :: Selected(secs, today, i, c)
  {
    forall i: nat, c ensures !Selected(secs, today, i, c) {
      assert i < k ==> !HasNotice(secs[i]);
    }
  }

  /** With section k deciding, any selection is of section k. */
  lemma OnlyDecider(secs: seq<Section>, today: int, k: nat)
    requires Decides(secs, k)
    ensures forall i, c :: Selected(secs, today, i, c) ==> i == k
  {
    forall i: nat, c | Selected(secs, today, i, c) ensures i == k {
      assert HasNotice(secs[k]) && HasNotice(secs[i]);
    }
  }

  /** What a notes page puts forward. */
  ghost predicate PutsForward(page: string, sc: Scanner, today: int, c: Candidate) {
    exists secs, k: nat ::
      Splits(page, sc, secs) && NewestFirst(secs) && SomeDated(secs) && Selected(secs, today, k, c)
  }

  /** A page puts forward at most one candidate, and one that can be persisted. */
  lemma PutsForwardUnique(page: string, sc: Scanner, today: int, c: Candidate, c': Candidate)
    requires PutsForward(page, sc, today, c) && PutsForward(page, sc, today, c')
    ensures c == c' && Readable(c.version)
  {
    var s, k: nat :| Splits(page, sc, s) && NewestFirst(s) && SomeDated(s) && Selected(s, today, k, c);
    var t, m: nat :| Splits(page, sc, t) && NewestFirst(t) && SomeDated(t) && Selected(t, today, m, c');
    SplitsUnique(page, sc, s, t);
    SelectedUnique(s, today, k, c, m, c');
    SelectedIsReadable(s, today, k, c);
  }

  /** On a page that puts a candidate forward, no section dated later holds a
      notice, readable or not. */
  lemma PageHidesNothingNewer(page: string, sc: Scanner, today: int, c: Candidate, secs: seq<Section>, j: nat)
    requires PutsForward(page, sc, today, c) && Splits(page, sc, secs) && j < |secs|
    requires secs[j].date.Some? && secs[j].date.value > c.date
    ensures FullyRead(secs[j]) && !HasNotice(secs[j])
  {
    var s, k: nat :| Splits(page, sc, s) && NewestFirst(s) && SomeDated(s) && Selected(s, today, k, c);
    SplitsUnique(page, sc, s, secs);
    NothingNewerIsHidden(secs, today, k, c, j);
  }

  method Discover(page: string, sc: Scanner, today: int) returns (r: Result<Candidate>)
    requires forall b {:trigger sc.headings(b)} :: InOrder(sc.headings(b), |b|)
    ensures r.Ok? ==> PutsForward(page, sc, today, r.value)
    ensures r.Refused? ==> forall c :: !PutsForward(page, sc, today, c)
  {
    var split := SplitSections(page, sc);
    if split.Refused? { return Refused; }
    forall t | Splits(page, sc, t) ensures t == split.value { SplitsUnique(page, sc, t, split.value); }
    r := SelectCandidate(split.value, today);
  }

  // ---- the catalog -------------------------------------------------------

  /** One result row; `title` is present when it has the x64 runtime form, as
      the major and the build text it names. */
  datatype Row = Row(
    guid: string, cells: nat, title: Option<(nat, string)>, product: string,
    classification: string, date: Option<int>, sizes: seq<(string, nat)>)

  predicate Concerns(r: Row, v: Version) {
    r.cells >= 7 && r.title.Some? && Parse4(r.title.value.1) == Some(v)
  }

  /** The sizes listed under the row's own identifier. */
  function OwnSizes(r: Row, n: nat): seq<nat>
    requires n <= |r.sizes|
  {
    if n == 0 then []
    else OwnSizes(r, n - 1) + (if r.sizes[n - 1].0 == r.guid then [r.sizes[n - 1].1] else [])
  }

  predicate SoundRow(r: Row, v: Version, today: int)
    requires Concerns(r, v)
  {
    && r.title.value.0 == v.major
    && r.product == "Microsoft Edge" && r.classification == "Updates"
    && r.date.Some? && r.date.value <= today + FUTURE_DATE_TOLERANCE_DAYS
    && var own := OwnSizes(r, |r.sizes|); |own| == 1 && own[0] > 0
  }

  /** Exactly one row concerns the build, and it is sound. */
  ghost predicate Corroborated(rows: seq<Row>, v: Version, today: int, i: nat) {
    && i < |rows| && Concerns(rows[i], v) && SoundRow(rows[i], v, today)
    && forall j :: 0 <= j < |rows| && j != i ==> !Concerns(rows[j], v)
  }

  method CorroborateCatalog(hasTable: bool, rows: seq<Row>, v: Version, today: int) returns (r: Result<Row>)
    ensures r.Ok? ==> hasTable && exists i: nat :: Corroborated(rows, v, today, i) && rows[i] == r.value
    ensures r.Refused? && hasTable ==> !exists i :: Corroborated(rows, v, today, i)
  {
    hide Concerns, SoundRow;
    if !hasTable { return Refused; }
    var matches: seq<Row> := [];
    ghost var first, second := 0, 0;
    for n := 0 to |rows|
      invariant forall j :: 0 <= j < n && Concerns(rows[j], v) ==> SoundRow(rows[j], v, today)
      invariant |matches| == 0 ==> forall j :: 0 <= j < n ==> !Concerns(rows[j], v)
      invariant |matches| == 1 ==>
                  && 0 <= first < n && Concerns(rows[first], v) && matches[0] == rows[first]
                  && forall j :: 0 <= j < n && j != first ==> !Concerns(rows[j], v)
      invariant |matches| > 1 ==>
                  0 <= first < second < n && Concerns(rows[first], v) && Concerns(rows[second], v)
    {
      if Concerns(rows[n], v) {
        if !SoundRow(rows[n], v, today) { return Refused; }
        if |matches| == 0 { first := n; } else if |matches| == 1 { second := n; }
        matches := matches + [rows[n]];
      }
    }
    if |matches| != 1 { return Refused; }
    assert Corroborated(rows, v, today, first);
    return Ok(matches[0]);
  }
}
