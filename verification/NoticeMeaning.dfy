/** What the notes page and the catalog must hold for a version to be taken, in
    terms of the paragraphs, headings and rows themselves. */
module NoticeMeaning {
  import opened Basics
  import opened Versions
  import opened AdvisoryPage

  // ---- texts -------------------------------------------------------------

  lemma StartsWithIff(s: string, prefix: string)
    ensures StartsWith(s, prefix) <==> exists rest :: s == prefix + rest
  {
    if StartsWith(s, prefix) { assert s == prefix + s[|prefix|..]; }
  }

  lemma EndsWithIff(s: string, suffix: string)
    ensures EndsWith(s, suffix) <==> exists front :: s == front + suffix
  {
    if EndsWith(s, suffix) { assert s == s[..|s| - |suffix|] + suffix; }
  }

  /** Somewhere in the text. */
  lemma ContainsIff(s: string, needle: string)
    ensures Contains(s, needle) <==> exists front, rest :: s == front + needle + rest
  {
    if Contains(s, needle) {
      var i :| 0 <= i <= |s| && StartsWith(s[i..], needle);
      assert s == s[..i] + needle + s[i + |needle|..];
    }
    if front, rest :| s == front + needle + rest {
      assert s[|front|..] == needle + rest;
      assert StartsWith(s[|front|..], needle);
    }
  }

  function Slashes(n: nat): string { seq(n, _ => '/') }

  /** Without its last slashes a text ends in no slash, and they are all it lost. */
  lemma {:induction false} TrimSlashesIs(s: string) returns (n: nat)
    ensures s == TrimSlashes(s) + Slashes(n)
    ensures TrimSlashes(s) == "" || TrimSlashes(s)[|TrimSlashes(s)| - 1] != '/'
  {
    if s != "" && s[|s| - 1] == '/' {
      n := TrimSlashesIs(s[..|s| - 1]);
      n := n + 1;
      assert s == s[..|s| - 1] + "/";
      assert Slashes(n) == Slashes(n - 1) + "/";
      assert TrimSlashes(s) == TrimSlashes(s[..|s| - 1]);
    } else {
      n := 0;
    }
  }

  lemma {:induction false} TrimSlashesOf(front: string, n: nat)
    requires front == "" || front[|front| - 1] != '/'
    ensures TrimSlashes(front + Slashes(n)) == front
  {
    var s := front + Slashes(n);
    if n > 0 {
      assert s[..|s| - 1] == front + Slashes(n - 1);
      TrimSlashesOf(front, n - 1);
    } else {
      assert s == front;
    }
  }

  /** The link goes to the Security Update Guide's host and its path ends in a slash
      and the link's own text, further slashes aside. */
  ghost predicate NamesItself(l: Link) {
    && l.href.Some?
    && (exists rest :: l.href.value == "https://msrc.microsoft.com/" + rest)
    && exists front, n :: EndsInName(l, front, n)
  }

  ghost predicate EndsInName(l: Link, front: string, n: nat) {
    var path := front + "/" + l.name;
    l.href.Some? && l.href.value == path + Slashes(n) && path[|path| - 1] != '/'
  }

  lemma PointsAtItselfIff(l: Link)
    ensures PointsAtItself(l) <==> NamesItself(l)
  {
    hide TrimSlashes, Slashes, StartsWith, EndsWith;
    if l.href.Some? {
      var href := l.href.value;
      StartsWithIff(href, ADVISORY_HOST);
      EndsWithIff(TrimSlashes(href), "/" + l.name);
      if PointsAtItself(l) {
        var n := TrimSlashesIs(href);
        var front :| TrimSlashes(href) == front + ("/" + l.name);
        assert front + ("/" + l.name) == front + "/" + l.name;
        assert EndsInName(l, front, n);
      }
      if NamesItself(l) {
        var front, n :| EndsInName(l, front, n);
        TrimSlashesOf(front + "/" + l.name, n);
        assert front + ("/" + l.name) == front + "/" + l.name;
      }
    }
  }

  // ---- one paragraph -----------------------------------------------------

  /** It speaks of an exploit and is not the bare commentary. */
  ghost predicate Speaks(p: Paragraph) {
    (p.exploit || p.inTheWild) && (!p.commentary || p.namesVersion || p.saysStable || p.saysFix)
  }

  /** So it must be read, unless it is about mobile platforms alone. */
  ghost predicate MustBeRead(p: Paragraph) { Speaks(p) && (!p.mobile || |p.stable| > 0) }

  /** It can be read: no other channel, no mobile platform, some Stable or Extended
      Stable clause, one sentence that ties the fix to all the CVEs it mentions, each
      of them linked and each link to itself, and builds of four fields. */
  ghost predicate CanBeRead(p: Paragraph) {
    && !p.nonStable && !p.mobile && |p.stable| + |p.extended| > 0
    && |p.associations| == 1 && p.associations[0] == p.cves
    && (forall l :: l in p.links ==> NamesItself(l))
    && (forall c :: c in p.cves ==> exists l :: l in p.links && l.name == c)
    && (forall t :: t in p.stable || t in p.extended ==> Parse4(t).Some?)
  }

  ghost predicate Reads(texts: seq<string>, v: Version) { exists t :: t in texts && Parse4(t) == Some(v) }

  /** The three answers about a paragraph, and what a notice carries. */
  lemma ClassifyIff(p: Paragraph)
    ensures Classify(p).NotRelevant? <==> !MustBeRead(p)
    ensures Classify(p).Unreadable? <==> MustBeRead(p) && !CanBeRead(p)
    ensures Classify(p).Notice? <==> MustBeRead(p) && CanBeRead(p)
    ensures Classify(p).Notice? ==>
              && Classify(p).cves == p.cves
              && (forall v :: v in Classify(p).stable <==> Reads(p.stable, v))
              && (forall v :: v in Classify(p).extended <==> Reads(p.extended, v))
  {
    hide Parse4, NamesItself, PointsAtItself;
    forall l: Link ensures PointsAtItself(l) <==> NamesItself(l) { PointsAtItselfIff(l); }
    AllParseIff(p.stable);
    AllParseIff(p.extended);
  }

  lemma AllParseIff(texts: seq<string>)
    ensures AllParse(texts) <==> forall t :: t in texts ==> Parse4(t).Some?
  {
    hide Parse4;
    forall i | 0 <= i < |texts| ensures texts[i] in texts {}
  }

  // ---- the selection -----------------------------------------------------

  /** A paragraph taken as a notice in this section. */
  ghost predicate IsNotice(s: Section, p: Paragraph) { p in s.paragraphs && MustBeRead(p) && CanBeRead(p) }

  /** Nothing relevant stands outside a paragraph, and what must be read can be. */
  ghost predicate Clear(s: Section) {
    !s.residualRelevant && forall p :: p in s.paragraphs && MustBeRead(p) ==> CanBeRead(p)
  }

  ghost predicate Silent(s: Section) { forall p :: p in s.paragraphs ==> !MustBeRead(p) }

  /** In the section some notice names v in a Stable clause, and no notice names any
      other build in a Stable or Extended Stable clause. */
  ghost predicate NamesOnly(s: Section, v: Version) {
    && (exists p :: IsNotice(s, p) && Reads(p.stable, v))
    && forall p, w :: IsNotice(s, p) && (Reads(p.stable, w) || Reads(p.extended, w)) ==> w == v
  }

  /** A paragraph elsewhere that mentions an exploit and a CVE of a notice of s, and
      names another build. */
  ghost predicate Contradicts(s: Section, p: Paragraph, v: Version) {
    && p.exploit
    && (exists q, c :: IsNotice(s, q) && c in q.cves && Mentions(p, c))
    && exists w :: w != v && (Reads(p.stable, w) || Reads(p.extended, w))
  }

  ghost predicate Mentions(p: Paragraph, c: string) { exists front, rest :: p.text == front + c + rest }

  /** Section k puts version v forward, clause by clause. */
  ghost predicate Puts(secs: seq<Section>, today: int, k: nat, v: Version) {
    && k < |secs| && secs[k].date.Some? && secs[k].date.value <= today + 1
    && (forall j :: 0 <= j < k ==> Clear(secs[j]) && Silent(secs[j]))
    && Clear(secs[k]) && NamesOnly(secs[k], v)
    && forall j, p :: 0 <= j < |secs| && j != k && p in secs[j].paragraphs ==> !Contradicts(secs[k], p, v)
  }

  lemma SectionMeans(s: Section)
    ensures FullyRead(s) <==> Clear(s)
    ensures Clear(s) ==> (HasNotice(s) <==> !Silent(s))
    ensures HasNotice(s) <==> exists p :: IsNotice(s, p)
    ensures forall v :: v in StableBuilds(s) <==> exists p :: IsNotice(s, p) && Reads(p.stable, v)
    ensures forall v :: v in ExtendedBuilds(s) <==> exists p :: IsNotice(s, p) && Reads(p.extended, v)
    ensures forall c :: c in Cves(s) <==> exists p :: IsNotice(s, p) && c in p.cves
  {
    hide Classify, MustBeRead, CanBeRead, Reads;
    forall p: Paragraph
      ensures Classify(p).Unreadable? <==> MustBeRead(p) && !CanBeRead(p)
      ensures Classify(p).Notice? <==> MustBeRead(p) && CanBeRead(p)
      ensures Classify(p).Notice? ==>
                && Classify(p).cves == p.cves
                && (forall v :: v in Classify(p).stable <==> Reads(p.stable, v))
                && (forall v :: v in Classify(p).extended <==> Reads(p.extended, v))
    {
      ClassifyIff(p);
    }
    if HasNotice(s) {
      var p :| p in s.paragraphs && Classify(p).Notice?;
      assert IsNotice(s, p);
    }
    if p :| IsNotice(s, p) { assert Classify(p).Notice?; }
    if Clear(s) && !Silent(s) {
      var p :| p in s.paragraphs && MustBeRead(p);
      assert IsNotice(s, p);
    }
  }

  lemma BuildsMean(p: Paragraph, v: Version)
    ensures Builds(p.stable + p.extended) - {v} != {} <==>
            exists w :: w != v && (Reads(p.stable, w) || Reads(p.extended, w))
  {
    hide Parse4;
    if w :| w in Builds(p.stable + p.extended) - {v} {
      var t :| t in p.stable + p.extended && Parse4(t) == Some(w);
      assert t in p.stable || t in p.extended;
      assert Reads(p.stable, w) || Reads(p.extended, w);
    }
    if w :| w != v && (Reads(p.stable, w) || Reads(p.extended, w)) {
      var t :| (t in p.stable || t in p.extended) && Parse4(t) == Some(w);
      assert t in p.stable + p.extended;
      assert w in Builds(p.stable + p.extended) - {v};
    }
  }

  lemma ClashMeans(s: Section, p: Paragraph, v: Version)
    ensures Clash(p, Cves(s), v) <==> Contradicts(s, p, v)
  {
    hide Parse4, Contains, Cves, IsNotice, Reads, Builds;
    SectionMeans(s);
    BuildsMean(p, v);
    forall c ensures Contains(p.text, c) <==> Mentions(p, c) { ContainsIff(p.text, c); }
    if Contradicts(s, p, v) {
      var q, c :| IsNotice(s, q) && c in q.cves && Mentions(p, c);
      assert c in Cves(s);
    }
    if Clash(p, Cves(s), v) {
      var c :| c in Cves(s) && Contains(p.text, c);
      var q :| IsNotice(s, q) && c in q.cves;
    }
  }

  /** A version is selected from section k if and only if the section puts it
      forward; the CVEs are those its notices' sentences speak of. */
  lemma SelectedIff(secs: seq<Section>, today: int, k: nat, v: Version)
    ensures (exists c :: Selected(secs, today, k, c) && c.version == v) <==> Puts(secs, today, k, v)
    ensures forall c :: Selected(secs, today, k, c) ==>
              && c.title == secs[k].title && secs[k].date == Some(c.date)
              && forall x :: x in c.cves <==> exists p :: IsNotice(secs[k], p) && x in p.associations[0]
  {
    hide FullyRead, HasNotice, Clear, Silent, StableBuilds, ExtendedBuilds, Cves, Clash, Contradicts, Reads, Classify;
    forall j | 0 <= j < |secs|
      ensures FullyRead(secs[j]) <==> Clear(secs[j])
      ensures Clear(secs[j]) ==> (HasNotice(secs[j]) <==> !Silent(secs[j]))
    {
      SectionMeans(secs[j]);
    }
    if k < |secs| {
      SectionMeans(secs[k]);
      ForwardMeans(secs[k], v);
      forall j, p | 0 <= j < |secs| && p in secs[j].paragraphs
        ensures Clash(p, Cves(secs[k]), v) <==> Contradicts(secs[k], p, v)
      {
        ClashMeans(secs[k], p, v);
      }
      if Puts(secs, today, k, v) {
        var c := Candidate(v, Cves(secs[k]), secs[k].title, secs[k].date.value);
        assert Selected(secs, today, k, c);
      }
    }
  }

  lemma ForwardMeans(s: Section, v: Version)
    ensures StableBuilds(s) == {v} && ExtendedBuilds(s) <= {v} <==> NamesOnly(s, v)
    ensures NamesOnly(s, v) ==> HasNotice(s)
  {
    hide StableBuilds, ExtendedBuilds, HasNotice, Cves, Reads, IsNotice;
    SectionMeans(s);
    if NamesOnly(s, v) {
      assert v in StableBuilds(s);
      forall w | w in StableBuilds(s) ensures w == v {}
      forall w | w in ExtendedBuilds(s) ensures w == v {}
    }
    if StableBuilds(s) == {v} && ExtendedBuilds(s) <= {v} {
      assert v in StableBuilds(s);
      forall p, w | IsNotice(s, p) && (Reads(p.stable, w) || Reads(p.extended, w)) ensures w == v {
        assert w in StableBuilds(s) || w in ExtendedBuilds(s);
      }
    }
  }

  // ---- the page ----------------------------------------------------------

  /** A page's sections: its content container, cut at every heading; a section is
      dated d exactly when its heading is an h2 that spells the date d. */
  lemma SplitsMeans(page: string, sc: Scanner, secs: seq<Section>) returns (front: string, body: string)
    requires Splits(page, sc, secs)
    ensures page == front + body && (exists rest :: body == "<div class=\"content\">" + rest)
    ensures forall i :: 0 <= i < |front| ==> !StartsWith(page[i..], "<div class=\"content\">")
    ensures var ms := sc.headings(body);
            && |secs| == |ms| + 1 && secs[0].date == None && secs[0].title == "(before the first heading)"
            && forall i, d :: 0 <= i < |ms| ==>
                 (secs[i + 1].date == Some(d) <==> ms[i].level == "h2" && ms[i].plainDate == Some(d))
    ensures forall i :: 0 <= i < |secs| ==>
              secs[i].paragraphs == sc.paragraphs(secs[i].html) && secs[i].residualRelevant == sc.residual(secs[i].html)
    ensures forall i :: 0 < i < |secs| ==> secs[i].title == sc.headings(body)[i - 1].title
  {
    var at: nat :| FirstAt(page, CONTENT_MARKER, at) && SectionsOf(page[at..], sc, secs);
    front, body := page[..at], page[at..];
    StartsWithIff(body, CONTENT_MARKER);
    var ms := sc.headings(body);
    assert secs[0].date == None;
    forall i, d | 0 <= i < |ms|
      ensures secs[i + 1].date == Some(d) <==> ms[i].level == "h2" && ms[i].plainDate == Some(d)
    {
      assert secs[i + 1].date == HeadingDate(ms[i]);
    }
  }

  /** A version is put forward by a page exactly when the page has sections, dated
      ones newest-first, one of which puts it forward. */
  lemma PageIff(page: string, sc: Scanner, today: int, v: Version)
    ensures (exists c :: PutsForward(page, sc, today, c) && c.version == v) <==>
            exists secs, k: nat :: Splits(page, sc, secs) && Ordered(secs) && Puts(secs, today, k, v)
  {
    hide Splits, Puts, Selected;
    if c :| PutsForward(page, sc, today, c) && c.version == v {
      var secs, k: nat :|
        Splits(page, sc, secs) && NewestFirst(secs) && SomeDated(secs) && Selected(secs, today, k, c);
      SelectedIff(secs, today, k, v);
      assert Ordered(secs);
    }
    if secs, k: nat :| Splits(page, sc, secs) && Ordered(secs) && Puts(secs, today, k, v) {
      SelectedIff(secs, today, k, v);
      var c :| Selected(secs, today, k, c) && c.version == v;
      PutsIsDated(secs, today, k, v);
      assert PutsForward(page, sc, today, c);
    }
  }

  /** No dated section is followed by one with a later date. */
  ghost predicate Ordered(secs: seq<Section>) {
    forall i, j, d, e :: 0 <= i < j < |secs| && secs[i].date == Some(d) && secs[j].date == Some(e) ==> e <= d
  }

  lemma PutsIsDated(secs: seq<Section>, today: int, k: nat, v: Version)
    requires Puts(secs, today, k, v)
    ensures SomeDated(secs)
  {}

  // ---- the catalog -------------------------------------------------------

  /** A row for this very build: seven cells, the x64 runtime title, its build text. */
  ghost predicate IsFor(r: Row, v: Version) {
    7 <= r.cells && exists m, t :: r.title == Some((m, t)) && Parse4(t) == Some(v)
  }

  /** A sound one: the title's major, product and classification, a date that is not
      more than a day ahead, and a single size of its own, not zero. */
  ghost predicate IsSound(r: Row, v: Version, today: int) {
    && (exists t :: r.title == Some((v.major, t)))
    && r.product == "Microsoft Edge" && r.classification == "Updates"
    && (exists d :: r.date == Some(d) && d <= today + 1)
    && exists j :: IsOwnSize(r, j) && r.sizes[j].1 > 0 && forall i :: IsOwnSize(r, i) ==> i == j
  }

  ghost predicate IsOwnSize(r: Row, j: int) { 0 <= j < |r.sizes| && r.sizes[j].0 == r.guid }

  lemma {:induction false} OwnSizesNone(r: Row, n: nat)
    requires n <= |r.sizes|
    ensures OwnSizes(r, n) == [] <==> forall j :: 0 <= j < n ==> r.sizes[j].0 != r.guid
  {
    if n > 0 { OwnSizesNone(r, n - 1); }
  }

  lemma {:induction false} OwnSizesOne(r: Row, n: nat, x: nat)
    requires n <= |r.sizes|
    ensures OwnSizes(r, n) == [x] <==>
            exists j :: 0 <= j < n && OnlyOwn(r, n, j) && r.sizes[j].1 == x
  {
    if n > 0 {
      OwnSizesOne(r, n - 1, x);
      OwnSizesNone(r, n - 1);
      if r.sizes[n - 1].0 == r.guid {
        assert |OwnSizes(r, n)| == |OwnSizes(r, n - 1)| + 1 && OwnSizes(r, n)[|OwnSizes(r, n - 1)|] == r.sizes[n - 1].1;
        if OwnSizes(r, n) == [x] {
          assert OwnSizes(r, n - 1) == [];
          assert OnlyOwn(r, n, n - 1);
        }
        if j :| 0 <= j < n && OnlyOwn(r, n, j) && r.sizes[j].1 == x {
          assert j == n - 1;
          assert forall i :: 0 <= i < n - 1 ==> r.sizes[i].0 != r.guid;
          assert OwnSizes(r, n - 1) == [];
        }
      } else {
        if j :| 0 <= j < n - 1 && OnlyOwn(r, n - 1, j) && r.sizes[j].1 == x { assert OnlyOwn(r, n, j); }
        if j :| 0 <= j < n && OnlyOwn(r, n, j) && r.sizes[j].1 == x {
          assert j != n - 1;
          assert OnlyOwn(r, n - 1, j);
        }
        assert OwnSizes(r, n) == OwnSizes(r, n - 1);
      }
    }
  }

  ghost predicate OnlyOwn(r: Row, n: nat, j: int) {
    0 <= j < n <= |r.sizes| && r.sizes[j].0 == r.guid && forall i :: 0 <= i < n && r.sizes[i].0 == r.guid ==> i == j
  }

  lemma SoundRowIff(r: Row, v: Version, today: int)
    requires Concerns(r, v)
    ensures SoundRow(r, v, today) <==> IsSound(r, v, today)
  {
    hide Parse4, OwnSizes;
    var n := |r.sizes|;
    var own := OwnSizes(r, n);
    if |own| == 1 && own[0] > 0 {
      assert own == [own[0]];
      OwnSizesOne(r, n, own[0]);
      var j :| 0 <= j < n && OnlyOwn(r, n, j) && r.sizes[j].1 == own[0];
      assert IsOwnSize(r, j);
    }
    if j :| IsOwnSize(r, j) && r.sizes[j].1 > 0 && forall i :: IsOwnSize(r, i) ==> i == j {
      assert forall i :: 0 <= i < n && r.sizes[i].0 == r.guid ==> IsOwnSize(r, i);
      assert OnlyOwn(r, n, j);
      OwnSizesOne(r, n, r.sizes[j].1);
    }
  }

  /** The catalog backs the build by row i exactly when that row is the only one for
      it and is sound. */
  lemma CorroboratedIff(rows: seq<Row>, v: Version, today: int, i: nat)
    ensures Corroborated(rows, v, today, i) <==>
            && i < |rows| && IsFor(rows[i], v) && IsSound(rows[i], v, today)
            && forall j :: 0 <= j < |rows| && IsFor(rows[j], v) ==> j == i
  {
    hide SoundRow, IsSound, Parse4;
    forall j | 0 <= j < |rows| ensures Concerns(rows[j], v) <==> IsFor(rows[j], v) {}
    if i < |rows| && Concerns(rows[i], v) { SoundRowIff(rows[i], v, today); }
  }
}
