/** The verdict depends on nothing but the headers and the file-backed bytes of
    sections: two files that agree there are judged alike. */
module PeNonInterference {
  import opened PeImage
  import opened PeCheck

  ghost predicate Same(d: bytes, e: bytes, lo: nat, hi: nat) {
    forall k :: lo <= k < hi && k < |d| && k < |e| ==> d[k] == e[k]
  }

  function Most(a: nat, b: nat): nat { if a < b then b else a }

  /** End of the section table of a file whose headers are in order. In a refused
      file the table may be said to end before the field at 0x3C that locates it,
      and that field still decides what is read: never less than 0x40 then. */
  function HeaderEnd(d: bytes): nat {
    if |d| < 0x40 then |d|
    else
      var pe := U32(d, 0x3C);
      if pe + 24 > |d| then 0x40
      else Most(0x40, pe + 24 + U16(d, pe + 20) + U16(d, pe + 6) * ROW)
  }

  /** When the headers are in order it is just the end of the section table. */
  lemma HeaderEndIsTableEnd(d: bytes)
    requires Parse(d).Ok?
    ensures var pe := U32(d, 0x3C);
            && pe + 24 <= |d| && U16(d, pe + 6) == |Parse(d).value.secs|
            && HeaderEnd(d) == Parse(d).value.opt + U16(d, pe + 20) + |Parse(d).value.secs| * ROW
  {
    hide U32, U16, ReadSections;
    var pe := U32(d, 0x3C);
    SectionsInFile(d, pe + 24 + U16(d, pe + 20), U16(d, pe + 6));
  }

  /** The sections the checker sees, none when the headers are refused. */
  function SectionsSeen(d: bytes): seq<Section> {
    if Parse(d).Ok? then Parse(d).value.secs else []
  }

  ghost predicate Indistinguishable(d: bytes, e: bytes) {
    && |d| == |e|
    && Same(d, e, 0, HeaderEnd(d))
    && forall s :: s in SectionsSeen(d) ==> Same(d, e, s.raw, s.raw + s.Backed())
  }

  // ---- reads agree -------------------------------------------------------

  lemma SameU32(d: bytes, e: bytes, lo: nat, hi: nat, o: nat)
    requires |d| == |e| && Same(d, e, lo, hi) && lo <= o && o + 4 <= hi && o + 4 <= |d|
    ensures U32(d, o) == U32(e, o)
  {
    assert d[o] == e[o] && d[o + 1] == e[o + 1] && d[o + 2] == e[o + 2] && d[o + 3] == e[o + 3];
  }

  lemma SameU16(d: bytes, e: bytes, lo: nat, hi: nat, o: nat)
    requires |d| == |e| && Same(d, e, lo, hi) && lo <= o && o + 2 <= hi && o + 2 <= |d|
    ensures U16(d, o) == U16(e, o)
  {
    assert d[o] == e[o] && d[o + 1] == e[o + 1];
  }

  lemma SameSlice(d: bytes, e: bytes, lo: nat, hi: nat, a: nat, b: nat)
    requires |d| == |e| && Same(d, e, lo, hi) && lo <= a <= b <= hi && b <= |d|
    ensures d[a..b] == e[a..b]
  {}

  lemma SameSection(d: bytes, e: bytes, hi: nat, s: nat)
    requires |d| == |e| && Same(d, e, 0, hi) && s + ROW <= hi
    ensures ReadSection(d, s) == ReadSection(e, s)
  {
    if s + ROW <= |d| {
      SameSlice(d, e, 0, hi, s, s + 8);
      SameU32(d, e, 0, hi, s + 8);
      SameU32(d, e, 0, hi, s + 12);
      SameU32(d, e, 0, hi, s + 16);
      SameU32(d, e, 0, hi, s + 20);
    }
  }

  lemma {:induction false} SameSections(d: bytes, e: bytes, hi: nat, at: nat, n: nat)
    requires |d| == |e| && Same(d, e, 0, hi) && at + n * ROW <= hi
    ensures ReadSections(d, at, n) == ReadSections(e, at, n)
  {
    hide ReadSection;
    if n > 0 {
      SameSections(d, e, hi, at, n - 1);
      SameSection(d, e, hi, at + (n - 1) * ROW);
    }
  }

  lemma SameParse(d: bytes, e: bytes)
    requires |d| == |e| && Same(d, e, 0, HeaderEnd(d))
    ensures Parse(d) == Parse(e)
  {
    var hi := HeaderEnd(d);
    if |d| >= 0x40 {
      SameSlice(d, e, 0, hi, 0, 2);
      SameU32(d, e, 0, hi, 0x3C);
      var pe := U32(d, 0x3C);
      if pe + 24 <= |d| {
        SameSlice(d, e, 0, hi, pe, pe + 4);
        SameU16(d, e, 0, hi, pe + 6);
        SameU16(d, e, 0, hi, pe + 20);
        SameOptional(d, e, hi, pe + 24, U16(d, pe + 20), U16(d, pe + 6));
      }
    }
  }

  lemma SameOptional(d: bytes, e: bytes, hi: nat, opt: nat, optsz: nat, nsec: nat)
    requires |d| == |e| && Same(d, e, 0, hi) && hi >= opt + optsz + nsec * ROW
    ensures ParseOptional(d, opt, optsz, nsec) == ParseOptional(e, opt, optsz, nsec)
  {
    hide U32, U16, ReadSections;
    if optsz >= 112 && opt + optsz <= |d| {
      SameU16(d, e, 0, hi, opt);
      SameU32(d, e, 0, hi, opt + 16);
      SameU32(d, e, 0, hi, opt + 24);
      SameU32(d, e, 0, hi, opt + 28);
      SameU16(d, e, 0, hi, opt + 70);
      SameU32(d, e, 0, hi, opt + 108);
      SameSections(d, e, hi, opt + optsz, nsec);
    }
  }

  // ---- lookups agree -----------------------------------------------------

  /** What the two files share once the headers are read. */
  ghost predicate SameView(d: bytes, e: bytes, img: Image) {
    && |d| == |e| && InFile(img, |d|)
    && Same(d, e, img.opt + 112, img.opt + 112 + img.ndirs * 8)
    && forall s :: s in img.secs ==> Same(d, e, s.raw, s.raw + s.Backed())
  }

  lemma SameDirectory(d: bytes, e: bytes, img: Image, idx: nat)
    requires SameView(d, e, img)
    ensures Directory(d, img, idx) == Directory(e, img, idx)
  {
    if idx < img.ndirs {
      var lo := img.opt + 112;
      SameU32(d, e, lo, lo + img.ndirs * 8, lo + idx * 8);
      SameU32(d, e, lo, lo + img.ndirs * 8, lo + idx * 8 + 4);
    }
  }

  /** A granted span reads the same bytes in both files. */
  lemma SameSpan(d: bytes, e: bytes, img: Image, rva: nat, size: nat)
    requires SameView(d, e, img) && Span(img, rva, size).Ok?
    ensures var o := Span(img, rva, size).value; o + size <= |d| && Same(d, e, o, o + size)
  {
    SpanIsLoadersView(d, img, rva, size);
    var s := Home(img.secs, rva).value;
    assert Same(d, e, s.raw, s.raw + s.Backed());
  }

  lemma {:induction false} SameNul(d: bytes, e: bytes, o: nat, end: nat)
    requires |d| == |e| && end <= |d| && Same(d, e, o, end)
    ensures FindNul(d, o, end) == FindNul(e, o, end)
    decreases end - o
  {
    if o < end { SameNul(d, e, o + 1, end); }
  }

  lemma SameCString(d: bytes, e: bytes, img: Image, rva: nat)
    requires SameView(d, e, img)
    ensures CString(d, img, rva) == CString(e, img, rva)
  {
    var home := Home(img.secs, rva);
    if home.Some? {
      var s := home.value;
      var o, end := s.raw + (rva - s.va), s.raw + s.Backed();
      assert Same(d, e, s.raw, end);
      SameNul(d, e, o, end);
      var nul := FindNul(d, o, end);
      if nul.Some? { SameSlice(d, e, s.raw, end, o, nul.value); }
    }
  }

  /** One descriptor, wholly inside a range the files share, reads the same. */
  lemma SameImportDescriptor(d: bytes, e: bytes, img: Image, lo: nat, hi: nat, at: nat)
    requires SameView(d, e, img) && Same(d, e, lo, hi) && lo <= at && at + 20 <= hi <= |d|
    ensures ReadDescriptor(d, img, at, false) == ReadDescriptor(e, img, at, false)
  {
    SameU32(d, e, lo, hi, at);
    SameU32(d, e, lo, hi, at + 12);
    SameU32(d, e, lo, hi, at + 16);
    SameCString(d, e, img, NameRva(d, at, false));
  }

  lemma SameDelayDescriptor(d: bytes, e: bytes, img: Image, lo: nat, hi: nat, at: nat)
    requires SameView(d, e, img) && Same(d, e, lo, hi) && lo <= at && at + 32 <= hi <= |d|
    ensures ReadDescriptor(d, img, at, true) == ReadDescriptor(e, img, at, true)
  {
    SameU32(d, e, lo, hi, at);
    SameU32(d, e, lo, hi, at + 4);
    SameCString(d, e, img, NameRva(d, at, true));
  }

  /** Descriptor j of n reads the same in both files. */
  lemma SameDescriptor(d: bytes, e: bytes, img: Image, o: nat, n: nat, j: nat, delay: bool)
    requires SameView(d, e, img) && j < n && o + Extent(n, delay) <= |d|
    requires Same(d, e, o, o + Extent(n, delay))
    ensures var at := o + Extent(j, delay);
            ReadDescriptor(d, img, at, delay) == ReadDescriptor(e, img, at, delay)
  {
    var at, hi := o + Extent(j, delay), o + Extent(n, delay);
    if delay {
      SameDelayDescriptor(d, e, img, o, hi, at);
    } else {
      SameImportDescriptor(d, e, img, o, hi, at);
    }
  }

  lemma SameDescriptors(d: bytes, e: bytes, img: Image, o: nat, n: nat, delay: bool)
    requires SameView(d, e, img) && o + Extent(n, delay) <= |d|
    requires Same(d, e, o, o + Extent(n, delay))
    ensures Descriptors(d, img, o, n, delay) == Descriptors(e, img, o, n, delay)
  {
    var r, t := Descriptors(d, img, o, n, delay), Descriptors(e, img, o, n, delay);
    forall j | 0 <= j < n ensures r[j] == t[j] {
      SameDescriptor(d, e, img, o, n, j, delay);
    }
  }

  lemma SameDirectoryNames(d: bytes, e: bytes, img: Image, delay: bool)
    requires SameView(d, e, img)
    ensures DirectoryNames(d, img, delay) == DirectoryNames(e, img, delay)
  {
    var idx := if delay then 13 else 1;
    SameDirectory(d, e, img, idx);
    var (rva, size) := Directory(d, img, idx);
    if rva != 0 && size >= Extent(1, delay) && Span(img, rva, size).Ok? {
      var o := Span(img, rva, size).value;
      SameSpan(d, e, img, rva, size);
      SameDescriptors(d, e, img, o, Count(size, delay), delay);
    }
  }

  lemma SameLoadConfig(d: bytes, e: bytes, img: Image)
    requires SameView(d, e, img)
    ensures ReadLoadConfig(d, img) == ReadLoadConfig(e, img)
  {
    SameDirectory(d, e, img, 10);
    var (rva, size) := Directory(d, img, 10);
    if rva != 0 && size >= 0x94 && Span(img, rva, size).Ok? {
      var o := Span(img, rva, size).value;
      SameSpan(d, e, img, rva, size);
      SameLoadConfigFields(d, e, o, o + size);
    }
  }

  lemma SameLoadConfigFields(d: bytes, e: bytes, o: nat, hi: nat)
    requires |d| == |e| && o + 0x94 <= hi <= |d| && Same(d, e, o, hi)
    ensures U32(d, o) == U32(e, o) && U32(d, o + 0x90) == U32(e, o + 0x90)
    ensures U64(d, o + 0x78) == U64(e, o + 0x78) && U64(d, o + 0x80) == U64(e, o + 0x80)
    ensures U64(d, o + 0x88) == U64(e, o + 0x88)
  {
    SameU32(d, e, o, hi, o);
    SameU32(d, e, o, hi, o + 0x78);
    SameU32(d, e, o, hi, o + 0x7C);
    SameU32(d, e, o, hi, o + 0x80);
    SameU32(d, e, o, hi, o + 0x84);
    SameU32(d, e, o, hi, o + 0x88);
    SameU32(d, e, o, hi, o + 0x8C);
    SameU32(d, e, o, hi, o + 0x90);
  }

  lemma SameEntries(d: bytes, e: bytes, to: nat, lc: LoadConfig)
    requires |d| == |e| && TableAt(d, to, lc) && Same(d, e, to, to + lc.cnt * Stride(lc))
    ensures forall i :: 0 <= i < lc.cnt ==> Entry(d, to, lc, i) == Entry(e, to, lc, i)
  {
    forall i | 0 <= i < lc.cnt ensures Entry(d, to, lc, i) == Entry(e, to, lc, i) {
      RowFits(i, lc.cnt, Stride(lc));
      SameU32(d, e, to, to + lc.cnt * Stride(lc), to + i * Stride(lc));
    }
  }

  lemma SameGuardTable(d: bytes, e: bytes, img: Image, lc: LoadConfig)
    requires SameView(d, e, img)
    ensures GuardTable(d, img, lc) == GuardTable(e, img, lc)
  {
    if lc.tab >= img.base && Span(img, lc.tab - img.base, lc.cnt * Stride(lc)).Ok? {
      var to := Span(img, lc.tab - img.base, lc.cnt * Stride(lc)).value;
      SameSpan(d, e, img, lc.tab - img.base, lc.cnt * Stride(lc));
      SameEntries(d, e, to, lc);
      assert Sorted(d, to, lc, lc.cnt) == Sorted(e, to, lc, lc.cnt);
    }
  }

  lemma SameGuardVerdict(d: bytes, e: bytes, img: Image, imports: nat, ucrt: nat, minCalls: int)
    requires SameView(d, e, img)
    ensures JudgeGuard(d, img, imports, ucrt, minCalls) == JudgeGuard(e, img, imports, ucrt, minCalls)
  {
    SameLoadConfig(d, e, img);
    var config := ReadLoadConfig(d, img);
    if config.Ok? {
      SameGuardTable(d, e, img, config.value);
      var text := GuardTable(d, img, config.value);
      if text.Ok? { SameCalls(d, e, img, config.value, text.value, imports, ucrt, minCalls); }
    }
  }

  lemma SameCalls(d: bytes, e: bytes, img: Image, lc: LoadConfig, text: Section, imports: nat, ucrt: nat, minCalls: int)
    requires SameView(d, e, img) && text in img.secs
    ensures JudgeCalls(d, img, lc, text, imports, ucrt, minCalls) == JudgeCalls(e, img, lc, text, imports, ucrt, minCalls)
  {
    SameSlice(d, e, text.raw, text.raw + text.Backed(), text.raw, text.raw + text.Backed());
    assert TextCode(d, text) == TextCode(e, text);
  }

  /** Two files of equal length that agree up to the end of the section table
      and on every file-backed section range get the same verdict. */
  lemma SameVerdict(d: bytes, e: bytes, minCalls: int)
    requires Indistinguishable(d, e)
    ensures Verdict(d, minCalls) == Verdict(e, minCalls)
  {
    SameParse(d, e);
    if Parse(d).Ok? {
      var img := Parse(d).value;
      ParsedIsInFile(d);
      DirectoriesAreInHeaders(d);
      assert SameView(d, e, img);
      SameDirectoryNames(d, e, img, false);
      SameDirectoryNames(d, e, img, true);
      var names := Imports(d, img);
      if names.Ok? {
        SameGuardVerdict(d, e, img, |names.value|, |Forwarders(names.value)|, minCalls);
      }
    }
  }

  lemma DirectoriesAreInHeaders(d: bytes)
    requires Parse(d).Ok?
    ensures Parse(d).value.opt + 112 + Parse(d).value.ndirs * 8 <= HeaderEnd(d)
  {}

  /** A byte outside the headers and outside every file-backed range, such as
      one the loader zero-fills over, cannot influence the verdict. */
  lemma UnmappedByteIsInert(d: bytes, k: nat, x: byte, minCalls: int)
    requires HeaderEnd(d) <= k < |d|
    requires forall s :: s in SectionsSeen(d) ==> !(s.raw <= k < s.raw + s.Backed())
    ensures Verdict(d[k := x], minCalls) == Verdict(d, minCalls)
  {
    SameVerdict(d, d[k := x], minCalls);
  }
}
