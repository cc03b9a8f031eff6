/** A PE32+ file read the way the Windows exe checker reads it: headers, section
    table, and lookups bounded to the file-backed part of a section. */
module PeImage {
  import opened Basics

  type byte = b: nat | b < 256
  type bytes = seq<byte>

  datatype Fault =
    | NotPe | BadSignature | OptionalHeaderTruncated | NotPe32Plus | TooManyDirectories
    | SectionTableTruncated | RawDataPastEnd
    | EmptySpan | PastFileBacked | OutsideSections | NoStringEnd | NoSuchSection
    | ImportDirectoryTooSmall | NoLastDescriptor | ForbiddenRuntime | NoUniversalCrt | LacksHardening
    | LoadConfigMissing | LoadConfigSize | GuardFlagsMissing | TooFewEntries | CountNotCredible
    | TableBelowBase | TableUnsorted | EntriesOutsideText | NoDispatchPointer | TooFewCalls

  datatype Result<+T> = Ok(value: T) | Bad(fault: Fault)

  // ---- little-endian fields ----------------------------------------------

  const B2: nat := 0x100
  const B4: nat := 0x1_0000
  const B8: nat := 0x1_0000_0000

  function U16(d: bytes, o: nat): nat
    requires o + 2 <= |d|
  {
    d[o] + B2 * d[o + 1]
  }

  function U32(d: bytes, o: nat): nat
    requires o + 4 <= |d|
  {
    U16(d, o) + B4 * U16(d, o + 2)
  }

  function U64(d: bytes, o: nat): nat
    requires o + 8 <= |d|
  {
    U32(d, o) + B8 * U32(d, o + 4)
  }

  function I32(d: bytes, o: nat): int
    requires o + 4 <= |d|
  {
    if U32(d, o) < 0x8000_0000 then U32(d, o) else U32(d, o) - B8
  }

  // ---- headers -----------------------------------------------------------

  datatype Section = Section(name: bytes, va: nat, vsz: nat, raw: nat, rawsz: nat) {
    /** How many of its bytes come from the file. */
    function Backed(): nat { if vsz <= rawsz then vsz else rawsz }

    predicate Holds(rva: nat) { va <= rva < va + vsz }
  }

  datatype Image = Image(base: nat, entry: nat, dllc: nat, ndirs: nat, opt: nat, secs: seq<Section>)

  const MZ: bytes := [0x4D, 0x5A]
  const PE00: bytes := [0x50, 0x45, 0, 0]
  const ROW: nat := 40

  /** `rstrip(b"\0")`. */
  function TrimNuls(s: bytes): bytes {
    if s != [] && s[|s| - 1] == 0 then TrimNuls(s[..|s| - 1]) else s
  }

  function ReadSection(d: bytes, s: nat): Result<Section> {
    if s + ROW > |d| then Bad(SectionTableTruncated)
    else
      var sec := Section(TrimNuls(d[s..s + 8]), U32(d, s + 12), U32(d, s + 8), U32(d, s + 20), U32(d, s + 16));
      if sec.raw + sec.rawsz > |d| then Bad(RawDataPastEnd) else Ok(sec)
  }

  /** The first n rows of the section table, or the first fault among them. */
  function ReadSections(d: bytes, at: nat, n: nat): Result<seq<Section>> {
    if n == 0 then Ok([])
    else
      var before := ReadSections(d, at, n - 1);
      if before.Bad? then before
      else
        var sec := ReadSection(d, at + (n - 1) * ROW);
        if sec.Bad? then Bad(sec.fault) else Ok(before.value + [sec.value])
  }

  function Parse(d: bytes): Result<Image> {
    if |d| < 0x40 || d[..2] != MZ then Bad(NotPe) else ParseAt(d, U32(d, 0x3C))
  }

  /** The PE header at `pe`, the optional header and the section table. */
  function ParseAt(d: bytes, pe: nat): Result<Image> {
    if pe + 24 > |d| || d[pe..pe + 4] != PE00 then Bad(BadSignature)
    else ParseOptional(d, pe + 24, U16(d, pe + 20), U16(d, pe + 6))
  }

  function ParseOptional(d: bytes, opt: nat, optsz: nat, nsec: nat): Result<Image> {
    if optsz < 112 || opt + optsz > |d| then Bad(OptionalHeaderTruncated)
    else if U16(d, opt) != 0x20B then Bad(NotPe32Plus)
    else if 112 + U32(d, opt + 108) * 8 > optsz then Bad(TooManyDirectories)
    else
      var secs := ReadSections(d, opt + optsz, nsec);
      if secs.Bad? then Bad(secs.fault)
      else Ok(Image(U64(d, opt + 24), U32(d, opt + 16), U16(d, opt + 70), U32(d, opt + 108), opt, secs.value))
  }

  lemma {:induction false} FaultPersists(d: bytes, at: nat, i: nat, n: nat)
    requires i <= n && ReadSections(d, at, i).Bad?
    ensures ReadSections(d, at, n) == ReadSections(d, at, i)
  {
    if i < n { FaultPersists(d, at, i, n - 1); }
  }

  /** The constructor: every field is read inside the file, whatever the bytes. */
  method ParseImage(d: bytes) returns (r: Result<Image>)
    ensures r == Parse(d)
  {
    hide U32, U16, ReadSections;
    if |d| < 2 || d[..2] != MZ || |d| < 0x40 { return Bad(NotPe); }
    var pe := U32(d, 0x3C);
    if pe + 24 > |d| || d[pe..pe + 4] != PE00 { return Bad(BadSignature); }
    var nsec := U16(d, pe + 6);
    var optsz := U16(d, pe + 20);
    var opt := pe + 24;
    if optsz < 112 || opt + optsz > |d| { return Bad(OptionalHeaderTruncated); }
    if U16(d, opt) != 0x20B { return Bad(NotPe32Plus); }
    var base := U64(d, opt + 24);
    var entry := U32(d, opt + 16);
    var dllc := U16(d, opt + 70);
    var ndirs := U32(d, opt + 108);
    if 112 + ndirs * 8 > optsz { return Bad(TooManyDirectories); }
    var secs := ReadTable(d, opt + optsz, nsec);
    if secs.Bad? { return Bad(secs.fault); }
    return Ok(Image(base, entry, dllc, ndirs, opt, secs.value));
  }

  method ReadTable(d: bytes, at: nat, nsec: nat) returns (r: Result<seq<Section>>)
    ensures r == ReadSections(d, at, nsec)
  {
    var secs: seq<Section> := [];
    for i := 0 to nsec
      invariant ReadSections(d, at, i) == Ok(secs)
    {
      var row := ReadRow(d, at + i * ROW);
      if row.Bad? {
        FaultPersists(d, at, i + 1, nsec);
        return Bad(row.fault);
      }
      secs := secs + [row.value];
    }
    return Ok(secs);
  }

  method ReadRow(d: bytes, s: nat) returns (r: Result<Section>)
    ensures r == ReadSection(d, s)
  {
    if s + ROW > |d| { return Bad(SectionTableTruncated); }
    var name := TrimNuls(d[s..s + 8]);
    var vsz, va, rawsz, raw := U32(d, s + 8), U32(d, s + 12), U32(d, s + 16), U32(d, s + 20);
    if raw + rawsz > |d| { return Bad(RawDataPastEnd); }
    return Ok(Section(name, va, vsz, raw, rawsz));
  }

  /** Every section's raw data and every data directory lies inside the file. */
  predicate InFile(img: Image, n: nat) {
    && img.opt + 112 + img.ndirs * 8 <= n
    && forall s :: s in img.secs ==> s.raw + s.rawsz <= n
  }

  lemma {:induction false} SectionsInFile(d: bytes, at: nat, n: nat)
    requires ReadSections(d, at, n).Ok?
    ensures var secs := ReadSections(d, at, n).value;
            && |secs| == n && (n > 0 ==> at + n * ROW <= |d|)
            && forall i :: 0 <= i < n ==>
                 secs[i].raw + secs[i].rawsz <= |d| && ReadSection(d, at + i * ROW) == Ok(secs[i])
  {
    if n > 0 { SectionsInFile(d, at, n - 1); }
  }

  lemma ParsedIsInFile(d: bytes)
    requires Parse(d).Ok?
    ensures InFile(Parse(d).value, |d|)
  {
    hide U32, U16, ReadSections;
    var pe := U32(d, 0x3C);
    SectionsInFile(d, pe + 24 + U16(d, pe + 20), U16(d, pe + 6));
  }

  // ---- lookups -----------------------------------------------------------

  /** A data directory's address and size, zero when it is not declared. */
  function Directory(d: bytes, img: Image, idx: nat): (nat, nat)
    requires InFile(img, |d|)
  {
    if idx >= img.ndirs then (0, 0)
    else (U32(d, img.opt + 112 + idx * 8), U32(d, img.opt + 112 + idx * 8 + 4))
  }

  /** The first section in table order whose virtual range holds the address. */
  function Home(secs: seq<Section>, rva: nat): (r: Option<Section>)
    ensures r.Some? ==> r.value in secs && r.value.Holds(rva)
    ensures r.None? <==> forall i :: 0 <= i < |secs| ==> !secs[i].Holds(rva)
  {
    if secs == [] then None
    else if secs[0].Holds(rva) then Some(secs[0])
    else
      var rest := Home(secs[1..], rva);
      assert rest.None? ==> forall i :: 0 < i < |secs| ==> secs[i] == secs[1..][i - 1];
      rest
  }

  /** Any section that holds the address is found if none before it does. */
  lemma {:induction false} HomeIsFirst(secs: seq<Section>, rva: nat, i: nat)
    requires i < |secs| && secs[i].Holds(rva) && forall k :: 0 <= k < i ==> !secs[k].Holds(rva)
    ensures Home(secs, rva) == Some(secs[i])
  {
    if i > 0 {
      assert forall k :: 0 < k < |secs| ==> secs[k] == secs[1..][k - 1];
      HomeIsFirst(secs[1..], rva, i - 1);
    }
  }

  /** File offset of [rva, rva + size) if all of it is file-backed in one section. */
  function Span(img: Image, rva: nat, size: nat): Result<nat> {
    if size == 0 then Bad(EmptySpan)
    else
      var home := Home(img.secs, rva);
      if home.None? then Bad(OutsideSections)
      else if rva + size > home.value.va + home.value.Backed() then Bad(PastFileBacked)
      else Ok(home.value.raw + (rva - home.value.va))
  }

  /** `find(b"\0", o, end)`. */
  function FindNul(d: bytes, o: nat, end: nat): (r: Option<nat>)
    requires end <= |d|
    ensures r.Some? ==> o <= r.value < end && d[r.value] == 0 && forall k :: o <= k < r.value ==> d[k] != 0
    ensures r.None? ==> forall k :: o <= k < end ==> d[k] != 0
    decreases end - o
  {
    if o >= end then None else if d[o] == 0 then Some(o) else FindNul(d, o + 1, end)
  }

  function CString(d: bytes, img: Image, rva: nat): Result<bytes>
    requires InFile(img, |d|)
  {
    var home := Home(img.secs, rva);
    if home.None? then Bad(OutsideSections)
    else
      var s := home.value;
      var o := s.raw + (rva - s.va);
      var nul := FindNul(d, o, s.raw + s.Backed());
      if nul.None? then Bad(NoStringEnd) else Ok(d[o..nul.value])
  }

  /** `section(name)`: the first section so named. */
  function Named(secs: seq<Section>, name: bytes): (r: Result<Section>)
    ensures r.Ok? ==> r.value in secs && r.value.name == name
    ensures r.Bad? ==> r.fault == NoSuchSection && forall i :: 0 <= i < |secs| ==> secs[i].name != name
  {
    if secs == [] then Bad(NoSuchSection)
    else if secs[0].name == name then Ok(secs[0])
    else
      var rest := Named(secs[1..], name);
      assert rest.Bad? ==> forall i :: 0 < i < |secs| ==> secs[i] == secs[1..][i - 1];
      rest
  }

  lemma {:induction false} NamedIsFirst(secs: seq<Section>, name: bytes, i: nat)
    requires i < |secs| && secs[i].name == name && forall k :: 0 <= k < i ==> secs[k].name != name
    ensures Named(secs, name) == Ok(secs[i])
  {
    if i > 0 {
      assert forall k :: 0 < k < |secs| ==> secs[k] == secs[1..][k - 1];
      NamedIsFirst(secs[1..], name, i - 1);
    }
  }

  // ---- the loader's view -------------------------------------------------

  /** The byte the loader maps at an address of a section: file data, then zeros. */
  function LoadedByte(d: bytes, s: Section, rva: nat): byte
    requires s.Holds(rva) && s.raw + s.rawsz <= |d|
  {
    if rva - s.va < s.Backed() then d[s.raw + (rva - s.va)] else 0
  }

  /** A span is granted exactly when one section, the first to hold its start,
      backs all of it from the file; the bytes then read are the bytes mapped. */
  lemma SpanIsLoadersView(d: bytes, img: Image, rva: nat, size: nat)
    requires InFile(img, |d|)
    ensures Span(img, rva, size).Ok? <==>
            size > 0 && Home(img.secs, rva).Some? &&
            rva + size <= Home(img.secs, rva).value.va + Home(img.secs, rva).value.Backed()
    ensures Span(img, rva, size).Ok? ==>
              var o := Span(img, rva, size).value; var s := Home(img.secs, rva).value;
              o + size <= s.raw + s.Backed() <= |d| &&
              forall a :: rva <= a < rva + size ==> s.Holds(a) && d[o + (a - rva)] == LoadedByte(d, s, a)
  {}

  /** A string never includes a byte the loader would zero-fill, and ends at the
      first mapped zero. */
  lemma CStringIsLoadersView(d: bytes, img: Image, rva: nat)
    requires InFile(img, |d|) && CString(d, img, rva).Ok?
    ensures var t := CString(d, img, rva).value; var s := Home(img.secs, rva).value;
            && Home(img.secs, rva).Some?
            && (forall a :: rva <= a < rva + |t| ==>
                  s.Holds(a) && t[a - rva] == LoadedByte(d, s, a) && t[a - rva] != 0)
            && s.Holds(rva + |t|) && rva + |t| < s.va + s.Backed() && LoadedByte(d, s, rva + |t|) == 0
  {
    var s := Home(img.secs, rva).value;
    var o := s.raw + (rva - s.va);
    var nul := FindNul(d, o, s.raw + s.Backed()).value;
    assert CString(d, img, rva).value == d[o..nul];
  }
}
